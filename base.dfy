/** Small value types shared by the whole model. */
module Base {

  /** A value that may be absent (JavaScript `undefined`, or `false` returned by a lookup). */
  datatype Option<T> = None | Some(value: T)

  /** The outcome of a step that either yields a value or throws an Error with a message. */
  datatype Result<T> = Ok(value: T) | Err(msg: string)

  /** One byte of a file's content. */
  newtype byte = x: int | 0 <= x < 256

  /** Concatenation associates: from `w == (x + y) + z` and `v == y + z`, `w == x + v`. */
  lemma ConcatAssociates<T>(x: seq<T>, y: seq<T>, z: seq<T>, w: seq<T>, v: seq<T>)
    requires w == (x + y) + z && v == y + z
    ensures w == x + v
  {
  }

  /** A non-empty slice is its first element followed by the rest. */
  lemma SliceIsHeadThenRest<T>(s: seq<T>, i: nat, k: nat)
    requires i < k <= |s|
    ensures s[i..k] == [s[i]] + s[i + 1..k]
  {
  }
}
