/**
 * The POSIX behaviour of Node's `path.join` and `path.dirname` on the
 * absolute paths the server builds from `process.cwd()`.
 *
 * A normalised absolute path is kept as its list of segments below the
 * root; the base directory passed to `PathJoin` is such a list, and joining
 * continues normalisation from it exactly as `path.normalize` would on the
 * concatenated string.
 */
module NodePath {
  import opened Base

  /** An absolute path after `path.normalize`: segments below the root, and
      whether the text ended with `/` (which makes the path name a directory). */
  datatype FsPath = FsPath(segs: seq<string>, dirOnly: bool)

  /** A segment that normalisation keeps as it is. */
  predicate Clean(seg: string) {
    seg != "" && seg != "." && seg != ".." && '/' !in seg
  }

  predicate AllClean(segs: seq<string>) {
    forall k :: 0 <= k < |segs| ==> Clean(segs[k])
  }

  /** The index of the last `/` in `s`. */
  function LastSlash(s: string): (r: Option<nat>)
    ensures r.Some? ==> r.value < |s| && s[r.value] == '/' && '/' !in s[r.value + 1..]
    ensures r.None? <==> '/' !in s
  {
    if |s| == 0 then None
    else if s[|s| - 1] == '/' then Some(|s| - 1)
    else
      var r := LastSlash(s[..|s| - 1]);
      assert s == s[..|s| - 1] + [s[|s| - 1]];
      r
  }

  /** `s.split('/')` */
  function Split(s: string): (r: seq<string>)
    ensures |r| >= 1
    ensures forall k :: 0 <= k < |r| ==> '/' !in r[k]
    decreases |s|
  {
    match LastSlash(s)
    case None => [s]
    case Some(j) => Split(s[..j]) + [s[j + 1..]]
  }

  /**
   * `path.normalize` on an absolute path, continued from the normalised
   * segments `stack`: empty and `.` segments vanish, `..` removes the
   * previous segment and is dropped at the root.
   */
  function Normalize(stack: seq<string>, segs: seq<string>): (r: seq<string>)
    ensures AllClean(stack) && (forall k :: 0 <= k < |segs| ==> '/' !in segs[k]) ==> AllClean(r)
    decreases |segs|
  {
    if segs == [] then stack
    else if segs[0] == "" || segs[0] == "." then Normalize(stack, segs[1..])
    else if segs[0] == ".." then
      Normalize(if stack == [] then [] else stack[..|stack| - 1], segs[1..])
    else Normalize(stack + [segs[0]], segs[1..])
  }

  /** The arguments of `path.join` after the base, without the empty ones, joined by `/`. */
  function JoinArgs(parts: seq<string>): string {
    if |parts| == 0 then ""
    else
      var rest := JoinArgs(parts[1..]);
      if parts[0] == "" then rest
      else if rest == "" then parts[0]
      else parts[0] + "/" + rest
  }

  /** `path.join(base, ...parts)` where `base` is a normalised absolute directory. */
  function PathJoin(base: seq<string>, parts: seq<string>): (p: FsPath)
    ensures AllClean(base) ==> AllClean(p.segs)
  {
    var rel := JoinArgs(parts);
    FsPath(Normalize(base, Split(rel)), |rel| > 0 && rel[|rel| - 1] == '/')
  }

  /** `path.dirname(p)`: trailing separators are ignored and the last segment dropped. */
  function Dirname(p: FsPath): (d: FsPath)
    ensures !d.dirOnly
    ensures |p.segs| > 0 ==> d.segs + [p.segs[|p.segs| - 1]] == p.segs
    ensures |p.segs| == 0 ==> d.segs == []
  {
    if |p.segs| == 0 then FsPath([], false) else FsPath(p.segs[..|p.segs| - 1], false)
  }

  lemma LastSlashIs(s: string, j: nat)
    requires j < |s| && s[j] == '/' && '/' !in s[j + 1..]
    ensures LastSlash(s) == Some(j)
  {
  }

  /** Splitting at the last `/`, which has `pre` before it and `post` after it. */
  lemma SplitAtLast(s: string, j: nat, pre: string, post: string)
    requires j < |s| && s[j] == '/' && s[..j] == pre && s[j + 1..] == post && '/' !in post
    ensures Split(s) == Split(pre) + [post]
  {
    LastSlashIs(s, j);
  }

  /** A string without `/` splits into itself. */
  lemma SplitNoSlash(s: string)
    requires '/' !in s
    ensures Split(s) == [s]
  {
  }

  /** Splitting `a/b` gives the pieces of `a` followed by the pieces of `b`. */
  lemma {:induction false} SplitConcat(a: string, b: string)
    ensures Split(a + "/" + b) == Split(a) + Split(b)
    decreases |b|
  {
    match LastSlash(b)
    case None => SplitConcatLeaf(a, b);
    case Some(j) =>
      SplitConcat(a, b[..j]);
      SplitConcatStep(a, b, j);
  }

  lemma SplitConcatLeaf(a: string, b: string)
    requires '/' !in b
    ensures Split(a + "/" + b) == Split(a) + Split(b)
  {
    SliceConcat(a, b, 0);
    SplitAtLast(a + "/" + b, |a|, a, b);
    SplitNoSlash(b);
  }

  lemma SplitConcatStep(a: string, b: string, j: nat)
    requires j < |b| && b[j] == '/' && '/' !in b[j + 1..]
    requires Split(a + "/" + b[..j]) == Split(a) + Split(b[..j])
    ensures Split(a + "/" + b) == Split(a) + Split(b)
  {
    SplitJoinedAtLast(a, b, j);
    SplitAtLast(b, j, b[..j], b[j + 1..]);
    assert (Split(a) + Split(b[..j])) + [b[j + 1..]] == Split(a) + (Split(b[..j]) + [b[j + 1..]]);
  }

  /** The last `/` of `a/b` is the last `/` of `b` when `b` has one. */
  lemma SplitJoinedAtLast(a: string, b: string, j: nat)
    requires j < |b| && b[j] == '/' && '/' !in b[j + 1..]
    ensures Split(a + "/" + b) == Split(a + "/" + b[..j]) + [b[j + 1..]]
  {
    SliceConcat(a, b, j);
    SplitAtLast(a + "/" + b, |a| + 1 + j, a + "/" + b[..j], b[j + 1..]);
  }

  lemma SliceConcat(a: string, b: string, j: nat)
    requires j <= |b|
    ensures (a + "/" + b)[|a|] == '/'
    ensures (a + "/" + b)[..|a|] == a
    ensures (a + "/" + b)[|a| + 1..] == b
    ensures j < |b| ==> (a + "/" + b)[|a| + 1 + j + 1..] == b[j + 1..]
    ensures (a + "/" + b)[..|a| + 1 + j] == a + "/" + b[..j]
  {
  }

  /** Normalising a concatenation is normalising the second part from the result of the first. */
  lemma {:induction false} NormalizeConcat(stack: seq<string>, a: seq<string>, b: seq<string>)
    ensures Normalize(stack, a + b) == Normalize(Normalize(stack, a), b)
    decreases |a|
  {
    if a != [] {
      assert (a + b)[1..] == a[1..] + b;
      if a[0] == "" || a[0] == "." {
        NormalizeConcat(stack, a[1..], b);
      } else if a[0] == ".." {
        NormalizeConcat(if stack == [] then [] else stack[..|stack| - 1], a[1..], b);
      } else {
        NormalizeConcat(stack + [a[0]], a[1..], b);
      }
    } else {
      assert a + b == b;
    }
  }

  /** Clean segments are kept verbatim by normalisation. */
  lemma {:induction false} NormalizeClean(stack: seq<string>, segs: seq<string>)
    requires AllClean(segs)
    ensures Normalize(stack, segs) == stack + segs
    decreases |segs|
  {
    if segs != [] {
      NormalizeClean(stack + [segs[0]], segs[1..]);
      assert stack + [segs[0]] + segs[1..] == stack + segs;
    }
  }

  /** `path.join(base, a)` joins the one argument as it is. */
  lemma JoinOne(a: string)
    requires a != ""
    ensures JoinArgs([a]) == a
  {
    assert [a][1..] == [];
  }

  /** `path.join(base, a, b)` puts one `/` between the arguments and skips an empty `b`. */
  lemma JoinTwo(a: string, b: string)
    requires a != ""
    ensures JoinArgs([a, b]) == if b == "" then a else a + "/" + b
  {
    assert [a, b][1..] == [b];
    assert [b][1..] == [];
    assert JoinArgs([b]) == b;
  }

  /** A `..` right after a segment removes it. */
  lemma DotDotPops(stack: seq<string>, x: string, rest: seq<string>)
    ensures Normalize(stack + [x], [".."] + rest) == Normalize(stack, rest)
  {
    assert ([".."] + rest)[1..] == rest;
    assert (stack + [x])[..|stack + [x]| - 1] == stack;
  }

  /** `path.join(base, a, b)` normalises `a/b`, or `a` alone when `b` is empty. */
  lemma JoinTwoSegs(base: seq<string>, a: string, b: string)
    requires a != ""
    ensures PathJoin(base, [a, b]).segs == Normalize(base, Split(if b == "" then a else a + "/" + b))
  {
    JoinTwo(a, b);
  }

  lemma SameJoinArgs(base: seq<string>, p1: seq<string>, p2: seq<string>)
    requires JoinArgs(p1) == JoinArgs(p2)
    ensures PathJoin(base, p1) == PathJoin(base, p2)
  {
  }

  /** `path.join(path.join(base, a), b)` is `path.join(base, a, b)`. */
  lemma JoinNested(base: seq<string>, a: string, b: string)
    requires a != "" && b != ""
    ensures PathJoin(base, [a, b]) == PathJoin(PathJoin(base, [a]).segs, [b])
  {
    JoinOne(a);
    JoinOne(b);
    JoinTwo(a, b);
    SplitConcat(a, b);
    NormalizeConcat(base, Split(a), Split(b));
  }

  /** Joining one clean segment appends it, and `dirname` takes it off again. */
  lemma JoinCleanLeaf(base: seq<string>, leaf: string)
    requires Clean(leaf)
    ensures PathJoin(base, [leaf]) == FsPath(base + [leaf], false)
    ensures Dirname(PathJoin(base, [leaf])).segs == base
  {
    assert JoinArgs([leaf]) == leaf;
    assert LastSlash(leaf).None?;
    assert Split(leaf) == [leaf];
    NormalizeClean(base, [leaf]);
  }

  /**
   * The directory of `path.join(base, dir + '/' + leaf)` is `path.join(base, dir)`
   * when `leaf` is a single clean segment.
   */
  lemma DirnameOfJoin(base: seq<string>, dir: string, leaf: string)
    requires Clean(leaf)
    ensures Dirname(PathJoin(base, [dir + "/" + leaf])).segs == Normalize(base, Split(dir))
  {
    var rel := dir + "/" + leaf;
    assert JoinArgs([rel]) == rel;
    SplitConcat(dir, leaf);
    assert Split(leaf) == [leaf];
    NormalizeConcat(base, Split(dir), [leaf]);
    NormalizeClean(Normalize(base, Split(dir)), [leaf]);
  }
}
