/**
 * The parts of JavaScript's string semantics the server relies on:
 * `startsWith`, `includes`, `indexOf`, and `replace` with a string pattern,
 * which replaces only the FIRST occurrence and expands `$` patterns in the
 * replacement text.
 */
module JsString {
  import opened Base

  /** `s.startsWith(p)` */
  predicate StartsWith(s: string, p: string) {
    |p| <= |s| && s[..|p|] == p
  }

  /** `p` occurs in `s` starting at index `i`. */
  predicate OccursAt(s: string, p: string, i: nat) {
    i + |p| <= |s| && s[i..i + |p|] == p
  }

  /** `s.includes(p)` */
  predicate Contains(s: string, p: string) {
    exists i: nat :: i <= |s| && OccursAt(s, p, i)
  }

  /** `i` is the first index at which `p` occurs in `s`. */
  predicate FirstOccurrence(s: string, p: string, i: nat) {
    OccursAt(s, p, i) && forall j: nat :: j < i ==> !OccursAt(s, p, j)
  }

  /** `s.indexOf(p, from)`, with `None` for JavaScript's -1. */
  function IndexOfFrom(s: string, p: string, from: nat): (r: Option<nat>)
    requires from <= |s|
    decreases |s| - from
    ensures r.Some? ==> from <= r.value && OccursAt(s, p, r.value)
    ensures r.Some? ==> forall j: nat :: from <= j < r.value ==> !OccursAt(s, p, j)
    ensures r.None? ==> forall j: nat :: from <= j ==> !OccursAt(s, p, j)
  {
    if OccursAt(s, p, from) then Some(from)
    else if from == |s| then None
    else IndexOfFrom(s, p, from + 1)
  }

  /** `s.indexOf(p)` */
  function IndexOf(s: string, p: string): (r: Option<nat>)
    ensures r.Some? ==> FirstOccurrence(s, p, r.value)
    ensures r.None? <==> !Contains(s, p)
  {
    IndexOfFrom(s, p, 0)
  }

  /** The index of the first `c` in `s`. */
  function CharIndex(s: string, c: char): (r: Option<nat>)
    ensures r.Some? ==> r.value < |s| && s[r.value] == c && c !in s[..r.value]
    ensures r.None? <==> c !in s
  {
    if |s| == 0 then None
    else if s[0] == c then Some(0)
    else match CharIndex(s[1..], c)
      case None => None
      case Some(k) => assert s[1..][..k] == s[1..k + 1]; Some(k + 1)
  }

  /**
   * The replacement text that `replace` inserts for one match of a string
   * pattern (the abstract operation GetSubstitution of ECMA-262 with no
   * capture groups): `$$` gives `$`, `$&` the matched text, `` $` `` the text
   * before the match, `$'` the text after it; every other `$` is literal.
   */
  function Substitution(rep: string, matched: string, before: string, after: string): string
    decreases |rep|
  {
    if |rep| == 0 then ""
    else if rep[0] == '$' && |rep| >= 2 && rep[1] == '$' then
      "$" + Substitution(rep[2..], matched, before, after)
    else if rep[0] == '$' && |rep| >= 2 && rep[1] == '&' then
      matched + Substitution(rep[2..], matched, before, after)
    else if rep[0] == '$' && |rep| >= 2 && rep[1] == '`' then
      before + Substitution(rep[2..], matched, before, after)
    else if rep[0] == '$' && |rep| >= 2 && rep[1] == '\'' then
      after + Substitution(rep[2..], matched, before, after)
    else
      [rep[0]] + Substitution(rep[1..], matched, before, after)
  }

  /** A replacement text without `$` is inserted literally. */
  lemma {:induction false} SubstitutionLiteral(rep: string, matched: string, before: string, after: string)
    requires '$' !in rep
    ensures Substitution(rep, matched, before, after) == rep
    decreases |rep|
  {
    if |rep| > 0 {
      assert rep == [rep[0]] + rep[1..];
      SubstitutionLiteral(rep[1..], matched, before, after);
    }
  }

  /** `s.replace(p, rep)` for a string pattern `p`: only the first occurrence is replaced. */
  function ReplaceFirst(s: string, p: string, rep: string): (r: string)
    ensures !Contains(s, p) ==> r == s
    ensures forall i: nat :: FirstOccurrence(s, p, i) ==>
      r == s[..i] + Substitution(rep, p, s[..i], s[i + |p|..]) + s[i + |p|..]
  {
    match IndexOf(s, p)
    case None => s
    case Some(i) =>
      assert forall j: nat :: FirstOccurrence(s, p, j) ==> j == i;
      s[..i] + Substitution(rep, p, s[..i], s[i + |p|..]) + s[i + |p|..]
  }

  /**
   * With a replacement free of `$`, `replace` swaps the first occurrence of
   * `p` for `rep` and leaves the text before and after it as it was.
   */
  lemma ReplaceFirstLiteral(s: string, p: string, rep: string, i: nat)
    requires '$' !in rep
    requires FirstOccurrence(s, p, i)
    ensures ReplaceFirst(s, p, rep) == s[..i] + rep + s[i + |p|..]
  {
    SubstitutionLiteral(rep, p, s[..i], s[i + |p|..]);
  }
}
