/** Values and string helpers shared by the parser, the tree queries and the mesh. */
module Base {

  /** The outcome of every parser, lookup and extraction: a value or nothing. */
  datatype Option<+T> = None | Some(value: T)

  /** `r` is what is left of `s` after dropping some prefix of it. */
  predicate IsSuffix(r: string, s: string) {
    |r| <= |s| && s[|s| - |r|..] == r
  }

  lemma SuffixTransitive(a: string, b: string, c: string)
    ensures IsSuffix(a, b) && IsSuffix(b, c) ==> IsSuffix(a, c)
  {
    if IsSuffix(a, b) && IsSuffix(b, c) {
      assert c[|c| - |b|..][|b| - |a|..] == c[|c| - |a|..];
    }
  }

  /** Four strings joined left to right are the same string joined right to left. */
  lemma JoinRight(a: string, b: string, c: string, d: string)
    ensures a + b + c + d == a + (b + (c + d))
  {
    assert a + b + c == a + (b + c);
    assert (a + (b + c)) + d == a + ((b + c) + d);
    assert (b + c) + d == b + (c + d);
  }

  /** A suffix of a sequence is its first element followed by the rest. */
  lemma HeadAndRest<T>(s: seq<T>, m: nat)
    requires m < |s|
    ensures [s[m]] + s[m + 1..] == s[m..]
  {
  }

  /** Index of the first occurrence of `c` in `s` (the standard string search for one character). */
  function IndexOf(s: string, c: char): (r: Option<nat>)
    ensures r.None? <==> c !in s
    ensures r.Some? ==> r.value < |s| && s[r.value] == c && c !in s[..r.value]
  {
    if |s| == 0 then None
    else if s[0] == c then Some(0)
    else match IndexOf(s[1..], c)
      case None => None
      case Some(k) =>
        assert s[..k + 1] == [s[0]] + s[1..][..k];
        Some(k + 1)
  }

  /** Index of the first character of `s` that is one of `cs`. */
  function IndexOfAny(s: string, cs: seq<char>): (r: Option<nat>)
    ensures r.None? <==> forall k :: 0 <= k < |s| ==> s[k] !in cs
    ensures r.Some? ==> r.value < |s| && s[r.value] in cs
    ensures r.Some? ==> forall k :: 0 <= k < r.value ==> s[k] !in cs
  {
    if |s| == 0 then None
    else if s[0] in cs then Some(0)
    else match IndexOfAny(s[1..], cs)
      case None => None
      case Some(k) => Some(k + 1)
  }

  /** `sub` occurs somewhere in `s` as a contiguous piece (the standard `contains` on strings). */
  predicate HasSubstring(s: string, sub: string) {
    sub <= s || (|s| > 0 && HasSubstring(s[1..], sub))
  }
}
