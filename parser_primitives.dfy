/**
 * Lexical primitives of the COLLADA reader: literal tokens, scanning up to a character
 * (or the earliest of several), whitespace, look-ahead and single decimal digits.
 */
module ParserPrimitives {
  import opened Base
  import opened ParserCore

  /** The Unicode White_Space property, as the standard `char::is_whitespace` defines it. */
  predicate IsWhitespace(c: char) {
    ('\U{9}' <= c <= '\U{D}') || c == ' ' || c == '\U{85}' || c == '\U{A0}' || c == '\U{1680}' ||
    ('\U{2000}' <= c <= '\U{200A}') || c == '\U{2028}' || c == '\U{2029}' || c == '\U{202F}' ||
    c == '\U{205F}' || c == '\U{3000}'
  }

  /** An ASCII decimal digit, the only characters a radix-10 digit conversion accepts. */
  predicate IsDigit(c: char) {
    '0' <= c <= '9'
  }

  /** The input is not empty and its first character is whitespace. */
  predicate StartsWithWhitespace(s: string) {
    |s| > 0 && IsWhitespace(s[0])
  }

  /** The input is not empty and its first character is a decimal digit. */
  predicate StartsWithDigit(s: string) {
    |s| > 0 && IsDigit(s[0])
  }

  /** The input with all its leading whitespace removed. */
  function TrimStart(s: string): (r: string)
    ensures IsSuffix(r, s)
    ensures |r| == 0 || !IsWhitespace(r[0])
    ensures forall k :: 0 <= k < |s| - |r| ==> IsWhitespace(s[k])
  {
    if |s| > 0 && IsWhitespace(s[0]) then TrimStart(s[1..]) else s
  }

  /** Matches exactly the literal `t` at the start of the input. */
  function Token(t: string): (p: Parser<string>)
    ensures NoGrowth(p)
  {
    s => if t <= s then Some((s[|t|..], s[..|t|])) else None
  }

  /** A non-empty token makes progress. */
  lemma TokenProgress(t: string)
    requires |t| > 0
    ensures Progress(Token(t))
  {
  }

  /** `Token(t)` leaves what follows the token. */
  lemma TokenSound(t: string)
    ensures Sound(Token(t))
  {
  }

  /** `Token(t)` succeeds exactly on inputs starting with `t`, yields `t` and leaves what follows it. */
  lemma TokenSpec(t: string, s: string)
    ensures Token(t)(s).Some? <==> t <= s
    ensures Token(t)(s).Some? ==> Token(t)(s).value.1 == t && t + Token(t)(s).value.0 == s
  {
    if t <= s {
      assert s[..|t|] == t;
    }
  }

  /** `Token(t)` in front of anything takes exactly `t`. */
  lemma TokenThen(t: string, u: string)
    ensures Token(t)(t + u) == Some((u, t))
  {
    assert (t + u)[..|t|] == t;
    assert (t + u)[|t|..] == u;
  }

  /**
   * Never fails. When `c` occurs, matches everything before its first occurrence and
   * leaves the rest starting at `c`; when it does not, matches nothing and leaves the
   * whole input.
   */
  function Until(c: char): (p: Parser<string>)
    ensures NoGrowth(p)
  {
    s => match IndexOf(s, c)
         case None => Some((s, ""))
         case Some(n) => Some((s[n..], s[..n]))
  }

  lemma UntilSound(c: char)
    ensures Sound(Until(c))
  {
  }

  /** What `Until(c)` splits off and what it leaves, in both cases. */
  lemma UntilSpec(c: char, s: string)
    ensures Until(c)(s).Some?
    ensures Until(c)(s).value.1 + Until(c)(s).value.0 == s && c !in Until(c)(s).value.1
    ensures c in s ==> |Until(c)(s).value.0| > 0 && Until(c)(s).value.0[0] == c
    ensures c !in s ==> Until(c)(s).value == (s, "")
  {
    match IndexOf(s, c)
    case None =>
    case Some(n) =>
      assert s[..n] + s[n..] == s;
  }

  /** `IndexOfAny` of a longer candidate list is the earlier of the two searches. */
  lemma IndexOfAnySnoc(s: string, cs: seq<char>, c: char)
    ensures IndexOfAny(s, cs + [c]) ==
      match (IndexOfAny(s, cs), IndexOf(s, c))
      case (None, None) => None
      case (Some(m), None) => Some(m)
      case (None, Some(n)) => Some(n)
      case (Some(m), Some(n)) => if n < m then Some(n) else Some(m)
  {
    assert forall x :: x in cs + [c] <==> x in cs || x == c;
  }

  /**
   * The search loop of `parse_until_l`: one standard search per candidate character,
   * keeping the smallest position found.
   */
  method EarliestOf(cs: seq<char>, input: string) returns (x: Option<nat>)
    ensures x == IndexOfAny(input, cs)
  {
    x := None;
    for k := 0 to |cs|
      invariant x == IndexOfAny(input, cs[..k])
    {
      IndexOfAnySnoc(input, cs[..k], cs[k]);
      assert cs[..k + 1] == cs[..k] + [cs[k]];
      match IndexOf(input, cs[k]) {
        case None =>
        case Some(n) =>
          match x {
            case None => x := Some(n);
            case Some(m) =>
              if n < m {
                x := Some(n);
              }
          }
      }
    }
    assert cs[..|cs|] == cs;
  }

  /**
   * Never fails. Like `Until`, but stops at the earliest character that is any of `cs`;
   * when none occurs, matches nothing and leaves the whole input.
   */
  function UntilAny(cs: seq<char>): (p: Parser<string>)
    ensures NoGrowth(p)
  {
    s => match IndexOfAny(s, cs)
         case None => Some((s, ""))
         case Some(n) => Some((s[n..], s[..n]))
  }

  lemma UntilAnySound(cs: seq<char>)
    ensures Sound(UntilAny(cs))
  {
  }

  /** `s` contains a character from `cs`. */
  predicate ContainsAny(s: string, cs: seq<char>) {
    exists k :: 0 <= k < |s| && s[k] in cs
  }

  /** What `UntilAny(cs)` splits off and what it leaves, in both cases. */
  lemma UntilAnySpec(cs: seq<char>, s: string)
    ensures UntilAny(cs)(s).Some?
    ensures UntilAny(cs)(s).value.1 + UntilAny(cs)(s).value.0 == s
    ensures forall k :: 0 <= k < |UntilAny(cs)(s).value.1| ==> UntilAny(cs)(s).value.1[k] !in cs
    ensures ContainsAny(s, cs) ==> |UntilAny(cs)(s).value.0| > 0 && UntilAny(cs)(s).value.0[0] in cs
    ensures !ContainsAny(s, cs) ==> UntilAny(cs)(s).value == (s, "")
  {
    match IndexOfAny(s, cs)
    case None =>
    case Some(n) =>
      assert s[..n] + s[n..] == s;
  }

  /** Succeeds only on a leading whitespace character, and then consumes all leading whitespace. */
  function Ws(): (p: Parser<()>)
    ensures Progress(p)
  {
    s => if StartsWithWhitespace(s) then Some((TrimStart(s), ())) else None
  }

  lemma WsSound()
    ensures Sound(Ws())
  {
  }

  lemma WsSpec(s: string)
    ensures Ws()(s).Some? <==> StartsWithWhitespace(s)
    ensures Ws()(s).Some? ==> Ws()(s).value.0 == TrimStart(s)
  {
  }

  /** Succeeds, consuming nothing, exactly when the input starts with `t`. */
  function Lookahead(t: string): (p: Parser<()>)
    ensures NoGrowth(p)
  {
    s => if t <= s then Some((s, ())) else None
  }

  lemma LookaheadSound(t: string)
    ensures Sound(Lookahead(t))
  {
  }

  /** `Lookahead(t)` succeeds exactly on inputs starting with `t` and then leaves the input unchanged. */
  lemma LookaheadSpec(t: string, s: string)
    ensures Lookahead(t)(s).Some? <==> t <= s
    ensures Lookahead(t)(s).Some? ==> Lookahead(t)(s).value.0 == s
  {
  }

  /** One decimal digit and its value 0..9. */
  function Digit(): (p: Parser<int>)
    ensures Progress(p)
  {
    s => if StartsWithDigit(s) then Some((s[1..], s[0] as int - '0' as int)) else None
  }

  lemma DigitSound()
    ensures Sound(Digit())
  {
  }

  /** `Digit` succeeds exactly on a leading digit, consumes it, and yields its value. */
  lemma DigitSpec(s: string)
    ensures Digit()(s).Some? <==> StartsWithDigit(s)
    ensures Digit()(s).Some? ==>
      Digit()(s).value.0 == s[1..] && 0 <= Digit()(s).value.1 <= 9 && Digit()(s).value.1 == s[0] as int - '0' as int
  {
  }

  /** `Until(c)` in front of a `c`-free prefix, the `c` and anything else splits at that `c`. */
  lemma UntilThen(c: char, n: string, u: string)
    requires c !in n
    ensures Until(c)(n + [c] + u) == Some(([c] + u, n))
  {
    var s := n + [c] + u;
    assert s[|n|] == c;
    match IndexOf(s, c)
    case None =>
    case Some(r) =>
      assert s[..r] == n;
      assert s[r..] == [c] + u;
  }

  /** `UntilAny(cs)` in front of a prefix free of `cs`, a character of `cs` and anything else. */
  lemma UntilAnyThen(cs: seq<char>, n: string, c: char, u: string)
    requires c in cs
    requires forall k :: 0 <= k < |n| ==> n[k] !in cs
    ensures UntilAny(cs)(n + [c] + u) == Some(([c] + u, n))
  {
    var s := n + [c] + u;
    assert s[|n|] == c;
    match IndexOfAny(s, cs)
    case None =>
    case Some(r) =>
      assert s[..r] == n;
      assert s[r..] == [c] + u;
  }
}
