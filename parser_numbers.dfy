/**
 * Number parsers: an integer with an optional leading minus, a fixed-point float and a
 * scientific-notation float. Integers are unbounded; a float is kept exactly, as a
 * decimal mantissa and a power of ten.
 */
module ParserNumbers {
  import opened Base
  import opened ParserCore
  import opened ParserPrimitives

  /** The number `mantissa * 10^exponent`: what a parsed float denotes, before any rounding. */
  datatype Decimal = Decimal(mantissa: int, exponent: int)

  /** `10^e` for any whole exponent, as a real number. */
  function RealPow10(e: int): (r: real)
    ensures r > 0.0
    decreases if e >= 0 then e else -e
  {
    if e == 0 then 1.0 else if e > 0 then 10.0 * RealPow10(e - 1) else RealPow10(e + 1) / 10.0
  }

  /** Real multiplication, named so that the lemmas below can regroup products term by term. */
  function Times(x: real, y: real): real {
    x * y
  }

  /** The real number a decimal denotes. */
  function Value(d: Decimal): real {
    Times(d.mantissa as real, RealPow10(d.exponent))
  }

  /** Multiplication by -1. */
  function Negate(d: Decimal): (r: Decimal)
    ensures r.exponent == d.exponent && r.mantissa + d.mantissa == 0
    ensures Value(r) == -Value(d)
  {
    Decimal(-d.mantissa, d.exponent)
  }

  /** Multiplication by `10^e`. */
  function Scale(d: Decimal, e: int): (r: Decimal)
    ensures r.mantissa == d.mantissa && r.exponent - d.exponent == e
    ensures Value(r) == Times(Value(d), RealPow10(e))
  {
    RealPow10Add(d.exponent, e);
    Associate(d.mantissa as real, RealPow10(d.exponent), RealPow10(e));
    Decimal(d.mantissa, d.exponent + e)
  }

  lemma Associate(x: real, y: real, z: real)
    ensures Times(x, Times(y, z)) == Times(Times(x, y), z)
  {
  }

  /** Powers of ten add their exponents, whatever the signs. */
  lemma {:induction false} RealPow10Add(a: int, b: int)
    ensures RealPow10(a + b) == Times(RealPow10(a), RealPow10(b))
    decreases if b >= 0 then b else -b
  {
    if b > 0 {
      var c := b - 1;
      RealPow10Add(a, c);
      assert RealPow10(a + b) == 10.0 * RealPow10(a + c);
      assert RealPow10(b) == 10.0 * RealPow10(c);
      TenTimes(RealPow10(a + b), RealPow10(a + c), RealPow10(a), RealPow10(c), RealPow10(b));
    } else if b < 0 {
      var c := b + 1;
      RealPow10Add(a, c);
      assert RealPow10(a + c) == 10.0 * RealPow10(a + b);
      assert RealPow10(c) == 10.0 * RealPow10(b);
      TenthOf(RealPow10(a + c), RealPow10(a + b), RealPow10(a), RealPow10(b), RealPow10(c));
    }
  }

  lemma TenTimes(up: real, down: real, x: real, y: real, yUp: real)
    requires up == 10.0 * down && down == Times(x, y) && yUp == 10.0 * y
    ensures up == Times(x, yUp)
  {
  }

  lemma TenthOf(up: real, down: real, x: real, y: real, yUp: real)
    requires up == 10.0 * down && up == Times(x, yUp) && yUp == 10.0 * y
    ensures down == Times(x, y)
  {
  }

  function Pow10(n: nat): (r: nat)
    ensures r >= 1
  {
    if n == 0 then 1 else 10 * Pow10(n - 1)
  }

  lemma {:induction false} Pow10Add(a: nat, b: nat)
    ensures Pow10(a + b) == Pow10(a) * Pow10(b)
  {
    if b > 0 {
      Pow10Add(a, b - 1);
      assert Pow10(a + b) == 10 * Pow10(a + b - 1);
    }
  }

  /** The decimal number written by the digits `ds`, most significant first. */
  function DecimalValue(ds: seq<int>): int {
    if |ds| == 0 then 0 else DecimalValue(ds[..|ds| - 1]) * 10 + ds[|ds| - 1]
  }

  /** Splitting a digit string: the left part is shifted by the length of the right part. */
  lemma {:induction false} DecimalValueAppend(a: seq<int>, b: seq<int>)
    decreases |b|
    ensures DecimalValue(a + b) == DecimalValue(a) * Pow10(|b|) + DecimalValue(b)
  {
    if |b| == 0 {
      assert a + b == a;
    } else {
      var b' := b[..|b| - 1];
      assert (a + b)[..|a + b| - 1] == a + b';
      assert (a + b)[|a + b| - 1] == b[|b| - 1];
      DecimalValueAppend(a, b');
      assert DecimalValue(a + b) == DecimalValue(a + b') * 10 + b[|b| - 1];
      assert DecimalValue(b) == DecimalValue(b') * 10 + b[|b| - 1];
      assert Pow10(|b|) == 10 * Pow10(|b'|);
      ShiftByDigit(DecimalValue(a), Pow10(|b'|), DecimalValue(b'), b[|b| - 1]);
    }
  }

  /** Shifting `x * p + y` by one more digit `c`. */
  lemma ShiftByDigit(x: int, p: int, y: int, c: int)
    ensures (x * p + y) * 10 + c == x * (10 * p) + (y * 10 + c)
  {
  }

  /** Taking the leading digit off a digit string. */
  lemma DigitsPop(ds: seq<int>, m: nat)
    requires m < |ds|
    ensures DecimalValue(ds[m..]) == ds[m] * Pow10(|ds| - m - 1) + DecimalValue(ds[m + 1..])
  {
    DecimalValueAppend([ds[m]], ds[m + 1..]);
    HeadAndRest(ds, m);
    assert DecimalValue([ds[m]]) == ds[m] by { assert [ds[m]][..0] == []; }
  }

  /**
   * The digit fold inside `parse_integer`: pops digits from the end, weighting the k-th
   * popped digit by 10^k.
   */
  method FoldDigits(ds: seq<int>) returns (res: int)
    ensures res == DecimalValue(ds)
  {
    res := 0;
    var digits := ds;
    var i: nat := 0;
    while |digits| > 0
      invariant digits == ds[..|digits|]
      invariant i == |ds| - |digits|
      invariant res == DecimalValue(ds[|digits|..])
    {
      var k := digits[|digits| - 1];
      digits := digits[..|digits| - 1];
      DigitsPop(ds, |digits|);
      res := res + k * Pow10(i);
      i := i + 1;
    }
  }

  /** The number written `whole.frac`: both digit strings read as one, over 10^|frac|. */
  function FloatValue(whole: seq<int>, frac: seq<int>): Decimal {
    Decimal(DecimalValue(whole) * Pow10(|frac|) + DecimalValue(frac), -|frac|)
  }

  /** `whole.frac` is the integer written by the digits of `whole` then `frac`, scaled down by `|frac|` places. */
  lemma FloatValueDigits(whole: seq<int>, frac: seq<int>)
    ensures FloatValue(whole, frac) == Scale(Decimal(DecimalValue(whole + frac), 0), -|frac|)
  {
    DecimalValueAppend(whole, frac);
  }

  /** A whole-number digit weight rescaled to the fraction's `n` places. */
  lemma ShiftWeight(k: int, i: nat, n: nat, rest: int)
    ensures (k * Pow10(i) + rest) * Pow10(n) == k * Pow10(i + n) + rest * Pow10(n)
  {
    Pow10Add(i, n);
    Distribute(k, Pow10(i), Pow10(n), rest);
  }

  /** Multiplying `k * p + rest` out by `q`. */
  lemma Distribute(k: int, p: int, q: int, rest: int)
    ensures (k * p + rest) * q == k * (p * q) + rest * q
  {
  }

  /** Popping the digit at `l` from a whole part whose sum is kept over 10^n. */
  lemma WholeStep(whole: seq<int>, l: nat, n: nat, k: int, i: nat, m: int)
    requires l < |whole| && k == whole[l] && i == |whole| - l - 1
    requires m == DecimalValue(whole[l + 1..]) * Pow10(n)
    ensures m + k * Pow10(i + n) == DecimalValue(whole[l..]) * Pow10(n)
  {
    DigitsPop(whole, l);
    ShiftWeight(k, i, n, DecimalValue(whole[l + 1..]));
  }

  /** Popping the digit at `l` from a fraction of `n` digits whose sum is kept over 10^n. */
  lemma FracStep(frac: seq<int>, l: nat, n: nat, k: int, j: int, shifted: int, m: int)
    requires l < |frac| == n && k == frac[l] && j + n == |frac| - l - 1
    requires m == shifted + DecimalValue(frac[l + 1..])
    ensures m + k * Pow10(j + n) == shifted + DecimalValue(frac[l..])
  {
    DigitsPop(frac, l);
  }

  /**
   * The folds inside `parse_float`: the whole part popped from its end with weights
   * 10^0, 10^1, ..., then the fraction popped from its end with weights 10^-n, ...,
   * 10^-1. The sum is kept as a mantissa over 10^n, so each weight is shifted up by n.
   */
  method FoldFloat(whole: seq<int>, frac: seq<int>) returns (res: Decimal)
    ensures res == FloatValue(whole, frac)
  {
    var n := |frac|;
    var m := 0;
    var w := whole;
    var f := frac;
    var i: nat := 0;
    var j: int := -n;
    while |w| > 0
      invariant w == whole[..|w|]
      invariant i == |whole| - |w|
      invariant m == DecimalValue(whole[|w|..]) * Pow10(n)
    {
      var k := w[|w| - 1];
      w := w[..|w| - 1];
      WholeStep(whole, |w|, n, k, i, m);
      m := m + k * Pow10(i + n);
      i := i + 1;
    }
    assert whole[0..] == whole;
    ghost var shifted := m;
    while |f| > 0
      invariant f == frac[..|f|]
      invariant j == -|f|
      invariant m == shifted + DecimalValue(frac[|f|..])
    {
      var k := f[|f| - 1];
      f := f[..|f| - 1];
      FracStep(frac, |f|, n, k, j, shifted, m);
      m := m + k * Pow10(j + n);
      j := j + 1;
    }
    assert frac[0..] == frac;
    res := Decimal(m, -n);
  }

  /** The digit values of a run of digit characters. */
  function DigitValues(d: string): (r: seq<int>)
    ensures |r| == |d|
  {
    if |d| == 0 then [] else [d[0] as int - '0' as int] + DigitValues(d[1..])
  }

  /** A non-empty string of decimal digits. */
  predicate Digits(d: string) {
    |d| > 0 && forall k :: 0 <= k < |d| ==> IsDigit(d[k])
  }

  /** A maximal run of digits: `d` is all digits and `t` does not start with one. */
  predicate DigitRun(d: string, t: string) {
    Digits(d) && !StartsWithDigit(t)
  }

  /** A point ends a run of digits. */
  lemma PointEndsRun(d: string, u: string)
    requires Digits(d)
    ensures DigitRun(d, "." + u)
  {
    assert ("." + u)[0] == '.';
  }

  /** `Digit` on a digit string followed by anything. */
  lemma DigitStep(d: string, t: string)
    requires StartsWithDigit(d)
    ensures Digit()(d + t) == Some((d[1..] + t, d[0] as int - '0' as int))
  {
    assert (d + t)[0] == d[0];
    assert (d + t)[1..] == d[1..] + t;
  }

  /** `many(digit)` takes exactly the maximal run of digits, in order. */
  lemma {:induction false} ManyDigits(d: string, t: string)
    requires DigitRun(d, t)
    decreases |d|
    ensures DigitsP()(d + t) == Some((t, DigitValues(d)))
  {
    assert StartsWithDigit(d);
    DigitStep(d, t);
    ManyStep(Digit(), d + t, d[1..] + t, d[0] as int - '0' as int);
    if |d| == 1 {
      assert d[1..] + t == t;
      DigitSpec(t);
      ManySpec(Digit(), t);
      assert DigitValues(d) == [d[0] as int - '0' as int];
    } else {
      ManyDigits(d[1..], t);
    }
  }

  /** One or more digits, as their values. */
  function DigitsP(): (p: Parser<seq<int>>)
    ensures Progress(p)
  {
    Many(Digit())
  }

  /** The value of `-` followed by digits: the digits' value with its sign flipped. */
  function NegatedDigits(t: (string, seq<int>)): int {
    -DecimalValue(t.1)
  }

  /** A minus sign and one or more digits. */
  function NegativeIntegerP(): (p: Parser<int>)
    ensures Progress(p)
  {
    TokenProgress("-");
    AndKeeps(Token("-"), DigitsP());
    MapKeeps(And(Token("-"), DigitsP()), NegatedDigits);
    Map(And(Token("-"), DigitsP()), NegatedDigits)
  }

  /** One or more digits. */
  function PositiveIntegerP(): (p: Parser<int>)
    ensures Progress(p)
  {
    MapKeeps(DigitsP(), DecimalValue);
    Map(DigitsP(), DecimalValue)
  }

  /** An optional minus sign (tried first) followed by one or more digits. */
  function Integer(): (p: Parser<int>)
    ensures Progress(p)
  {
    OrKeeps(NegativeIntegerP(), PositiveIntegerP());
    Or(NegativeIntegerP(), PositiveIntegerP())
  }

  /** A plain digit run parses as its decimal value. */
  lemma IntegerOfDigits(d: string, t: string)
    requires DigitRun(d, t)
    ensures Integer()(d + t) == Some((t, DecimalValue(DigitValues(d))))
  {
    ManyDigits(d, t);
    assert (d + t)[0] == d[0];
    TokenSpec("-", d + t);
  }

  /** The value of a minus sign followed by the digit run `d`. */
  function NegativeValue(d: string): int {
    -DecimalValue(DigitValues(d))
  }

  /** The negative form reads a minus sign and a digit run as the negated decimal value. */
  lemma NegativeIntegerOf(d: string, t: string)
    requires DigitRun(d, t)
    ensures NegativeIntegerP()("-" + (d + t)) == Some((t, NegativeValue(d)))
  {
    var s := "-" + (d + t);
    TokenThen("-", d + t);
    ManyDigits(d, t);
    AndStep(Token("-"), DigitsP(), s, d + t, "-", t, DigitValues(d));
    MapStep(And(Token("-"), DigitsP()), NegatedDigits, s, t, ("-", DigitValues(d)));
    assert NegatedDigits(("-", DigitValues(d))) == NegativeValue(d);
  }

  /** A minus sign followed by a digit run parses as the negated decimal value. */
  lemma IntegerOfNegative(d: string, t: string)
    requires DigitRun(d, t)
    ensures Integer()("-" + (d + t)) == Some((t, NegativeValue(d)))
  {
    NegativeIntegerOf(d, t);
    IntegerFirst("-" + (d + t));
  }

  /** When the negative form reads, it is the result: it is tried first. */
  lemma IntegerFirst(s: string)
    requires NegativeIntegerP()(s).Some?
    ensures Integer()(s) == NegativeIntegerP()(s)
  {
    OrFirstSuccess(NegativeIntegerP(), PositiveIntegerP(), s);
  }

  /** Anything that does not start with a digit or a minus sign is not an integer. */
  lemma IntegerNeedsDigit(s: string)
    requires !StartsWithDigit(s) && !("-" <= s)
    ensures Integer()(s).None?
  {
    TokenSpec("-", s);
    DigitSpec(s);
    ManySpec(Digit(), s);
  }

  /** The length of the run of digits at the head of `s`. */
  function LeadingDigits(s: string): (n: nat)
    ensures n <= |s|
    ensures forall k :: 0 <= k < n ==> IsDigit(s[k])
    ensures n < |s| ==> !IsDigit(s[n])
  {
    if |s| > 0 && IsDigit(s[0]) then 1 + LeadingDigits(s[1..]) else 0
  }

  /** A whole string that is an integer literal: an optional minus sign and a digit run. */
  predicate IsIntegerText(v: string) {
    Digits(v) || (|v| > 0 && v[0] == '-' && Digits(v[1..]))
  }

  /** The value an integer literal spells. */
  function IntegerTextValue(v: string): int
    requires IsIntegerText(v)
  {
    if v[0] == '-' then NegativeValue(v[1..]) else DecimalValue(DigitValues(v))
  }

  /** A minus sign followed by anything but a digit is not an integer. */
  lemma MinusNeedsDigit(x: string)
    requires !StartsWithDigit(x)
    ensures Integer()("-" + x).None?
  {
    var s := "-" + x;
    TokenThen("-", x);
    DigitSpec(x);
    ManySpec(Digit(), x);
    AndSecondFails(Token("-"), DigitsP(), s, x, "-");
    assert s[0] == '-';
    DigitSpec(s);
    ManySpec(Digit(), s);
    OrFirstSuccess(NegativeIntegerP(), PositiveIntegerP(), s);
  }

  lemma MinusText(v: string, t: string)
    requires |v| > 0 && v[0] == '-'
    ensures v + ("\"" + t) == "-" + (v[1..] + ("\"" + t))
  {
    assert v == "-" + v[1..];
  }

  lemma SplitText(v: string, k: nat, t: string)
    requires k < |v|
    ensures v + ("\"" + t) == v[..k] + (v[k..] + ("\"" + t))
    ensures (v[k..] + ("\"" + t))[0] == v[k]
  {
    assert v == v[..k] + v[k..];
  }

  lemma QuoteFirst(t: string)
    ensures !StartsWithDigit("\"" + t) && !("-" <= "\"" + t)
  {
    assert ("\"" + t)[0] == '"';
  }

  lemma HeadOfText(v: string, t: string)
    requires |v| > 0
    ensures (v + ("\"" + t))[0] == v[0]
  {
  }

  /**
   * A quoted value that is not an integer literal: reading an integer from it fails, or
   * stops at a character other than the closing quote.
   */
  lemma IntegerStopsInside(v: string, t: string)
    requires '"' !in v && !IsIntegerText(v)
    ensures Integer()(v + ("\"" + t)).None? || Token("\"")(Integer()(v + ("\"" + t)).value.0).None?
  {
    QuoteFirst(t);
    if |v| > 0 && v[0] == '-' {
      var w := v[1..];
      var k := LeadingDigits(w);
      MinusText(v, t);
      if k == 0 {
        if |w| > 0 {
          HeadOfText(w, t);
        }
        MinusNeedsDigit(w + ("\"" + t));
      } else {
        assert !Digits(w);
        SplitText(w, k, t);
        assert w[k] in v;
        IntegerOfNegative(w[..k], w[k..] + ("\"" + t));
        TokenSpec("\"", w[k..] + ("\"" + t));
      }
    } else if StartsWithDigit(v) {
      var k := LeadingDigits(v);
      assert !Digits(v);
      SplitText(v, k, t);
      assert v[k] in v;
      IntegerOfDigits(v[..k], v[k..] + ("\"" + t));
      TokenSpec("\"", v[k..] + ("\"" + t));
    } else {
      if |v| > 0 {
        HeadOfText(v, t);
      }
      IntegerNeedsDigit(v + ("\"" + t));
    }
  }

  /** Digits, a point and digits. */
  function PointedP(): (p: Parser<(seq<int>, (string, seq<int>))>)
    ensures Progress(p)
  {
    AndKeeps(Token("."), DigitsP());
    ProgressNoGrowth(DigitsP());
    AndKeeps(DigitsP(), And(Token("."), DigitsP()));
    And(DigitsP(), And(Token("."), DigitsP()))
  }

  function PointedValue(t: (seq<int>, (string, seq<int>))): Decimal {
    FloatValue(t.0, t.1.1)
  }

  function WholeValue(ds: seq<int>): Decimal {
    Decimal(DecimalValue(ds), 0)
  }

  /** One or more digits, a point and one or more digits; or else one or more digits alone. */
  function Float(): (p: Parser<Decimal>)
    ensures Progress(p)
  {
    MapKeeps(PointedP(), PointedValue);
    MapKeeps(DigitsP(), WholeValue);
    OrKeeps(Map(PointedP(), PointedValue), Map(DigitsP(), WholeValue));
    Or(Map(PointedP(), PointedValue), Map(DigitsP(), WholeValue))
  }

  /** The first alternative of `Float` reads `w.f` up to the first non-digit after it. */
  lemma PointedOf(w: string, f: string, t: string)
    requires Digits(w) && DigitRun(f, t)
    ensures Map(PointedP(), PointedValue)(w + ("." + (f + t))) ==
      Some((t, PointedValue((DigitValues(w), (".", DigitValues(f))))))
  {
    var s := w + ("." + (f + t));
    PointEndsRun(w, f + t);
    ManyDigits(w, "." + (f + t));
    ManyDigits(f, t);
    TokenThen(".", f + t);
    AndStep(Token("."), DigitsP(), "." + (f + t), f + t, ".", t, DigitValues(f));
    AndStep(DigitsP(), And(Token("."), DigitsP()), s, "." + (f + t), DigitValues(w), t, (".", DigitValues(f)));
    MapStep(PointedP(), PointedValue, s, t, (DigitValues(w), (".", DigitValues(f))));
  }

  /** A success of the first alternative is the result of `Float`. */
  lemma FloatFirst(s: string, x: (string, Decimal))
    requires Map(PointedP(), PointedValue)(s) == Some(x)
    ensures Float()(s) == Some(x)
  {
    OrFirstSuccess(Map(PointedP(), PointedValue), Map(DigitsP(), WholeValue), s);
  }

  /** `w.f` followed by something that is not a digit parses as its decimal value. */
  lemma {:induction false} FloatOfDecimal(w: string, f: string, t: string)
    requires Digits(w) && DigitRun(f, t)
    ensures Float()(w + "." + f + t) == Some((t, FloatValue(DigitValues(w), DigitValues(f))))
  {
    PointedOf(w, f, t);
    JoinRight(w, ".", f, t);
    FloatFirst(w + ("." + (f + t)), (t, FloatValue(DigitValues(w), DigitValues(f))));
  }

  /** When no point-and-digits follows the leading digits, the second alternative of `Float` reads them. */
  lemma FloatWholeReads(s: string, t: string, ds: seq<int>)
    requires DigitsP()(s) == Some((t, ds))
    requires And(Token("."), DigitsP())(t).None?
    ensures Float()(s) == Some((t, WholeValue(ds)))
  {
    AndSecondFails(DigitsP(), And(Token("."), DigitsP()), s, t, ds);
    MapStep(DigitsP(), WholeValue, s, t, ds);
  }

  /** `.` not followed by a digit is not a fraction part. */
  lemma NoFraction(t: string)
    requires !("." <= t) || !StartsWithDigit(t[1..])
    ensures And(Token("."), DigitsP())(t).None?
  {
    TokenSpec(".", t);
    if "." <= t {
      DigitSpec(t[1..]);
      ManySpec(Digit(), t[1..]);
    }
  }

  /** A digit run not followed by a point and a digit parses as a whole number. */
  lemma FloatOfWhole(w: string, t: string)
    requires DigitRun(w, t)
    requires !("." <= t) || !StartsWithDigit(t[1..])
    ensures Float()(w + t) == Some((t, Decimal(DecimalValue(DigitValues(w)), 0)))
  {
    ManyDigits(w, t);
    NoFraction(t);
    FloatWholeReads(w + t, t, DigitValues(w));
  }

  function NegatedExpValue(t: (((string, Decimal), string), int)): Decimal {
    Negate(Scale(t.0.0.1, t.1))
  }

  function ExpValue(t: ((Decimal, string), int)): Decimal {
    Scale(t.0.0, t.1)
  }

  function NegatedValue(t: (string, Decimal)): Decimal {
    Negate(t.1)
  }

  /** `-`, a float, `e` and an exponent. */
  function NegativeExpP(): (p: Parser<Decimal>)
    ensures Progress(p)
  {
    AndKeeps(Token("-"), Float());
    AndKeeps(And(Token("-"), Float()), Token("e"));
    ProgressNoGrowth(Integer());
    AndKeeps(And(And(Token("-"), Float()), Token("e")), Integer());
    MapKeeps(And(And(And(Token("-"), Float()), Token("e")), Integer()), NegatedExpValue);
    Map(And(And(And(Token("-"), Float()), Token("e")), Integer()), NegatedExpValue)
  }

  /** A float, `e` and an exponent. */
  function ExpP(): (p: Parser<Decimal>)
    ensures Progress(p)
  {
    AndKeeps(Float(), Token("e"));
    ProgressNoGrowth(Integer());
    AndKeeps(And(Float(), Token("e")), Integer());
    MapKeeps(And(And(Float(), Token("e")), Integer()), ExpValue);
    Map(And(And(Float(), Token("e")), Integer()), ExpValue)
  }

  /** `-` and a float. */
  function NegativeP(): (p: Parser<Decimal>)
    ensures Progress(p)
  {
    AndKeeps(Token("-"), Float());
    MapKeeps(And(Token("-"), Float()), NegatedValue);
    Map(And(Token("-"), Float()), NegatedValue)
  }

  /**
   * Scientific notation, trying in this order: a negated mantissa with an exponent, a
   * mantissa with an exponent, a negated mantissa alone, a mantissa alone.
   */
  function Scientific(): (p: Parser<Decimal>)
    ensures Progress(p)
  {
    OrKeeps(NegativeExpP(), ExpP());
    OrKeeps(Or(NegativeExpP(), ExpP()), NegativeP());
    OrKeeps(Or(Or(NegativeExpP(), ExpP()), NegativeP()), Float());
    Or(Or(Or(NegativeExpP(), ExpP()), NegativeP()), Float())
  }

  /** Nothing that starts with something other than a digit is a float. */
  lemma FloatNeedsDigit(s: string)
    requires !StartsWithDigit(s)
    ensures Float()(s).None?
  {
    DigitSpec(s);
    ManySpec(Digit(), s);
    assert DigitsP()(s).None?;
    assert PointedP()(s).None?;
  }

  /** A minus sign and then a float. */
  lemma MinusFloat(u: string, t: string, v: Decimal)
    requires Float()(u) == Some((t, v))
    ensures And(Token("-"), Float())("-" + u) == Some((t, ("-", v)))
  {
    TokenThen("-", u);
  }

  lemma NegativeExpStops(s: string, t: string, v: Decimal)
    requires And(Token("-"), Float())(s) == Some((t, ("-", v))) && !("e" <= t)
    ensures NegativeExpP()(s).None?
  {
    TokenSpec("e", t);
  }

  lemma ExpNeedsDigit(s: string)
    requires !StartsWithDigit(s)
    ensures ExpP()(s).None?
  {
    FloatNeedsDigit(s);
  }

  lemma NegativeReads(s: string, t: string, v: Decimal)
    requires And(Token("-"), Float())(s) == Some((t, ("-", v)))
    ensures NegativeP()(s) == Some((t, Negate(v)))
  {
  }

  lemma NegativeExpReads(s: string, u: string, u2: string, t: string, v: Decimal, e: int)
    requires And(Token("-"), Float())(s) == Some((u, ("-", v)))
    requires Token("e")(u) == Some((u2, "e")) && Integer()(u2) == Some((t, e))
    ensures NegativeExpP()(s) == Some((t, Negate(Scale(v, e))))
  {
    AndStep(And(Token("-"), Float()), Token("e"), s, u, ("-", v), u2, "e");
    AndStep(And(And(Token("-"), Float()), Token("e")), Integer(), s, u2, (("-", v), "e"), t, e);
    MapStep(And(And(And(Token("-"), Float()), Token("e")), Integer()), NegatedExpValue, s, t, ((("-", v), "e"), e));
  }

  lemma ScientificFirst(s: string)
    requires NegativeExpP()(s).Some?
    ensures Scientific()(s) == NegativeExpP()(s)
  {
  }

  /** `-w.f` with no exponent after it is read by the third alternative, as a negative number. */
  lemma ScientificNegative(w: string, f: string, t: string)
    requires Digits(w) && DigitRun(f, t)
    requires !("e" <= t)
    ensures Scientific()("-" + w + "." + f + t) == Some((t, Negate(FloatValue(DigitValues(w), DigitValues(f)))))
  {
    var s := "-" + w + "." + f + t;
    var v := FloatValue(DigitValues(w), DigitValues(f));
    assert s == "-" + (w + "." + f + t);
    FloatOfDecimal(w, f, t);
    MinusFloat(w + "." + f + t, t, v);
    NegativeExpStops(s, t, v);
    ExpNeedsDigit(s);
    NegativeReads(s, t, v);
  }

  /** A float with no sign and no exponent after it is read by the last alternative. */
  lemma ScientificUnsigned(s: string, t: string, v: Decimal)
    requires StartsWithDigit(s) && Float()(s) == Some((t, v)) && !("e" <= t)
    ensures Scientific()(s) == Some((t, v))
  {
    TokenSpec("-", s);
    AndFirstFails(Token("-"), Float(), s);
    AndFirstFails(And(Token("-"), Float()), Token("e"), s);
    AndFirstFails(And(And(Token("-"), Float()), Token("e")), Integer(), s);
    MapFails(And(And(And(Token("-"), Float()), Token("e")), Integer()), NegatedExpValue, s);
    TokenSpec("e", t);
    AndSecondFails(Float(), Token("e"), s, t, v);
    AndFirstFails(And(Float(), Token("e")), Integer(), s);
    MapFails(And(And(Float(), Token("e")), Integer()), ExpValue, s);
    MapFails(And(Token("-"), Float()), NegatedValue, s);
  }

  /** `w.f` with no exponent after it reads as that decimal. */
  lemma ScientificOfDecimal(w: string, f: string, t: string)
    requires Digits(w) && DigitRun(f, t) && !("e" <= t)
    ensures Scientific()(w + "." + f + t) == Some((t, FloatValue(DigitValues(w), DigitValues(f))))
  {
    FloatOfDecimal(w, f, t);
    ScientificUnsigned(w + "." + f + t, t, FloatValue(DigitValues(w), DigitValues(f)));
  }

  /** A run of digits with neither a fraction nor an exponent after it reads as that whole number. */
  lemma ScientificOfWhole(w: string, t: string)
    requires DigitRun(w, t) && !("." <= t) && !("e" <= t)
    ensures Scientific()(w + t) == Some((t, Decimal(DecimalValue(DigitValues(w)), 0)))
  {
    FloatOfWhole(w, t);
    ScientificUnsigned(w + t, t, Decimal(DecimalValue(DigitValues(w)), 0));
  }

  /** A minus sign and a run of digits, with neither a fraction nor an exponent after it, read as the negated whole number. */
  lemma ScientificOfNegativeWhole(w: string, t: string)
    requires DigitRun(w, t) && !("." <= t) && !("e" <= t)
    ensures Scientific()("-" + w + t) == Some((t, Negate(Decimal(DecimalValue(DigitValues(w)), 0))))
  {
    var s := "-" + w + t;
    var v := Decimal(DecimalValue(DigitValues(w)), 0);
    assert s == "-" + (w + t);
    FloatOfWhole(w, t);
    MinusFloat(w + t, t, v);
    NegativeExpStops(s, t, v);
    ExpNeedsDigit(s);
    NegativeReads(s, t, v);
  }

  /** A minus sign, a float, `e` and an integer: the first alternative of `Scientific` applies. */
  lemma ScientificNegativeExpReads(m: string, u2: string, t: string, v: Decimal, e: int)
    requires Float()(m) == Some(("e" + u2, v)) && Integer()(u2) == Some((t, e))
    ensures Scientific()("-" + m) == Some((t, Negate(Scale(v, e))))
  {
    MinusFloat(m, "e" + u2, v);
    TokenThen("e", u2);
    NegativeExpReads("-" + m, "e" + u2, u2, t, v, e);
    ScientificFirst("-" + m);
  }

  /** `-w.fe` followed by an integer `e` reads as the negated mantissa times 10^e. */
  lemma ScientificOfExponent(w: string, f: string, u2: string, t: string, e: int)
    requires Digits(w) && Digits(f) && Integer()(u2) == Some((t, e))
    ensures Scientific()("-" + (w + "." + f + ("e" + u2))) ==
      Some((t, Negate(Scale(FloatValue(DigitValues(w), DigitValues(f)), e))))
  {
    assert ("e" + u2)[0] == 'e';
    FloatOfDecimal(w, f, "e" + u2);
    ScientificNegativeExpReads(w + "." + f + ("e" + u2), u2, t, FloatValue(DigitValues(w), DigitValues(f)), e);
  }

  /** A float with no sign, `e` and an integer: the second alternative of `Scientific` applies. */
  lemma ScientificUnsignedExp(s: string, u2: string, t: string, v: Decimal, e: int)
    requires StartsWithDigit(s) && Float()(s) == Some(("e" + u2, v)) && Integer()(u2) == Some((t, e))
    ensures Scientific()(s) == Some((t, Scale(v, e)))
  {
    TokenSpec("-", s);
    AndFirstFails(Token("-"), Float(), s);
    AndFirstFails(And(Token("-"), Float()), Token("e"), s);
    AndFirstFails(And(And(Token("-"), Float()), Token("e")), Integer(), s);
    MapFails(And(And(And(Token("-"), Float()), Token("e")), Integer()), NegatedExpValue, s);
    TokenThen("e", u2);
    AndStep(Float(), Token("e"), s, "e" + u2, v, u2, "e");
    AndStep(And(Float(), Token("e")), Integer(), s, u2, (v, "e"), t, e);
    MapStep(And(And(Float(), Token("e")), Integer()), ExpValue, s, t, ((v, "e"), e));
  }

  /** `w.fe` followed by an integer `e` reads as the mantissa times 10^e. */
  lemma ScientificOfPositiveExponent(w: string, f: string, u2: string, t: string, e: int)
    requires Digits(w) && Digits(f) && Integer()(u2) == Some((t, e))
    ensures Scientific()(w + "." + f + ("e" + u2)) ==
      Some((t, Scale(FloatValue(DigitValues(w), DigitValues(f)), e)))
  {
    assert ("e" + u2)[0] == 'e';
    FloatOfDecimal(w, f, "e" + u2);
    ScientificUnsignedExp(w + "." + f + ("e" + u2), u2, t, FloatValue(DigitValues(w), DigitValues(f)), e);
  }

  /** Every number parser leaves a suffix of its input. */
  lemma DigitsSound()
    ensures Sound(DigitsP())
  {
    DigitSound();
    ManyKeeps(Digit());
  }

  lemma IntegerSound()
    ensures Sound(Integer())
  {
    DigitsSound();
    TokenSound("-");
    AndKeeps(Token("-"), DigitsP());
    MapKeeps(And(Token("-"), DigitsP()), NegatedDigits);
    MapKeeps(DigitsP(), DecimalValue);
    OrKeeps(NegativeIntegerP(), PositiveIntegerP());
  }

  lemma FloatSound()
    ensures Sound(Float())
  {
    DigitsSound();
    TokenSound(".");
    AndKeeps(Token("."), DigitsP());
    AndKeeps(DigitsP(), And(Token("."), DigitsP()));
    MapKeeps(PointedP(), PointedValue);
    MapKeeps(DigitsP(), WholeValue);
    OrKeeps(Map(PointedP(), PointedValue), Map(DigitsP(), WholeValue));
  }

  lemma ScientificSound()
    ensures Sound(Scientific())
  {
    FloatSound();
    IntegerSound();
    TokenSound("-");
    TokenSound("e");
    AndKeeps(Token("-"), Float());
    AndKeeps(And(Token("-"), Float()), Token("e"));
    AndKeeps(And(And(Token("-"), Float()), Token("e")), Integer());
    MapKeeps(And(And(And(Token("-"), Float()), Token("e")), Integer()), NegatedExpValue);
    AndKeeps(Float(), Token("e"));
    AndKeeps(And(Float(), Token("e")), Integer());
    MapKeeps(And(And(Float(), Token("e")), Integer()), ExpValue);
    MapKeeps(And(Token("-"), Float()), NegatedValue);
    OrKeeps(NegativeExpP(), ExpP());
    OrKeeps(Or(NegativeExpP(), ExpP()), NegativeP());
    OrKeeps(Or(Or(NegativeExpP(), ExpP()), NegativeP()), Float());
  }

  /** Nothing that starts with neither a digit nor `-` is a number. */
  lemma ScientificNeedsDigit(s: string)
    requires !StartsWithDigit(s) && !("-" <= s)
    ensures Scientific()(s).None?
  {
    TokenSpec("-", s);
    FloatNeedsDigit(s);
    AndFirstFails(Token("-"), Float(), s);
    AndFirstFails(And(Token("-"), Float()), Token("e"), s);
    AndFirstFails(And(And(Token("-"), Float()), Token("e")), Integer(), s);
    MapFails(And(And(And(Token("-"), Float()), Token("e")), Integer()), NegatedExpValue, s);
    AndFirstFails(Float(), Token("e"), s);
    AndFirstFails(And(Float(), Token("e")), Integer(), s);
    MapFails(And(And(Float(), Token("e")), Integer()), ExpValue, s);
    MapFails(And(Token("-"), Float()), NegatedValue, s);
  }

  /**
   * A number as it is written in a COLLADA number run: an optional minus sign, a run of
   * digits and, when `frac` is not empty, a point and the fraction digits.
   */
  datatype Numeral = Numeral(negative: bool, whole: string, frac: string)

  predicate WellFormedNumeral(n: Numeral) {
    Digits(n.whole) && (n.frac == "" || Digits(n.frac))
  }

  function NumeralText(n: Numeral): string {
    (if n.negative then "-" else "") + n.whole + (if n.frac == "" then "" else "." + n.frac)
  }

  /** The number a numeral denotes. */
  function NumeralValue(n: Numeral): Decimal {
    var v := if n.frac == "" then Decimal(DecimalValue(DigitValues(n.whole)), 0)
             else FloatValue(DigitValues(n.whole), DigitValues(n.frac));
    if n.negative then Negate(v) else v
  }

  /** What may follow a number in a run: whitespace or the `<` of the next tag. */
  predicate EndsNumber(t: string) {
    |t| > 0 && (t[0] == '<' || IsWhitespace(t[0]))
  }

  /** A numeral followed by whitespace or `<` reads as its value, and reading stops right after it. */
  lemma NumeralReads(n: Numeral, t: string)
    requires WellFormedNumeral(n) && EndsNumber(t)
    ensures Scientific()(NumeralText(n) + t) == Some((t, NumeralValue(n)))
  {
    var w, f := n.whole, n.frac;
    EndsNumberStops(t);
    NumeralTextForms(n, t);
    if n.negative && f != "" {
      ScientificNegative(w, f, t);
    } else if n.negative {
      ScientificOfNegativeWhole(w, t);
    } else if f != "" {
      ScientificOfDecimal(w, f, t);
    } else {
      ScientificOfWhole(w, t);
    }
  }

  lemma EndsNumberStops(t: string)
    requires EndsNumber(t)
    ensures !StartsWithDigit(t) && !("." <= t) && !("e" <= t)
  {
  }

  /** The four shapes a numeral is written in. */
  lemma NumeralTextForms(n: Numeral, t: string)
    ensures n.negative && n.frac != "" ==> NumeralText(n) + t == "-" + n.whole + "." + n.frac + t
    ensures n.negative && n.frac == "" ==> NumeralText(n) + t == "-" + n.whole + t
    ensures !n.negative && n.frac != "" ==> NumeralText(n) + t == n.whole + "." + n.frac + t
    ensures !n.negative && n.frac == "" ==> NumeralText(n) + t == n.whole + t
  {
  }
}
