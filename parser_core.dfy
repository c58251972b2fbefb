/**
 * The parser abstraction and its combinators: map, and, or, maybe, many and many_delim.
 * A parser is a pure function from the remaining input to either no match or the
 * input left over together with the value produced. Backtracking is free: `Or`
 * simply applies its second parser to the same input value.
 */
module ParserCore {
  import opened Base

  type Parser<T> = string -> Option<(string, T)>

  /** Every success leaves a suffix of the input it was given. */
  ghost predicate Sound<T>(p: Parser<T>) {
    forall s :: p(s).Some? ==> IsSuffix(p(s).value.0, s)
  }

  /** Every success consumes at least one character. */
  ghost predicate Progress<T>(p: Parser<T>) {
    forall s :: p(s).Some? ==> |p(s).value.0| < |s|
  }

  /** No success leaves more input than it was given. */
  ghost predicate NoGrowth<T>(p: Parser<T>) {
    forall s :: p(s).Some? ==> |p(s).value.0| <= |s|
  }

  /** Runs `f` and transforms its value with `g`; fails exactly when `f` fails. */
  function Map<T, U>(f: Parser<T>, g: T -> U): Parser<U>
  {
    s => match f(s)
         case None => None
         case Some((rest, x)) => Some((rest, g(x)))
  }

  /** Runs `f`, then `g` on what `f` left; pairs the two values. */
  function And<T, U>(f: Parser<T>, g: Parser<U>): Parser<(T, U)>
  {
    s => match f(s)
         case None => None
         case Some((rest1, x)) =>
           match g(rest1)
           case None => None
           case Some((rest2, y)) => Some((rest2, (x, y)))
  }

  /** Ordered choice: `f` on the input, and `g` on the same input only when `f` fails. */
  function Or<T>(f: Parser<T>, g: Parser<T>): Parser<T>
  {
    s => match f(s)
         case Some((rest1, x)) => Some((rest1, x))
         case None =>
           match g(s)
           case Some((rest2, y)) => Some((rest2, y))
           case None => None
  }

  /** Never fails: `f`'s result, or the untouched input with the type's default value `d`. */
  function Maybe<T>(f: Parser<T>, d: T): Parser<T>
  {
    s => match f(s)
         case None => Some((s, d))
         case Some(x) => Some(x)
  }

  /** The loop of `Many` after its first success: keep applying `f` while it succeeds. */
  function ManyLoop<T>(f: Parser<T>, i: string, res: seq<T>): (r: (string, seq<T>))
    requires Progress(f)
    decreases |i|
    ensures |r.0| <= |i|
    ensures res <= r.1
    ensures f(r.0).None?
  {
    match f(i)
    case None => (i, res)
    case Some((rest, x)) => ManyLoop(f, rest, res + [x])
  }

  /** One or more `f`s: fails iff the first `f` fails; stops at the last success. */
  function Many<T>(f: Parser<T>): (p: Parser<seq<T>>)
    requires Progress(f)
    ensures Progress(p)
  {
    s => match f(s)
         case None => None
         case Some((rest, x)) => Some(ManyLoop(f, rest, [x]))
  }

  /** `Many(f)` fails exactly when the first `f` does, and otherwise stops where `f` fails. */
  lemma ManySpec<T>(f: Parser<T>, s: string)
    requires Progress(f)
    ensures Many(f)(s).None? <==> f(s).None?
    ensures Many(f)(s).Some? ==>
      |Many(f)(s).value.1| >= 1 && Many(f)(s).value.1[0] == f(s).value.1 && f(Many(f)(s).value.0).None?
  {
  }

  /** The loop of `Many::parse`, accumulating into `res` until `f` fails. */
  method ManyParse<T>(f: Parser<T>, s: string) returns (r: Option<(string, seq<T>)>)
    requires Progress(f)
    ensures r == Many(f)(s)
  {
    match f(s) {
      case None =>
        return None;
      case Some((rest, x)) =>
        var res := [x];
        var i := rest;
        while true
          invariant ManyLoop(f, i, res) == ManyLoop(f, rest, [x])
          decreases |i|
        {
          match f(i) {
            case None =>
              return Some((i, res));
            case Some((rest', y)) =>
              i := rest';
              res := res + [y];
          }
        }
    }
  }

  /** What a sound parser leaves of one particular input is a suffix of it. */
  lemma SoundAt<T>(p: Parser<T>, s: string)
    requires Sound(p)
    ensures p(s).Some? ==> IsSuffix(p(s).value.0, s)
  {
  }

  /** A parser that makes progress does not grow its input. */
  lemma ProgressNoGrowth<T>(p: Parser<T>)
    requires Progress(p)
    ensures NoGrowth(p)
  {
  }

  /** A sound parser does not grow its input. */
  lemma SoundNoGrowth<T>(p: Parser<T>)
    requires Sound(p)
    ensures NoGrowth(p)
  {
  }

  /** The loop of `ManyDelim` after its first success: a delimiter `g`, then another `f`. */
  function ManyDelimLoop<T, U>(f: Parser<T>, g: Parser<U>, i: string, res: seq<T>): (r: (string, seq<T>))
    requires Progress(f) && NoGrowth(g)
    decreases |i|
    ensures |r.0| <= |i|
    ensures res <= r.1
    ensures g(r.0).None? || f(r.0).None?
  {
    match g(i)
    case None => (i, res)
    case Some((rest1, _)) =>
      match f(rest1)
      case None => (rest1, res)
      case Some((rest2, x)) => ManyDelimLoop(f, g, rest2, res + [x])
  }

  /**
   * One or more `f`s separated by `g`s. A delimiter that is not followed by another `f`
   * is still consumed: the remainder is the input after that delimiter.
   */
  function ManyDelim<T, U>(f: Parser<T>, g: Parser<U>): (p: Parser<seq<T>>)
    requires Progress(f) && NoGrowth(g)
    ensures Progress(p)
  {
    s => match f(s)
         case None => None
         case Some((rest, x)) => Some(ManyDelimLoop(f, g, rest, [x]))
  }

  /** `ManyDelim(f, g)` fails exactly when the first `f` does, and otherwise stops where `g` or `f` fails. */
  lemma ManyDelimSpec<T, U>(f: Parser<T>, g: Parser<U>, s: string)
    requires Progress(f) && NoGrowth(g)
    ensures ManyDelim(f, g)(s).None? <==> f(s).None?
    ensures ManyDelim(f, g)(s).Some? ==>
      |ManyDelim(f, g)(s).value.1| >= 1 && ManyDelim(f, g)(s).value.1[0] == f(s).value.1 &&
      (g(ManyDelim(f, g)(s).value.0).None? || f(ManyDelim(f, g)(s).value.0).None?)
  {
  }

  /** The loop of `ManyDelim::parse`. */
  method ManyDelimParse<T, U>(f: Parser<T>, g: Parser<U>, s: string) returns (r: Option<(string, seq<T>)>)
    requires Progress(f) && NoGrowth(g)
    ensures r == ManyDelim(f, g)(s)
  {
    match f(s) {
      case None =>
        return None;
      case Some((rest, x)) =>
        var res := [x];
        var i := rest;
        while true
          invariant ManyDelimLoop(f, g, i, res) == ManyDelimLoop(f, g, rest, [x])
          decreases |i|
        {
          match g(i) {
            case None =>
              return Some((i, res));
            case Some((rest1, _)) =>
              i := rest1;
              match f(i) {
                case None =>
                  return Some((i, res));
                case Some((rest2, y)) =>
                  i := rest2;
                  res := res + [y];
              }
          }
        }
    }
  }

  /** `Or` returns `f`'s result whenever `f` succeeds, and otherwise whatever `g` makes of the same input. */
  lemma OrFirstSuccess<T>(f: Parser<T>, g: Parser<T>, s: string)
    ensures f(s).Some? ==> Or(f, g)(s) == f(s)
    ensures f(s).None? ==> Or(f, g)(s) == g(s)
  {
  }

  /** The accumulator of `ManyLoop` is only ever extended at the end. */
  lemma {:induction false} ManyLoopAccumulates<T>(f: Parser<T>, i: string, res: seq<T>)
    requires Progress(f)
    decreases |i|
    ensures ManyLoop(f, i, res) == (ManyLoop(f, i, []).0, res + ManyLoop(f, i, []).1)
  {
    match f(i)
    case None =>
      assert res + [] == res;
    case Some((rest, x)) =>
      ManyLoopAccumulates(f, rest, res + [x]);
      ManyLoopAccumulates(f, rest, [x]);
      assert [] + [x] == [x];
      assert res + [x] + ManyLoop(f, rest, []).1 == res + ([x] + ManyLoop(f, rest, []).1);
  }

  /**
   * The loop of `Many` computes the textbook one-or-more repetition: the first value
   * followed by `Many` of what the first `f` left, or the first value alone when
   * `f` fails there.
   */
  lemma {:induction false} ManyUnfold<T>(f: Parser<T>, s: string)
    requires Progress(f)
    ensures Many(f)(s) ==
      match f(s)
      case None => None
      case Some((rest, x)) =>
        match Many(f)(rest)
        case None => Some((rest, [x]))
        case Some((rest2, xs)) => Some((rest2, [x] + xs))
  {
    match f(s)
    case None =>
    case Some((rest, x)) =>
      match f(rest)
      case None =>
      case Some((rest1, y)) =>
        ManyLoopAccumulates(f, rest1, [x, y]);
        ManyLoopAccumulates(f, rest1, [y]);
        assert [x] + [y] == [x, y];
        assert [x, y] + ManyLoop(f, rest1, []).1 == [x] + ([y] + ManyLoop(f, rest1, []).1);
  }

  /** The accumulator of `ManyDelimLoop` is only ever extended at the end. */
  lemma {:induction false} ManyDelimLoopAccumulates<T, U>(f: Parser<T>, g: Parser<U>, i: string, res: seq<T>)
    requires Progress(f) && NoGrowth(g)
    decreases |i|
    ensures ManyDelimLoop(f, g, i, res) ==
      (ManyDelimLoop(f, g, i, []).0, res + ManyDelimLoop(f, g, i, []).1)
  {
    match g(i)
    case None =>
      assert res + [] == res;
    case Some((rest1, _)) =>
      match f(rest1)
      case None =>
        assert res + [] == res;
      case Some((rest2, x)) =>
        ManyDelimLoopAccumulates(f, g, rest2, res + [x]);
        ManyDelimLoopAccumulates(f, g, rest2, [x]);
        assert [] + [x] == [x];
        assert res + [x] + ManyDelimLoop(f, g, rest2, []).1 == res + ([x] + ManyDelimLoop(f, g, rest2, []).1);
  }

  /**
   * `ManyDelim` in recursive form: one `f`, then either no delimiter (stop), or a
   * delimiter followed by `ManyDelim` again; when that fails the delimiter is
   * consumed anyway and the results so far are returned.
   */
  lemma {:induction false} ManyDelimUnfold<T, U>(f: Parser<T>, g: Parser<U>, s: string)
    requires Progress(f) && NoGrowth(g)
    ensures ManyDelim(f, g)(s) ==
      match f(s)
      case None => None
      case Some((rest, x)) =>
        match g(rest)
        case None => Some((rest, [x]))
        case Some((rest1, _)) =>
          match ManyDelim(f, g)(rest1)
          case None => Some((rest1, [x]))
          case Some((rest2, xs)) => Some((rest2, [x] + xs))
  {
    match f(s)
    case None =>
    case Some((rest, x)) =>
      match g(rest)
      case None =>
      case Some((rest1, _)) =>
        match f(rest1)
        case None =>
        case Some((rest2, y)) =>
          ManyDelimLoopAccumulates(f, g, rest2, [x, y]);
          ManyDelimLoopAccumulates(f, g, rest2, [y]);
          assert [x] + [y] == [x, y];
          assert [x, y] + ManyDelimLoop(f, g, rest2, []).1 == [x] + ([y] + ManyDelimLoop(f, g, rest2, []).1);
  }

  /** One step of `Many`: after an `f` that yields `x`, the result is `x` followed by `Many` of the rest. */
  lemma ManyStep<T>(f: Parser<T>, s: string, rest: string, x: T)
    requires Progress(f) && f(s) == Some((rest, x))
    ensures Many(f)(rest).None? ==> Many(f)(s) == Some((rest, [x]))
    ensures Many(f)(rest).Some? ==> Many(f)(s) == Some((Many(f)(rest).value.0, [x] + Many(f)(rest).value.1))
  {
    ManyUnfold(f, s);
  }

  /** One step of `ManyDelim` after an `f` that yields `x` and a delimiter that leaves `rest1`. */
  lemma ManyDelimStep<T, U>(f: Parser<T>, g: Parser<U>, s: string, rest: string, x: T, rest1: string)
    requires Progress(f) && NoGrowth(g) && f(s) == Some((rest, x)) && g(rest).Some? && g(rest).value.0 == rest1
    ensures ManyDelim(f, g)(rest1).None? ==> ManyDelim(f, g)(s) == Some((rest1, [x]))
    ensures ManyDelim(f, g)(rest1).Some? ==>
      ManyDelim(f, g)(s) == Some((ManyDelim(f, g)(rest1).value.0, [x] + ManyDelim(f, g)(rest1).value.1))
  {
    ManyDelimUnfold(f, g, s);
  }

  /** `ManyDelim` stops after one `f` when no delimiter follows it. */
  lemma ManyDelimLast<T, U>(f: Parser<T>, g: Parser<U>, s: string, rest: string, x: T)
    requires Progress(f) && NoGrowth(g) && f(s) == Some((rest, x)) && g(rest).None?
    ensures ManyDelim(f, g)(s) == Some((rest, [x]))
  {
  }

  /** `Map` keeps the remainder of its parser, so it keeps soundness and progress. */
  lemma MapKeeps<T, U>(f: Parser<T>, g: T -> U)
    ensures Sound(f) ==> Sound(Map(f, g))
    ensures Progress(f) ==> Progress(Map(f, g))
    ensures NoGrowth(f) ==> NoGrowth(Map(f, g))
  {
  }

  /** `And` is sound when both parts are, and makes progress when one part does and the other is sound. */
  lemma AndKeeps<T, U>(f: Parser<T>, g: Parser<U>)
    ensures Sound(f) && Sound(g) ==> Sound(And(f, g))
    ensures Progress(f) && NoGrowth(g) ==> Progress(And(f, g))
    ensures NoGrowth(f) && Progress(g) ==> Progress(And(f, g))
    ensures NoGrowth(f) && NoGrowth(g) ==> NoGrowth(And(f, g))
  {
    if Sound(f) && Sound(g) {
      forall s | And(f, g)(s).Some?
        ensures IsSuffix(And(f, g)(s).value.0, s)
      {
        var rest1 := f(s).value.0;
        SuffixTransitive(And(f, g)(s).value.0, rest1, s);
      }
    }
  }

  /** `Or` keeps whatever both alternatives have. */
  lemma OrKeeps<T>(f: Parser<T>, g: Parser<T>)
    ensures Sound(f) && Sound(g) ==> Sound(Or(f, g))
    ensures Progress(f) && Progress(g) ==> Progress(Or(f, g))
    ensures NoGrowth(f) && NoGrowth(g) ==> NoGrowth(Or(f, g))
  {
  }

  /** `Maybe` never fails, and is sound when its parser is (the failure case consumes nothing). */
  lemma MaybeKeeps<T>(f: Parser<T>, d: T)
    ensures Sound(f) ==> Sound(Maybe(f, d))
    ensures NoGrowth(f) ==> NoGrowth(Maybe(f, d))
  {
    if Sound(f) {
      forall s | Maybe(f, d)(s).Some?
        ensures IsSuffix(Maybe(f, d)(s).value.0, s)
      {
        assert s[|s| - |s|..] == s;
      }
    }
  }

  /** `Maybe` never fails. */
  lemma MaybeTotal<T>(f: Parser<T>, d: T, s: string)
    ensures Maybe(f, d)(s).Some?
    ensures f(s).None? ==> Maybe(f, d)(s) == Some((s, d))
    ensures f(s).Some? ==> Maybe(f, d)(s) == f(s)
  {
  }

  lemma {:induction false} ManyLoopSuffix<T>(f: Parser<T>, i: string, res: seq<T>)
    requires Progress(f) && Sound(f)
    decreases |i|
    ensures IsSuffix(ManyLoop(f, i, res).0, i)
  {
    match f(i)
    case None =>
      assert i[|i| - |i|..] == i;
    case Some((rest, x)) =>
      ManyLoopSuffix(f, rest, res + [x]);
      SuffixTransitive(ManyLoop(f, i, res).0, rest, i);
  }

  /** Repetition of a sound parser is sound. */
  lemma ManyKeeps<T>(f: Parser<T>)
    requires Progress(f) && Sound(f)
    ensures Sound(Many(f))
  {
    forall s | Many(f)(s).Some?
      ensures IsSuffix(Many(f)(s).value.0, s)
    {
      var rest := f(s).value.0;
      ManyLoopSuffix(f, rest, [f(s).value.1]);
      SuffixTransitive(Many(f)(s).value.0, rest, s);
    }
  }

  lemma {:induction false} ManyDelimLoopSuffix<T, U>(f: Parser<T>, g: Parser<U>, i: string, res: seq<T>)
    requires Progress(f) && NoGrowth(g) && Sound(f) && Sound(g)
    decreases |i|
    ensures IsSuffix(ManyDelimLoop(f, g, i, res).0, i)
  {
    match g(i)
    case None =>
      assert i[|i| - |i|..] == i;
    case Some((rest1, _)) =>
      match f(rest1)
      case None =>
      case Some((rest2, x)) =>
        ManyDelimLoopSuffix(f, g, rest2, res + [x]);
        SuffixTransitive(ManyDelimLoop(f, g, i, res).0, rest2, rest1);
        SuffixTransitive(ManyDelimLoop(f, g, i, res).0, rest1, i);
  }

  /** Delimited repetition of a sound parser is sound. */
  lemma ManyDelimKeeps<T, U>(f: Parser<T>, g: Parser<U>)
    requires Progress(f) && NoGrowth(g) && Sound(f) && Sound(g)
    ensures Sound(ManyDelim(f, g))
  {
    forall s | ManyDelim(f, g)(s).Some?
      ensures IsSuffix(ManyDelim(f, g)(s).value.0, s)
    {
      var rest := f(s).value.0;
      ManyDelimLoopSuffix(f, g, rest, [f(s).value.1]);
      SuffixTransitive(ManyDelim(f, g)(s).value.0, rest, s);
    }
  }

  /** `And` succeeds when `f` and then `g` do, pairing their values. */
  lemma AndStep<T, U>(f: Parser<T>, g: Parser<U>, s: string, rest1: string, x: T, rest2: string, y: U)
    requires f(s) == Some((rest1, x)) && g(rest1) == Some((rest2, y))
    ensures And(f, g)(s) == Some((rest2, (x, y)))
  {
  }

  /** `And` fails when `g` fails after `f`. */
  lemma AndSecondFails<T, U>(f: Parser<T>, g: Parser<U>, s: string, rest1: string, x: T)
    requires f(s) == Some((rest1, x)) && g(rest1).None?
    ensures And(f, g)(s).None?
  {
  }

  /** `Map` transforms the value of a success. */
  lemma MapStep<T, U>(f: Parser<T>, g: T -> U, s: string, rest: string, x: T)
    requires f(s) == Some((rest, x))
    ensures Map(f, g)(s) == Some((rest, g(x)))
  {
  }

  /** `f1` and `f2` give the same result on every input shorter than `n`. */
  ghost predicate AgreeBelow<T>(f1: Parser<T>, f2: Parser<T>, n: nat) {
    forall t :: |t| < n ==> f1(t) == f2(t)
  }

  /** The loop of `ManyDelim` only ever runs `f` on what is left of its input. */
  lemma {:induction false} ManyDelimLoopLocal<T, U>(f1: Parser<T>, f2: Parser<T>, g: Parser<U>, i: string, res: seq<T>)
    requires Progress(f1) && Progress(f2) && NoGrowth(g)
    requires AgreeBelow(f1, f2, |i| + 1)
    ensures ManyDelimLoop(f1, g, i, res) == ManyDelimLoop(f2, g, i, res)
    decreases |i|
  {
    match g(i)
    case None =>
    case Some((rest1, _)) =>
      assert f1(rest1) == f2(rest1);
      match f1(rest1)
      case None =>
      case Some((rest2, x)) =>
        ManyDelimLoopLocal(f1, f2, g, rest2, res + [x]);
  }

  /** `ManyDelim` with parsers that agree on the input and everything shorter gives the same result. */
  lemma ManyDelimLocal<T, U>(f1: Parser<T>, f2: Parser<T>, g: Parser<U>, s: string)
    requires Progress(f1) && Progress(f2) && NoGrowth(g)
    requires AgreeBelow(f1, f2, |s| + 1)
    ensures ManyDelim(f1, g)(s) == ManyDelim(f2, g)(s)
  {
    assert f1(s) == f2(s);
    match f1(s)
    case None =>
    case Some((rest, x)) =>
      ManyDelimLoopLocal(f1, f2, g, rest, [x]);
  }

  /** `And` with the same first parser and second parsers that agree where they are run. */
  lemma AndRightCongruent<T, U>(f: Parser<T>, g1: Parser<U>, g2: Parser<U>, s: string)
    requires f(s).None? || g1(f(s).value.0) == g2(f(s).value.0)
    ensures And(f, g1)(s) == And(f, g2)(s)
  {
  }

  /** `And` with first parsers that agree on the input. */
  lemma AndLeftCongruent<T, U>(f1: Parser<T>, f2: Parser<T>, g: Parser<U>, s: string)
    requires f1(s) == f2(s)
    ensures And(f1, g)(s) == And(f2, g)(s)
  {
  }

  /** `Map` over parsers that agree on the input. */
  lemma MapCongruent<T, U>(f1: Parser<T>, f2: Parser<T>, h: T -> U, s: string)
    requires f1(s) == f2(s)
    ensures Map(f1, h)(s) == Map(f2, h)(s)
  {
  }

  /** `And` fails when `f` fails. */
  lemma AndFirstFails<T, U>(f: Parser<T>, g: Parser<U>, s: string)
    requires f(s).None?
    ensures And(f, g)(s).None?
  {
  }

  /** `Map` fails when `f` fails. */
  lemma MapFails<T, U>(f: Parser<T>, h: T -> U, s: string)
    requires f(s).None?
    ensures Map(f, h)(s).None?
  {
  }

  /** A success of `And` is a success of `f` followed by a success of `g` on what `f` left. */
  lemma AndParts<T, U>(f: Parser<T>, g: Parser<U>, s: string)
    requires And(f, g)(s).Some?
    ensures f(s).Some? && g(f(s).value.0).Some?
    ensures And(f, g)(s).value == (g(f(s).value.0).value.0, (f(s).value.1, g(f(s).value.0).value.1))
  {
  }

  /** A success of `Map` is a success of `f` with its value transformed. */
  lemma MapParts<T, U>(f: Parser<T>, h: T -> U, s: string)
    requires Map(f, h)(s).Some?
    ensures f(s).Some? && Map(f, h)(s).value == (f(s).value.0, h(f(s).value.1))
  {
  }
}
