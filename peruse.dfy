/** The combinators of the `peruse` crate that the grammar of src/parser.rs and the lexer of
    src/lexer.rs are written in: `lit`, `matcher`, `then`, `then_l`, `then_r`, `or`, `map`,
    `one_of`, `opt` and `repeat`.  The crate is not part of this model; each combinator is
    given the meaning of its counterpart in src/parsers.rs, and the three that have none there
    (`then_l`/`then_r`, `opt`, `repeat`) are built from those counterparts.

    Every combinator comes twice: an apply function (`ThenL(a, b, data)`) that carries the
    contract, and a builder (`ThenLP(a, b)`) that is the parser value the grammar composes,
    as the source composes parser objects. */
module Peruse {
  import opened Results
  import SliceParsers

  // ---------------------------------------------------------------- builders

  function LitP<T(==)>(t: T): Parser<T, T> {
    (s: seq<T>) => SliceParsers.Literal(t, s)
  }

  function MatcherP<I, O>(f: I -> Option<O>): Parser<I, O> {
    (s: seq<I>) => Matcher(f, s)
  }

  function ThenP<I, A, B>(a: Parser<I, A>, b: Parser<I, B>): Parser<I, (A, B)> {
    (s: seq<I>) => SliceParsers.Dual(a, b, s)
  }

  function ThenLP<I, A, B>(a: Parser<I, A>, b: Parser<I, B>): Parser<I, A> {
    (s: seq<I>) => ThenL(a, b, s)
  }

  function ThenRP<I, A, B>(a: Parser<I, A>, b: Parser<I, B>): Parser<I, B> {
    (s: seq<I>) => ThenR(a, b, s)
  }

  function OrP<I, O>(a: Parser<I, O>, b: Parser<I, O>): Parser<I, O> {
    (s: seq<I>) => SliceParsers.Or(() => a, () => b, s)
  }

  function MapP<I, O, U>(p: Parser<I, O>, f: O -> U): Parser<I, U> {
    (s: seq<I>) => SliceParsers.Map(p, f, s)
  }

  function OneOfP<I, O>(ps: seq<Parser<I, O>>): Parser<I, O> {
    (s: seq<I>) => SliceParsers.OneOf(ps, s)
  }

  function OptP<I, O>(p: Parser<I, O>): Parser<I, Option<O>> {
    (s: seq<I>) => Opt(p, s)
  }

  function RepeatP<I, O>(p: Parser<I, O>): Parser<I, seq<O>> {
    (s: seq<I>) => Repeat(p, s)
  }

  // ---------------------------------------------------------------- semantics

  /** `matcher(f)`: the first element is consumed when `f` maps it to `Some`; this is the
      `MatchParser` of the slice engine over a matcher that fails on `None`. */
  function Matcher<I, O>(f: I -> Option<O>, data: seq<I>): (r: Result<(O, seq<I>)>)
    ensures r.Ok? <==> |data| > 0 && f(data[0]).Some?
    ensures r.Ok? ==> r.value == (f(data[0]).value, data[1..])
  {
    SliceParsers.Match((x: I) => if f(x).Some? then Ok(f(x).value) else Err("No match"), data)
  }

  /** `a.then_l(b)`: `a` and then `b` on its remainder, keeping only `a`'s output. */
  function ThenL<I, A, B>(a: Parser<I, A>, b: Parser<I, B>, data: seq<I>): (r: Result<(A, seq<I>)>)
    ensures r.Ok? <==> a(data).Ok? && b(a(data).value.1).Ok?
    ensures r.Ok? ==> r.value == (a(data).value.0, b(a(data).value.1).value.1)
    ensures a(data).Err? ==> r == Err(a(data).msg)
    ensures a(data).Ok? && b(a(data).value.1).Err? ==> r == Err(b(a(data).value.1).msg)
  {
    SliceParsers.Map(ThenP(a, b), (ab: (A, B)) => ab.0, data)
  }

  /** `a.then_r(b)`: `a` and then `b` on its remainder, keeping only `b`'s output. */
  function ThenR<I, A, B>(a: Parser<I, A>, b: Parser<I, B>, data: seq<I>): (r: Result<(B, seq<I>)>)
    ensures r.Ok? <==> a(data).Ok? && b(a(data).value.1).Ok?
    ensures r.Ok? ==> r == b(a(data).value.1)
    ensures a(data).Err? ==> r == Err(a(data).msg)
    ensures a(data).Ok? && b(a(data).value.1).Err? ==> r == Err(b(a(data).value.1).msg)
  {
    SliceParsers.Map(ThenP(a, b), (ab: (A, B)) => ab.1, data)
  }

  /** `opt(p)`: never fails; `Some` of `p`'s output when `p` succeeds, otherwise `None` and
      nothing consumed. */
  function Opt<I, O>(p: Parser<I, O>, data: seq<I>): (r: Result<(Option<O>, seq<I>)>)
    ensures r.Ok?
    ensures r.value.0.Some? <==> p(data).Ok?
    ensures p(data).Ok? ==> r.value == (Some(p(data).value.0), p(data).value.1)
    ensures p(data).Err? ==> r.value.1 == data
  {
    match p(data)
    case Ok((o, rest)) => Ok((Some(o), rest))
    case Err(_) => Ok((None, data))
  }

  /** `p.repeat()`: apply `p` as long as it succeeds and collect its outputs in order; never
      fails.  A success that consumes nothing also ends the repetition (such a `p` would
      otherwise repeat forever); every parser the grammar and the lexer repeat consumes. */
  function Repeat<I, O>(p: Parser<I, O>, data: seq<I>): (r: Result<(seq<O>, seq<I>)>)
    ensures r.Ok? && |r.value.1| <= |data|
    ensures |r.value.0| > 0 ==> |r.value.1| < |data|
    ensures p(r.value.1).Ok? ==> |p(r.value.1).value.1| >= |r.value.1|
    decreases |data|
  {
    match p(data)
    case Ok((o, rest)) =>
      if |rest| < |data| then SliceParsers.Prepend([o], Repeat(p, rest)) else Ok(([], data))
    case Err(_) => Ok(([], data))
  }

  // ---------------------------------------------------------------- Repeat

  /** A repetition that starts with a consuming success is that output followed by the
      repetition on the remainder; one that starts with a failure is empty. */
  lemma RepeatCons<I, O>(p: Parser<I, O>, data: seq<I>, o: O, rest: seq<I>, os: seq<O>, last: seq<I>)
    requires p(data) == Ok((o, rest)) && |rest| < |data|
    requires Repeat(p, rest) == Ok((os, last))
    ensures Repeat(p, data) == Ok(([o] + os, last))
  {
  }

  lemma RepeatNil<I, O>(p: Parser<I, O>, data: seq<I>)
    requires p(data).Err?
    ensures Repeat(p, data) == Ok(([], data))
  {
  }

  /** Every output of a repetition is an output of `p`, so a property of all of `p`'s outputs
      holds of each element of the list. */
  lemma {:induction false} RepeatAll<I(!new), O>(p: Parser<I, O>, good: O -> bool, data: seq<I>)
    requires forall d :: p(d).Ok? ==> good(p(d).value.0)
    ensures forall i :: 0 <= i < |Repeat(p, data).value.0| ==> good(Repeat(p, data).value.0[i])
    decreases |data|
  {
    match p(data)
    case Ok((o, rest)) =>
      if |rest| < |data| {
        RepeatAll(p, good, rest);
      }
    case Err(_) =>
  }

  /** The repetition only looks at inputs no longer than its own, so two parsers that agree on
      those give the same repetition. */
  lemma {:induction false} RepeatAgree<I(!new), O>(p: Parser<I, O>, q: Parser<I, O>, n: nat, data: seq<I>)
    requires forall d :: |d| <= n ==> p(d) == q(d)
    requires |data| <= n
    ensures Repeat(p, data) == Repeat(q, data)
    decreases |data|
  {
    assert p(data) == q(data);
    match p(data)
    case Ok((o, rest)) =>
      if |rest| < |data| {
        RepeatAgree(p, q, n, rest);
      }
    case Err(_) =>
  }

  // ---------------------------------------------------------------- consumption

  lemma ProgressingNonGrowing<I(!new), O>(p: Parser<I, O>)
    requires Progressing(p)
    ensures NonGrowing(p)
  {
  }

  lemma LitConsumes<T(!new)>(t: T)
    ensures Progressing(LitP(t))
  {
    forall d | LitP(t)(d).Ok? ensures |LitP(t)(d).value.1| < |d| {
      assert LitP(t)(d) == SliceParsers.Literal(t, d);
    }
  }

  lemma MatcherConsumes<I(!new), O>(f: I -> Option<O>)
    ensures Progressing(MatcherP(f))
  {
    forall d | MatcherP(f)(d).Ok? ensures |MatcherP(f)(d).value.1| < |d| {
      assert MatcherP(f)(d) == Matcher(f, d);
    }
  }

  /** A sequence consumes when either part consumes and the other does not grow the input. */
  lemma ThenConsumes<I(!new), A, B>(a: Parser<I, A>, b: Parser<I, B>)
    requires (Progressing(a) && NonGrowing(b)) || (NonGrowing(a) && Progressing(b))
    ensures Progressing(ThenP(a, b)) && Progressing(ThenLP(a, b)) && Progressing(ThenRP(a, b))
  {
    forall d | ThenP(a, b)(d).Ok? ensures |ThenP(a, b)(d).value.1| < |d| {
      assert ThenP(a, b)(d) == SliceParsers.Dual(a, b, d);
    }
    forall d | ThenLP(a, b)(d).Ok? ensures |ThenLP(a, b)(d).value.1| < |d| {
      assert ThenLP(a, b)(d) == ThenL(a, b, d);
    }
    forall d | ThenRP(a, b)(d).Ok? ensures |ThenRP(a, b)(d).value.1| < |d| {
      assert ThenRP(a, b)(d) == ThenR(a, b, d);
    }
  }

  lemma OrConsumes<I(!new), O>(a: Parser<I, O>, b: Parser<I, O>)
    requires Progressing(a) && Progressing(b)
    ensures Progressing(OrP(a, b))
  {
    forall d | OrP(a, b)(d).Ok? ensures |OrP(a, b)(d).value.1| < |d| {
      assert OrP(a, b)(d) == SliceParsers.Or(() => a, () => b, d);
    }
  }

  lemma MapConsumes<I(!new), O, U>(p: Parser<I, O>, f: O -> U)
    requires Progressing(p)
    ensures Progressing(MapP(p, f))
  {
    forall d | MapP(p, f)(d).Ok? ensures |MapP(p, f)(d).value.1| < |d| {
      assert MapP(p, f)(d) == SliceParsers.Map(p, f, d);
    }
  }

  /** Alternatives and mapping do not grow the input when their parts do not. */
  lemma OrNonGrowing<I(!new), O>(a: Parser<I, O>, b: Parser<I, O>)
    requires NonGrowing(a) && NonGrowing(b)
    ensures NonGrowing(OrP(a, b))
  {
    forall d | OrP(a, b)(d).Ok? ensures |OrP(a, b)(d).value.1| <= |d| {
      assert OrP(a, b)(d) == SliceParsers.Or(() => a, () => b, d);
    }
  }

  lemma MapNonGrowing<I(!new), O, U>(p: Parser<I, O>, f: O -> U)
    requires NonGrowing(p)
    ensures NonGrowing(MapP(p, f))
  {
    forall d | MapP(p, f)(d).Ok? ensures |MapP(p, f)(d).value.1| <= |d| {
      assert MapP(p, f)(d) == SliceParsers.Map(p, f, d);
    }
  }

  /** `one_of` over parsers that all consume consumes. */
  lemma {:induction false} OneOfConsumes<I(!new), O>(ps: seq<Parser<I, O>>)
    requires forall i :: 0 <= i < |ps| ==> Progressing(ps[i])
    ensures Progressing(OneOfP(ps))
  {
    forall d | OneOfP(ps)(d).Ok? ensures |OneOfP(ps)(d).value.1| < |d| {
      assert OneOfP(ps)(d) == SliceParsers.OneOf(ps, d);
      SliceParsers.OneOfFirstSuccess(ps, d);
    }
  }

  /** `repeat` never hands back more input than it was given, and `opt` does not when its
      parser does not. */
  lemma RepeatOptNonGrowing<I(!new), O>(p: Parser<I, O>)
    ensures NonGrowing(RepeatP(p))
    ensures NonGrowing(p) ==> NonGrowing(OptP(p))
  {
    forall d | RepeatP(p)(d).Ok? ensures |RepeatP(p)(d).value.1| <= |d| {
      assert RepeatP(p)(d) == Repeat(p, d);
    }
    if NonGrowing(p) {
      forall d | OptP(p)(d).Ok? ensures |OptP(p)(d).value.1| <= |d| {
        assert OptP(p)(d) == Opt(p, d);
      }
    }
  }

  // ---------------------------------------------------------------- congruence

  /** The combinators look at their parts only where they run them: parts that give the same
      results there give the same combined result. */
  lemma ThenAt<I, A, B>(a: Parser<I, A>, a': Parser<I, A>, b: Parser<I, B>, b': Parser<I, B>, s: seq<I>)
    requires a(s) == a'(s)
    requires a(s).Ok? ==> b(a(s).value.1) == b'(a(s).value.1)
    ensures ThenP(a, b)(s) == ThenP(a', b')(s)
    ensures ThenLP(a, b)(s) == ThenLP(a', b')(s)
    ensures ThenRP(a, b)(s) == ThenRP(a', b')(s)
  {
  }

  lemma OrAt<I, O>(a: Parser<I, O>, a': Parser<I, O>, b: Parser<I, O>, b': Parser<I, O>, s: seq<I>)
    requires a(s) == a'(s) && b(s) == b'(s)
    ensures OrP(a, b)(s) == OrP(a', b')(s)
  {
  }

  lemma MapAt<I, O, U>(p: Parser<I, O>, p': Parser<I, O>, f: O -> U, s: seq<I>)
    requires p(s) == p'(s)
    ensures MapP(p, f)(s) == MapP(p', f)(s)
  {
  }

  lemma OptAt<I, O>(p: Parser<I, O>, p': Parser<I, O>, s: seq<I>)
    requires p(s) == p'(s)
    ensures OptP(p)(s) == OptP(p')(s)
  {
  }

  lemma {:induction false} OneOfAt<I, O>(ps: seq<Parser<I, O>>, qs: seq<Parser<I, O>>, s: seq<I>)
    requires |ps| == |qs|
    requires forall i :: 0 <= i < |ps| ==> ps[i](s) == qs[i](s)
    ensures OneOfP(ps)(s) == OneOfP(qs)(s)
    decreases |ps|
  {
    if |ps| > 0 {
      OneOfAt(ps[1..], qs[1..], s);
      assert OneOfP(ps[1..])(s) == SliceParsers.OneOf(ps[1..], s);
      assert OneOfP(qs[1..])(s) == SliceParsers.OneOf(qs[1..], s);
    }
  }

  /** `one_of` looks at its input only through its alternatives: on two inputs where every
      alternative gives the same result, it gives the same result. */
  lemma {:induction false} OneOfOn<I, O>(ps: seq<Parser<I, O>>, s: seq<I>, s': seq<I>)
    requires forall i :: 0 <= i < |ps| ==> ps[i](s) == ps[i](s')
    ensures OneOfP(ps)(s) == OneOfP(ps)(s')
    decreases |ps|
  {
    if |ps| > 0 {
      OneOfOn(ps[1..], s, s');
      assert OneOfP(ps[1..])(s) == SliceParsers.OneOf(ps[1..], s);
      assert OneOfP(ps[1..])(s') == SliceParsers.OneOf(ps[1..], s');
    }
  }
}
