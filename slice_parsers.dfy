/** The slice parser-combinator engine of src/parsers.rs.  Each combinator is an
    "apply" function: the parsers it combines and the input it runs on are its
    arguments.  The three combinators that the source writes as loops
    (`RepParser`, `RepSepParser`, `OneOfParser`) are also methods with those
    loops, proved equal to their specification functions. */
module SliceParsers {
  import opened Results

  // ---------------------------------------------------------------- LiteralParser

  /** `LiteralParser`: accept exactly `lit` as the first element. */
  function Literal<T(==)>(lit: T, data: seq<T>): (r: Result<(T, seq<T>)>)
    ensures r.Ok? <==> |data| > 0 && data[0] == lit
    ensures r.Ok? ==> r.value.0 == lit && data == [lit] + r.value.1
    ensures r.Err? ==> r.msg == if |data| == 0 then "ran out of data" else "Literal mismatch"
  {
    if |data| < 1 then Err("ran out of data")
    else if data[0] == lit then Ok((data[0], data[1..]))
    else Err("Literal mismatch")
  }

  // ---------------------------------------------------------------- MatchParser

  /** `MatchParser`: the matcher decides about the first element, which is consumed on success. */
  function Match<I, O>(matcher: I -> Result<O>, data: seq<I>): (r: Result<(O, seq<I>)>)
    ensures |data| == 0 ==> r == Err("Unexpected End!")
    ensures |data| > 0 ==> (r.Ok? <==> matcher(data[0]).Ok?)
    ensures |data| > 0 && r.Ok? ==> r.value == (matcher(data[0]).value, data[1..])
    ensures |data| > 0 && r.Err? ==> r.msg == matcher(data[0]).msg
  {
    if |data| < 1 then Err("Unexpected End!")
    else match matcher(data[0])
      case Ok(res) => Ok((res, data[1..]))
      case Err(e) => Err(e)
  }

  // ---------------------------------------------------------------- RepParser

  /** Put `v` in front of the output list of a successful result. */
  function Prepend<I, O>(v: seq<O>, r: Result<(seq<O>, seq<I>)>): (p: Result<(seq<O>, seq<I>)>)
    ensures p.Ok? <==> r.Ok?
    ensures p.Ok? ==> p.value == (v + r.value.0, r.value.1)
    ensures p.Err? ==> p.msg == r.msg
  {
    match r
    case Ok((vs, rest)) => Ok((v + vs, rest))
    case Err(e) => Err(e)
  }

  lemma PrependNil<I, O>(r: Result<(seq<O>, seq<I>)>)
    ensures Prepend([], r) == r
  {
    if r.Ok? {
      assert [] + r.value.0 == r.value.0;
    }
  }

  lemma PrependTwice<I, O>(v: seq<O>, w: seq<O>, r: Result<(seq<O>, seq<I>)>)
    ensures Prepend(v, Prepend(w, r)) == Prepend(v + w, r)
  {
    if r.Ok? {
      assert v + (w + r.value.0) == v + w + r.value.0;
    }
  }

  /** `count` more repetitions of `p`, the first of them numbered `k` in an error message. */
  function RepFrom<I, O>(p: Parser<I, O>, k: nat, count: nat, data: seq<I>): Result<(seq<O>, seq<I>)>
    decreases count
  {
    if count == 0 then Ok(([], data))
    else match p(data)
      case Err(e) => Err("Error on rep #" + NatToString(k) + ": " + e)
      case Ok((o, rest)) => Prepend([o], RepFrom(p, k + 1, count - 1, rest))
  }

  /** What `RepParser{reps, parser: p}` computes on `data`. */
  function Rep<I, O>(p: Parser<I, O>, reps: nat, data: seq<I>): Result<(seq<O>, seq<I>)> {
    RepFrom(p, 0, reps, data)
  }

  /** The loop of `RepParser::parse`. */
  method RepParse<I, O>(p: Parser<I, O>, reps: nat, data: seq<I>) returns (r: Result<(seq<O>, seq<I>)>)
    ensures r == Rep(p, reps, data)
  {
    var remain := data;
    var v: seq<O> := [];
    PrependNil(Rep(p, reps, data));
    for i := 0 to reps
      invariant Rep(p, reps, data) == Prepend(v, RepFrom(p, i, reps - i, remain))
    {
      match p(remain) {
        case Ok((result, rest)) =>
          PrependTwice(v, [result], RepFrom(p, i + 1, reps - i - 1, rest));
          v := v + [result];
          remain := rest;
        case Err(err) =>
          return Err("Error on rep #" + NatToString(i) + ": " + err);
      }
    }
    assert v + [] == v;
    r := Ok((v, remain));
  }

  /** The success of the repetitions does not depend on how they are numbered. */
  lemma {:induction false} RepFromRenumber<I, O>(p: Parser<I, O>, j: nat, k: nat, n: nat, data: seq<I>)
    ensures RepFrom(p, j, n, data).Ok? <==> RepFrom(p, k, n, data).Ok?
    ensures RepFrom(p, j, n, data).Ok? ==> RepFrom(p, j, n, data) == RepFrom(p, k, n, data)
    decreases n
  {
    if n > 0 && p(data).Ok? {
      RepFromRenumber(p, j + 1, k + 1, n - 1, p(data).value.1);
    }
  }

  /** A successful `RepParser` yields exactly `reps` outputs. */
  lemma {:induction false} RepLength<I, O>(p: Parser<I, O>, k: nat, reps: nat, data: seq<I>)
    ensures RepFrom(p, k, reps, data).Ok? ==> |RepFrom(p, k, reps, data).value.0| == reps
    decreases reps
  {
    if reps > 0 && p(data).Ok? {
      RepLength(p, k + 1, reps - 1, p(data).value.1);
    }
  }

  /** `m + n` repetitions succeed exactly when `m` do and then `n` more do on the rest;
      the outputs are concatenated and the remainder is that of the last repetition. */
  lemma {:induction false} RepSplit<I, O>(p: Parser<I, O>, m: nat, n: nat, data: seq<I>)
    ensures var first := Rep(p, m, data);
            Rep(p, m + n, data).Ok? <==> first.Ok? && Rep(p, n, first.value.1).Ok?
    ensures var first := Rep(p, m, data);
            Rep(p, m + n, data).Ok? ==>
              Rep(p, m + n, data).value ==
                (first.value.0 + Rep(p, n, first.value.1).value.0, Rep(p, n, first.value.1).value.1)
    decreases m
  {
    if m > 0 && p(data).Ok? {
      var rest := p(data).value.1;
      RepSplit(p, m - 1, n, rest);
      RepFromRenumber(p, 1, 0, m - 1 + n, rest);
      RepFromRenumber(p, 1, 0, m - 1, rest);
      var fm := Rep(p, m - 1, rest);
      if fm.Ok? && Rep(p, n, fm.value.1).Ok? {
        var o := p(data).value.0;
        var tail := Rep(p, n, fm.value.1).value.0;
        assert Rep(p, m, data) == Prepend([o], fm);
        assert Rep(p, m + n, data) == Prepend([o], Rep(p, m - 1 + n, rest));
        assert Rep(p, m - 1 + n, rest).value == (fm.value.0 + tail, Rep(p, n, fm.value.1).value.1);
        assert [o] + fm.value.0 + tail == [o] + (fm.value.0 + tail);
      }
    } else if m == 0 && Rep(p, n, data).Ok? {
      assert [] + Rep(p, n, data).value.0 == Rep(p, n, data).value.0;
    }
  }

  /** A failing `RepParser` failed at some repetition `i < reps`: the first `i` repetitions
      succeeded and the message names repetition `i` and carries the inner parser's error. */
  lemma {:induction false} RepError<I, O>(p: Parser<I, O>, k: nat, reps: nat, data: seq<I>)
    ensures RepFrom(p, k, reps, data).Err? ==>
      exists i :: 0 <= i < reps && RepFrom(p, k, i, data).Ok? &&
        var mid := RepFrom(p, k, i, data).value.1;
        p(mid).Err? && RepFrom(p, k, reps, data).msg == "Error on rep #" + NatToString(k + i) + ": " + p(mid).msg
    decreases reps
  {
    if reps > 0 && RepFrom(p, k, reps, data).Err? {
      if p(data).Err? {
        assert RepFrom(p, k, 0, data) == Ok(([], data));
      } else {
        var rest := p(data).value.1;
        RepError(p, k + 1, reps - 1, rest);
        var i :| 0 <= i < reps - 1 && RepFrom(p, k + 1, i, rest).Ok? &&
          var mid := RepFrom(p, k + 1, i, rest).value.1;
          p(mid).Err? && RepFrom(p, k + 1, reps - 1, rest).msg == "Error on rep #" + NatToString(k + 1 + i) + ": " + p(mid).msg;
        assert RepFrom(p, k, i + 1, data) == Prepend([p(data).value.0], RepFrom(p, k + 1, i, rest));
      }
    }
  }

  // ---------------------------------------------------------------- RepSepParser

  /** The loop of `RepSepParser` without its final count check: parse `rep`, and keep going
      while `sep` succeeds after it.  The remainder is the one after the last `rep`. */
  function Chain<I(!new), O, U>(rep: Parser<I, O>, sep: Parser<I, U>, data: seq<I>): Result<(seq<O>, seq<I>)>
    requires Progressing(rep) && NonGrowing(sep)
    decreases |data|
  {
    match rep(data)
    case Err(e) => Err(e)
    case Ok((result, rest)) =>
      match sep(rest)
      case Err(_) => Ok(([result], rest))
      case Ok((_, rest2)) => Prepend([result], Chain(rep, sep, rest2))
  }

  /** What `RepSepParser{rep, sep, min_reps}` computes on `data`. */
  function RepSep<I(!new), O, U>(rep: Parser<I, O>, sep: Parser<I, U>, minReps: nat, data: seq<I>): Result<(seq<O>, seq<I>)>
    requires Progressing(rep) && NonGrowing(sep)
  {
    match Chain(rep, sep, data)
    case Err(e) => Err("Error on rep: " + e)
    case Ok((v, rest)) =>
      if |v| < minReps then Err("Not enough reps: required " + NatToString(minReps) + ", got " + NatToString(|v|))
      else Ok((v, rest))
  }

  /** The loop of `RepSepParser::parse`. */
  method RepSepParse<I(!new), O, U>(rep: Parser<I, O>, sep: Parser<I, U>, minReps: nat, data: seq<I>)
    returns (r: Result<(seq<O>, seq<I>)>)
    requires Progressing(rep) && NonGrowing(sep)
    ensures r == RepSep(rep, sep, minReps, data)
  {
    var remain := data;
    var v: seq<O> := [];
    PrependNil(Chain(rep, sep, data));
    while true
      invariant Chain(rep, sep, data) == Prepend(v, Chain(rep, sep, remain))
      decreases |remain|
    {
      match rep(remain) {
        case Ok((result, rest)) =>
          ghost var before := v;
          v := v + [result];
          match sep(rest) {
            case Ok((_, rest2)) =>
              PrependTwice(before, [result], Chain(rep, sep, rest2));
              remain := rest2;
            case Err(_) =>
              if |v| < minReps {
                return Err("Not enough reps: required " + NatToString(minReps) + ", got " + NatToString(|v|));
              } else {
                return Ok((v, rest));
              }
          }
        case Err(err) =>
          return Err("Error on rep: " + err);
      }
    }
  }

  /** The chain always holds at least one element, it stopped because `sep` failed on its
      remainder, and that remainder is what the last `rep` left. */
  lemma {:induction false} ChainStops<I(!new), O, U>(rep: Parser<I, O>, sep: Parser<I, U>, data: seq<I>)
    requires Progressing(rep) && NonGrowing(sep)
    ensures var c := Chain(rep, sep, data);
      c.Ok? ==> (|c.value.0| >= 1 && sep(c.value.1).Err? &&
                 exists d :: rep(d) == Ok((c.value.0[|c.value.0| - 1], c.value.1)))
    decreases |data|
  {
    var c := Chain(rep, sep, data);
    if c.Ok? {
      var result, rest := rep(data).value.0, rep(data).value.1;
      if sep(rest).Ok? {
        var rest2 := sep(rest).value.1;
        ChainStops(rep, sep, rest2);
        var c2 := Chain(rep, sep, rest2);
        assert c.value.0 == [result] + c2.value.0;
        assert c.value.0[|c.value.0| - 1] == c2.value.0[|c2.value.0| - 1];
      } else {
        assert rep(data) == Ok((c.value.0[0], c.value.1));
      }
    }
  }

  /** `RepSepParser` succeeds iff the chain does and collected at least `min_reps` elements;
      otherwise the message says how many were required and how many were found. */
  lemma RepSepOutcome<I(!new), O, U>(rep: Parser<I, O>, sep: Parser<I, U>, minReps: nat, data: seq<I>)
    requires Progressing(rep) && NonGrowing(sep)
    ensures var c := Chain(rep, sep, data);
      RepSep(rep, sep, minReps, data).Ok? <==> c.Ok? && |c.value.0| >= minReps
    ensures var c := Chain(rep, sep, data);
      RepSep(rep, sep, minReps, data).Ok? ==> RepSep(rep, sep, minReps, data) == c
    ensures var c := Chain(rep, sep, data);
      c.Ok? && |c.value.0| < minReps ==>
        RepSep(rep, sep, minReps, data).msg ==
          "Not enough reps: required " + NatToString(minReps) + ", got " + NatToString(|c.value.0|)
  {
  }

  /** At least one `rep` is needed whatever `min_reps` is: a first `rep` failure fails. */
  lemma RepSepNeedsOne<I(!new), O, U>(rep: Parser<I, O>, sep: Parser<I, U>, minReps: nat, data: seq<I>)
    requires Progressing(rep) && NonGrowing(sep)
    requires rep(data).Err?
    ensures RepSep(rep, sep, minReps, data) == Err("Error on rep: " + rep(data).msg)
  {
  }

  /** No backtracking: once a separator has been accepted, a failing `rep` after it fails the
      whole parser, even if the elements before the separator would have been enough. */
  lemma {:induction false} RepSepNoBacktrack<I(!new), O, U>(rep: Parser<I, O>, sep: Parser<I, U>, minReps: nat, data: seq<I>)
    requires Progressing(rep) && NonGrowing(sep)
    requires rep(data).Ok? && sep(rep(data).value.1).Ok?
    requires rep(sep(rep(data).value.1).value.1).Err?
    ensures RepSep(rep, sep, minReps, data).Err?
    ensures RepSep(rep, sep, minReps, data).msg == "Error on rep: " + rep(sep(rep(data).value.1).value.1).msg
  {
    var rest2 := sep(rep(data).value.1).value.1;
    assert Chain(rep, sep, rest2) == Err(rep(rest2).msg);
  }

  /** A successful chain consumed at least one element. */
  lemma {:induction false} ChainProgress<I(!new), O, U>(rep: Parser<I, O>, sep: Parser<I, U>, data: seq<I>)
    requires Progressing(rep) && NonGrowing(sep)
    ensures Chain(rep, sep, data).Ok? ==> |Chain(rep, sep, data).value.1| < |data|
    decreases |data|
  {
    if rep(data).Ok? && sep(rep(data).value.1).Ok? {
      ChainProgress(rep, sep, sep(rep(data).value.1).value.1);
    }
  }

  // ---------------------------------------------------------------- DualParser

  /** `DualParser`: `first`, then `second` on what `first` left. */
  function Dual<I, A, B>(first: Parser<I, A>, second: Parser<I, B>, data: seq<I>): (r: Result<((A, B), seq<I>)>)
    ensures r.Ok? <==> first(data).Ok? && second(first(data).value.1).Ok?
    ensures r.Ok? ==> r.value == ((first(data).value.0, second(first(data).value.1).value.0),
                                  second(first(data).value.1).value.1)
    ensures first(data).Err? ==> r == Err(first(data).msg)
    ensures first(data).Ok? && second(first(data).value.1).Err? ==> r == Err(second(first(data).value.1).msg)
  {
    match first(data)
    case Ok((a, d2)) =>
      (match second(d2)
       case Ok((b, remain)) => Ok(((a, b), remain))
       case Err(err) => Err(err))
    case Err(err) => Err(err)
  }

  // ---------------------------------------------------------------- OrParser

  /** `OrParser`: the alternatives are built only when tried; `b` is built and run on the
      original input only when `a` failed, and its error is the one reported. */
  function Or<I, O>(a: () -> Parser<I, O>, b: () -> Parser<I, O>, data: seq<I>): (r: Result<(O, seq<I>)>)
    ensures a()(data).Ok? ==> r == a()(data)
    ensures a()(data).Err? ==> r == b()(data)
    ensures r.Ok? <==> a()(data).Ok? || b()(data).Ok?
  {
    match a()(data)
    case Ok((x, d2)) => Ok((x, d2))
    case Err(_) =>
      match b()(data)
      case Ok((y, remain)) => Ok((y, remain))
      case Err(err) => Err(err)
  }

  // ---------------------------------------------------------------- OneOfParser

  /** What `OneOfParser{parsers}` computes on `data`. */
  function OneOf<I, O>(parsers: seq<Parser<I, O>>, data: seq<I>): Result<(O, seq<I>)>
    decreases |parsers|
  {
    if |parsers| == 0 then Err("All options failed")
    else if parsers[0](data).Ok? then parsers[0](data)
    else OneOf(parsers[1..], data)
  }

  /** The loop of `OneOfParser::parse`. */
  method OneOfParse<I, O>(parsers: seq<Parser<I, O>>, data: seq<I>) returns (r: Result<(O, seq<I>)>)
    ensures r == OneOf(parsers, data)
  {
    for i := 0 to |parsers|
      invariant OneOf(parsers, data) == OneOf(parsers[i..], data)
    {
      var res := parsers[i](data);
      assert parsers[i..][1..] == parsers[i + 1..];
      if res.Ok? {
        return res;
      }
    }
    r := Err("All options failed");
  }

  /** `OneOfParser` returns the result of the first parser, in list order, that succeeds on
      the input; it fails with "All options failed" exactly when none does (or there are none). */
  lemma {:induction false} OneOfFirstSuccess<I, O>(parsers: seq<Parser<I, O>>, data: seq<I>)
    ensures OneOf(parsers, data).Ok? <==> exists i :: 0 <= i < |parsers| && parsers[i](data).Ok?
    ensures OneOf(parsers, data).Ok? ==>
      exists i :: 0 <= i < |parsers| && OneOf(parsers, data) == parsers[i](data) &&
        forall j :: 0 <= j < i ==> parsers[j](data).Err?
    ensures OneOf(parsers, data).Err? ==> OneOf(parsers, data) == Err("All options failed")
    decreases |parsers|
  {
    if |parsers| > 0 && parsers[0](data).Err? {
      var tail := parsers[1..];
      OneOfFirstSuccess(tail, data);
      if OneOf(tail, data).Ok? {
        var i :| 0 <= i < |tail| && OneOf(tail, data) == tail[i](data) &&
          forall j :: 0 <= j < i ==> tail[j](data).Err?;
        assert parsers[i + 1] == tail[i];
        assert forall j :: 0 <= j < i + 1 ==> parsers[j](data).Err? by {
          forall j | 0 <= j < i + 1 ensures parsers[j](data).Err? {
            if j > 0 { assert parsers[j] == tail[j - 1]; }
          }
        }
      } else {
        forall i | 0 <= i < |parsers| ensures parsers[i](data).Err? {
          if i > 0 { assert parsers[i] == tail[i - 1]; }
        }
      }
    }
  }

  /** Conversely, when the parser at `i` is the first to succeed, its result is the result. */
  lemma {:induction false} OneOfPick<I, O>(parsers: seq<Parser<I, O>>, i: nat, data: seq<I>)
    requires i < |parsers| && parsers[i](data).Ok?
    requires forall j :: 0 <= j < i ==> parsers[j](data).Err?
    ensures OneOf(parsers, data) == parsers[i](data)
    decreases i
  {
    if i > 0 {
      var tail := parsers[1..];
      assert parsers[0](data).Err?;
      forall j | 0 <= j < i - 1 ensures tail[j](data).Err? {
        assert tail[j] == parsers[j + 1];
      }
      OneOfPick(tail, i - 1, data);
    }
  }

  // ---------------------------------------------------------------- MapParser

  /** `MapParser`: only the output changes; the remainder and the errors are those of `parser`. */
  function Map<I, O, U>(parser: Parser<I, O>, mapper: O -> U, data: seq<I>): (r: Result<(U, seq<I>)>)
    ensures r.Ok? <==> parser(data).Ok?
    ensures r.Ok? ==> r.value == (mapper(parser(data).value.0), parser(data).value.1)
    ensures r.Err? ==> r.msg == parser(data).msg
  {
    match parser(data)
    case Ok((output, input)) => Ok((mapper(output), input))
    case Err(e) => Err(e)
  }

  // ---------------------------------------------------------------- preserved invariants

  /** Literal and Match parsers consume exactly one element when they succeed. */
  lemma LiteralProgress<T(!new)>(lit: T)
    ensures Progressing((d: seq<T>) => Literal(lit, d))
  {
  }

  lemma MatchProgress<I(!new), O>(matcher: I -> Result<O>)
    ensures Progressing((d: seq<I>) => Match(matcher, d))
  {
  }

  /** Sequencing, alternatives and mapping keep the progress guarantee of their parts. */
  lemma DualProgress<I(!new), A, B>(first: Parser<I, A>, second: Parser<I, B>)
    requires Progressing(first) && NonGrowing(second)
    ensures Progressing((d: seq<I>) => Dual(first, second, d))
  {
  }

  lemma OrProgress<I(!new), O>(a: Parser<I, O>, b: Parser<I, O>)
    requires Progressing(a) && Progressing(b)
    ensures Progressing((d: seq<I>) => Or(() => a, () => b, d))
  {
  }

  lemma MapProgress<I(!new), O, U>(parser: Parser<I, O>, mapper: O -> U)
    requires Progressing(parser)
    ensures Progressing((d: seq<I>) => Map(parser, mapper, d))
  {
  }

  /** A `RepSepParser` over a progressing `rep` is itself progressing. */
  lemma RepSepProgress<I(!new), O, U>(rep: Parser<I, O>, sep: Parser<I, U>, minReps: nat)
    requires Progressing(rep) && NonGrowing(sep)
    ensures Progressing((d: seq<I>) => RepSep(rep, sep, minReps, d))
  {
    forall d | RepSep(rep, sep, minReps, d).Ok?
      ensures |RepSep(rep, sep, minReps, d).value.1| < |d|
    {
      ChainProgress(rep, sep, d);
    }
  }
}
