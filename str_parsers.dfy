/** The string-based prototype engine of src/lib.rs.  Its parsers read a `&str`,
    here a `string` (ASCII, so one byte is one character).  Besides the shape of
    their results, each combinator is related to its counterpart in the slice
    engine of src/parsers.rs. */
module StrParsers {
  import opened Results
  import SliceParsers

  /** `Or<A, B>`: which alternative of an `OrParser` matched. */
  datatype Or<A, B> = OrA(a: A) | OrB(b: B)

  /** `CharParser{the_char: c}` on `data`. */
  function Char(c: char, data: string): (r: Result<(char, string)>)
    ensures r.Ok? <==> |data| > 0 && data[0] == c
    ensures r.Ok? ==> r.value == (c, data[1..])
    ensures r.Err? ==> r.msg == if |data| == 0 then "No data left" else "Expected " + [c] + ", got " + [data[0]]
  {
    if |data| > 0 then
      if data[0] == c then Ok((c, data[1..]))
      else Err("Expected " + [c] + ", got " + [data[0]])
    else Err("No data left")
  }

  /** `CharParser` accepts exactly what the slice engine's `LiteralParser` accepts, with the same
      output and remainder; only the error messages differ. */
  lemma CharIsLiteral(c: char, data: string)
    ensures Char(c, data).Ok? <==> SliceParsers.Literal(c, data).Ok?
    ensures Char(c, data).Ok? ==> Char(c, data) == SliceParsers.Literal(c, data)
  {
  }

  /** The loop of `RepParser::parse` on strings; it is the same computation as the slice one. */
  method RepParse<T>(p: Parser<char, T>, reps: nat, data: string) returns (r: Result<(seq<T>, string)>)
    ensures r == SliceParsers.Rep(p, reps, data)
  {
    var v: seq<T> := [];
    var remain := data;
    SliceParsers.PrependNil(SliceParsers.Rep(p, reps, data));
    for i := 0 to reps
      invariant SliceParsers.Rep(p, reps, data) == SliceParsers.Prepend(v, SliceParsers.RepFrom(p, i, reps - i, remain))
    {
      match p(remain) {
        case Ok((result, rest)) =>
          SliceParsers.PrependTwice(v, [result], SliceParsers.RepFrom(p, i + 1, reps - i - 1, rest));
          v := v + [result];
          remain := rest;
        case Err(err) =>
          return Err("Error on rep #" + NatToString(i) + ": " + err);
      }
    }
    assert v + [] == v;
    r := Ok((v, remain));
  }

  /** `DualParser` (`a.and_then(&b)`) on strings. */
  function AndThen<A, B>(first: Parser<char, A>, second: Parser<char, B>, data: string): (r: Result<((A, B), string)>)
    ensures r == SliceParsers.Dual(first, second, data)
  {
    match first(data)
    case Ok((a, d2)) =>
      (match second(d2)
       case Ok((b, remain)) => Ok(((a, b), remain))
       case Err(err) => Err(err))
    case Err(err) => Err(err)
  }

  /** `OrParser` (`a.or(&b)`) on strings: the slice engine's `OrParser` over the two parsers with
      their outputs tagged `OrA` and `OrB`. */
  function OrElse<A, B>(a: Parser<char, A>, b: Parser<char, B>, data: string): (r: Result<(Or<A, B>, string)>)
    ensures r == SliceParsers.Or(() => (d: string) => SliceParsers.Map(a, (x: A) => OrA(x), d),
                                 () => (d: string) => SliceParsers.Map(b, (y: B) => OrB(y), d), data)
    ensures a(data).Ok? ==> r == Ok((OrA(a(data).value.0), a(data).value.1))
    ensures a(data).Err? && b(data).Ok? ==> r == Ok((OrB(b(data).value.0), b(data).value.1))
    ensures a(data).Err? && b(data).Err? ==> r == Err(b(data).msg)
  {
    match a(data)
    case Ok((x, d2)) => Ok((OrA(x), d2))
    case Err(_) =>
      match b(data)
      case Ok((y, remain)) => Ok((OrB(y), remain))
      case Err(err) => Err(err)
  }

  // The unit tests of src/lib.rs, as facts about the model.

  /** `test_char`: 'v' on "vbx" gives 'v' and leaves "bx". */
  lemma TestChar()
    ensures Char('v', "vbx") == Ok(('v', "bx"))
  {
  }

  /** `test_rep`: three 'v's out of "vvvx", leaving "x". */
  lemma TestRep()
    ensures SliceParsers.Rep((d: string) => Char('v', d), 3, "vvvx") == Ok((['v', 'v', 'v'], "x"))
  {
    var p := (d: string) => Char('v', d);
    assert "vvvx"[1..] == "vvx" && "vvx"[1..] == "vx" && "vx"[1..] == "x";
    assert p("vx") == Ok(('v', "x")) && p("vvx") == Ok(('v', "vx")) && p("vvvx") == Ok(('v', "vvx"));
    var r3 := SliceParsers.RepFrom(p, 3, 0, "x");
    assert r3 == Ok(([], "x"));
    var r2 := SliceParsers.RepFrom(p, 2, 1, "vx");
    assert r2 == SliceParsers.Prepend(['v'], r3);
    assert ['v'] + [] == ['v'] && ['v'] + ['v'] == ['v', 'v'] && ['v'] + ['v', 'v'] == ['v', 'v', 'v'];
    assert r2 == Ok((['v'], "x"));
    var r1 := SliceParsers.RepFrom(p, 1, 2, "vvx");
    assert r1 == SliceParsers.Prepend(['v'], r2);
    assert r1 == Ok((['v', 'v'], "x"));
    var r0 := SliceParsers.RepFrom(p, 0, 3, "vvvx");
    assert r0 == SliceParsers.Prepend(['v'], r1);
  }

  /** `test_and_then`: 'a' then 'b' on "abvx" gives ('a', 'b') and leaves two characters. */
  lemma TestAndThen()
    ensures AndThen((d: string) => Char('a', d), (d: string) => Char('b', d), "abvx") == Ok((('a', 'b'), "vx"))
  {
  }

  /** `test_or`: 'a' or 'b' on "abvx" gives `OrA('a')`; again on the rest it gives `OrB('b')`
      and leaves two characters. */
  lemma TestOr()
    ensures var ab := (d: string) => OrElse((s: string) => Char('a', s), (s: string) => Char('b', s), d);
      ab("abvx") == Ok((OrA('a'), "bvx")) && ab("bvx") == Ok((OrB('b'), "vx"))
  {
  }
}
