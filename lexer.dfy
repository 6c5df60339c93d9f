/** The lexer of src/lexer.rs: `token()` repeats an ordered choice among twenty-three token
    patterns over the program text.  Every pattern is an anchored regular expression
    `^[ \t]*` followed by the token's own text; the regular expressions are written out here
    as the prefix matchers they denote on ASCII input.  The first pattern in list order that
    matches wins, so the order of the list decides how ambiguous text is read. */
module Lexer {
  import opened Results
  import opened Grammar
  import SliceParsers
  import opened Peruse

  // ---------------------------------------------------------------- character classes

  /** `[ \t]`: the blanks every pattern skips in front of itself. */
  predicate IsBlank(c: char) {
    c == ' ' || c == '\t'
  }

  /** `\s` on ASCII input: space, tab, line feed, carriage return, vertical tab, form feed. */
  predicate IsSpace(c: char) {
    c == ' ' || c == '\t' || c == '\n' || c == '\r' || c == '\U{000B}' || c == '\U{000C}'
  }

  predicate IsLetter(c: char) {
    'a' <= c <= 'z' || 'A' <= c <= 'Z'
  }

  /** `\w` on ASCII input. */
  predicate IsWordChar(c: char) {
    IsLetter(c) || IsDigit(c) || c == '_'
  }

  /** What a greedy `cls*` matches at the start of `s`: the length of the longest prefix of
      `s` made of characters of class `cls`. All of it is in the class, and the character
      after it is not. */
  function Run(cls: char -> bool, s: string): (n: nat)
    ensures n <= |s|
    ensures forall i :: 0 <= i < n ==> cls(s[i])
    ensures n < |s| ==> !cls(s[n])
  {
    if |s| > 0 && cls(s[0]) then 1 + Run(cls, s[1..]) else 0
  }

  /** `s` without its leading `[ \t]*`. */
  function SkipBlanks(s: string): string {
    s[Run(IsBlank, s)..]
  }

  /** `s` without its leading `\s*`. */
  function SkipSpace(s: string): string {
    s[Run(IsSpace, s)..]
  }

  /** `r` is what is left of `s` once a prefix is taken away. */
  predicate Suffix(r: string, s: string) {
    |r| <= |s| && r == s[|s| - |r|..]
  }

  lemma SuffixDrop(s: string, k: nat)
    requires k <= |s|
    ensures Suffix(s[k..], s)
  {
  }

  lemma SuffixTrans(a: string, b: string, c: string)
    requires Suffix(a, b) && Suffix(b, c)
    ensures Suffix(a, c)
  {
    assert c[|c| - |a|..] == c[|c| - |b|..][|b| - |a|..];
  }

  /** Skipping leaves a suffix that starts with a character outside the class. */
  lemma SkipSuffix(s: string)
    ensures Suffix(SkipBlanks(s), s) && (|SkipBlanks(s)| > 0 ==> !IsBlank(SkipBlanks(s)[0]))
    ensures Suffix(SkipSpace(s), s) && (|SkipSpace(s)| > 0 ==> !IsSpace(SkipSpace(s)[0]))
  {
    SuffixDrop(s, Run(IsBlank, s));
    SuffixDrop(s, Run(IsSpace, s));
  }

  predicate StartsWith(s: string, prefix: string) {
    |prefix| <= |s| && forall i :: 0 <= i < |prefix| ==> s[i] == prefix[i]
  }

  // ---------------------------------------------------------------- literal patterns

  /** The part of a `literal!` pattern after `^[ \t]*`: a fixed text (`out`, `\)`, `==` …),
      a fixed text followed by `\s*` (`\(\s*`, `\{\s*`), or the line break `\r?\n\s*`. */
  datatype Pattern = Exact(text: string) | ThenSpace(text: string) | LineBreak

  predicate Consuming(p: Pattern) {
    p.LineBreak? || |p.text| > 0
  }

  /** The pattern matched at the very start of `t`, which has no leading blanks left: the
      rest of `t` after the match, or `None`. */
  function MatchAfterBlanks(p: Pattern, t: string): Option<string> {
    match p
    case Exact(text) => if StartsWith(t, text) then Some(t[|text|..]) else None
    case ThenSpace(text) => if StartsWith(t, text) then Some(SkipSpace(t[|text|..])) else None
    case LineBreak =>
      var u := if StartsWith(t, "\r") then t[1..] else t;
      if StartsWith(u, "\n") then Some(SkipSpace(u[1..])) else None
  }

  /** The anchored regular expression `^[ \t]*` + `p` on `s`: the rest of `s` after the match. */
  function MatchPattern(p: Pattern, s: string): Option<string> {
    MatchAfterBlanks(p, SkipBlanks(s))
  }

  /** A match leaves a suffix of the text, and a strictly shorter one when the pattern
      consumes. */
  lemma MatchSuffix(p: Pattern, s: string)
    ensures MatchPattern(p, s).Some? ==> Suffix(MatchPattern(p, s).value, s)
    ensures MatchPattern(p, s).Some? && Consuming(p) ==> |MatchPattern(p, s).value| < |s|
  {
    var t := SkipBlanks(s);
    assert Suffix(t, s) by {
      SkipSuffix(s);
    }
    var r := MatchAfterBlanks(p, t);
    assert r.Some? ==> Suffix(r.value, t) && (Consuming(p) ==> |r.value| < |t|) by {
      MatchAfterSuffix(p, t);
    }
    if r.Some? {
      SuffixTrans(r.value, t, s);
    }
  }

  lemma MatchAfterSuffix(p: Pattern, t: string)
    ensures MatchAfterBlanks(p, t).Some? ==> Suffix(MatchAfterBlanks(p, t).value, t)
    ensures MatchAfterBlanks(p, t).Some? && Consuming(p) ==> |MatchAfterBlanks(p, t).value| < |t|
  {
    match p
    case Exact(text) =>
      if StartsWith(t, text) {
        SuffixDrop(t, |text|);
      }
    case ThenSpace(text) =>
      if StartsWith(t, text) {
        var v := t[|text|..];
        SuffixDrop(t, |text|);
        SkipSuffix(v);
        SuffixTrans(SkipSpace(v), v, t);
      }
    case LineBreak =>
      LineBreakSuffix(t);
  }

  lemma LineBreakSuffix(t: string)
    ensures MatchAfterBlanks(LineBreak, t).Some? ==>
      Suffix(MatchAfterBlanks(LineBreak, t).value, t) && |MatchAfterBlanks(LineBreak, t).value| < |t|
  {
    var u := if StartsWith(t, "\r") then t[1..] else t;
    assert Suffix(u, t) by {
      SuffixDrop(t, if StartsWith(t, "\r") then 1 else 0);
    }
    if StartsWith(u, "\n") {
      var v := u[1..];
      SuffixDrop(u, 1);
      SkipSuffix(v);
      SuffixTrans(SkipSpace(v), v, u);
      SuffixTrans(SkipSpace(v), u, t);
    }
  }

  /** `RegexLiteralParser`: consumes the match of its regular expression and yields `()`. */
  function RegexLiteral(p: Pattern, s: string): Result<((), string)> {
    match MatchPattern(p, s)
    case Some(rest) => Ok(((), rest))
    case None => Err("No match")
  }

  /** `literal!(reg, tok)`: the pattern, mapped to the token. */
  function LiteralP(p: Pattern, tok: Token): Parser<char, Token> {
    MapP((s: string) => RegexLiteral(p, s), (_: ()) => tok)
  }

  // ---------------------------------------------------------------- numbers and identifiers

  /** The leading digits of `t`. */
  function DigitRun(t: string): (d: string)
    ensures AllDigits(d) && d <= t
    ensures |d| < |t| ==> !IsDigit(t[|d|])
  {
    t[..Run(IsDigit, t)]
  }

  /** `number()` after the leading blanks: `(\d+)[ \t]*`, the digits read as an `i32`. */
  function NumberAt(t: string): Result<(Token, string)> {
    var n := Run(IsDigit, t);
    if n == 0 then Err("No match")
    else
      var v := DigitsValue(DigitRun(t));
      if v < 0x8000_0000 then Ok((Number(v as i32), SkipBlanks(t[n..])))
      else Err("number out of range")
  }

  /** `ident()` after the leading blanks: `([a-zA-Z]\w*)[ \t]*`, the captured name. */
  function IdentAt(t: string): Result<(Token, string)> {
    if |t| > 0 && IsLetter(t[0]) then
      var n := 1 + Run(IsWordChar, t[1..]);
      Ok((Ident(t[..n]), SkipBlanks(t[n..])))
    else Err("No match")
  }

  /** `number()` reads the longest run of digits and the blanks after it: it succeeds exactly
      where a digit comes first and the value of the run fits an `i32`. */
  lemma NumberAtSpec(t: string)
    ensures NumberAt(t).Ok? <==> |t| > 0 && IsDigit(t[0]) && DigitsValue(DigitRun(t)) < 0x8000_0000
  {
  }

  /** The token holds the value of the digits, and what follows is the text after them with
      its leading blanks skipped. */
  lemma NumberAtValue(t: string)
    requires NumberAt(t).Ok?
    ensures NumberAt(t).value.0.Number?
    ensures NumberAt(t).value.0.num as int == DigitsValue(DigitRun(t))
    ensures NumberAt(t).value.1 == SkipBlanks(t[Run(IsDigit, t)..])
  {
  }

  lemma NumberAtShrinks(t: string)
    ensures NumberAt(t).Ok? ==> |NumberAt(t).value.1| < |t|
  {
    SkipSuffix(t[Run(IsDigit, t)..]);
  }

  /** The two ways `number()` fails: no digit, or a value too large for an `i32`. */
  lemma NumberAtErr(t: string)
    ensures NumberAt(t).Err? ==>
      NumberAt(t).msg == if |t| > 0 && IsDigit(t[0]) then "number out of range" else "No match"
  {
  }

  /** `ident()` reads a letter, the longest run of word characters after it and the blanks
      after those; it fails exactly where no letter comes first. */
  lemma IdentAtSpec(t: string)
    ensures IdentAt(t).Ok? <==> |t| > 0 && IsLetter(t[0])
    ensures IdentAt(t).Ok? ==>
      IdentAt(t).value.0 == Ident(t[..1 + Run(IsWordChar, t[1..])]) &&
      IdentAt(t).value.1 == SkipBlanks(t[1 + Run(IsWordChar, t[1..])..]) && |IdentAt(t).value.1| < |t|
  {
    if |t| > 0 && IsLetter(t[0]) {
      var n := 1 + Run(IsWordChar, t[1..]);
      SkipSuffix(t[n..]);
    }
  }

  const NumberP: Parser<char, Token> := (s: string) => NumberAt(SkipBlanks(s))

  const IdentP: Parser<char, Token> := (s: string) => IdentAt(SkipBlanks(s))

  // ---------------------------------------------------------------- the token list

  /** The `literal!` entries of `token()`, in source order. */
  const Literals: seq<(Pattern, Token)> := [
    (Exact("out"), OutputCmd),
    (Exact("if"), IfKeyword),
    (Exact("else"), ElseKeyword),
    (Exact("while"), WhileKeyword),
    (LineBreak, NewLine),
    (ThenSpace("("), OpenParen),
    (Exact(")"), CloseParen),
    (ThenSpace("{"), OpenBrace),
    (Exact("}"), CloseBrace),
    (Exact("=="), Cmp(CEq)),
    (Exact("!="), Cmp(CNeq)),
    (Exact(">="), Cmp(CGeq)),
    (Exact("<="), Cmp(CLeq)),
    (Exact(">"), Cmp(CGt)),
    (Exact("<"), Cmp(CLt)),
    (Exact("+"), PlusSign),
    (Exact("-"), MinusSign),
    (Exact("="), Equals),
    (Exact("*"), MultSign),
    (Exact("/"), DivideSign),
    (Exact("%"), ModuloSign)
  ]

  /** The parser of each entry of a literal table. */
  function LiteralParsers(table: seq<(Pattern, Token)>): (ps: seq<Parser<char, Token>>)
    ensures |ps| == |table|
    ensures forall i :: 0 <= i < |table| ==> ps[i] == LiteralP(table[i].0, table[i].1)
  {
    if |table| == 0 then [] else [LiteralP(table[0].0, table[0].1)] + LiteralParsers(table[1..])
  }

  /** The alternatives of the `or!` over a literal table: the literals, then `number()`, then
      `ident()`. */
  function AlternativesOf(table: seq<(Pattern, Token)>): (ps: seq<Parser<char, Token>>)
    ensures |ps| == |table| + 2
    ensures forall i :: 0 <= i < |table| ==> ps[i] == LiteralP(table[i].0, table[i].1)
    ensures ps[|table|] == NumberP && ps[|table| + 1] == IdentP
  {
    LiteralParsers(table) + [NumberP, IdentP]
  }

  /** One token over a literal table: the first alternative that matches. */
  function StepOf(table: seq<(Pattern, Token)>): Parser<char, Token> {
    OneOfP(AlternativesOf(table))
  }

  /** One token of `token()`. */
  const StepP: Parser<char, Token> := StepOf(Literals)

  /** `token()`: tokens as long as one matches.  Lexing never fails; it stops at the first
      place where no pattern matches and hands back the text from there on. */
  function Lex(s: string): Result<(seq<Token>, string)> {
    RepeatP(StepP)(s)
  }

  // ---------------------------------------------------------------- any literal table

  lemma LiteralOn(p: Pattern, tok: Token, s: string)
    ensures MatchPattern(p, s).Some? ==> LiteralP(p, tok)(s) == Ok((tok, MatchPattern(p, s).value))
    ensures MatchPattern(p, s).None? ==> LiteralP(p, tok)(s) == Err("No match")
  {
  }

  /** The first literal of the table that matches gives the token. */
  lemma StepAtLiteralOf(table: seq<(Pattern, Token)>, i: nat, s: string)
    requires i < |table| && MatchPattern(table[i].0, s).Some?
    requires forall j :: 0 <= j < i ==> MatchPattern(table[j].0, s).None?
    ensures StepOf(table)(s) == Ok((table[i].1, MatchPattern(table[i].0, s).value))
  {
    var ps := AlternativesOf(table);
    forall j | 0 <= j < i ensures ps[j](s).Err? {
      LiteralOn(table[j].0, table[j].1, s);
    }
    LiteralOn(table[i].0, table[i].1, s);
    SliceParsers.OneOfPick(ps, i, s);
  }

  /** When no literal matches, `number()` and then `ident()` are tried. */
  lemma NumberLast(table: seq<(Pattern, Token)>, s: string)
    requires forall j :: 0 <= j < |table| ==> MatchPattern(table[j].0, s).None?
    requires NumberP(s).Ok?
    ensures StepOf(table)(s) == NumberP(s)
  {
    var ps := AlternativesOf(table);
    assert forall j :: 0 <= j < |table| ==> ps[j](s).Err? by {
      LiteralsFailOf(table, s);
    }
    assert ps[|table|] == NumberP;
    SliceParsers.OneOfPick(ps, |table|, s);
  }

  lemma LiteralsFailOf(table: seq<(Pattern, Token)>, s: string)
    requires forall j :: 0 <= j < |table| ==> MatchPattern(table[j].0, s).None?
    ensures forall j :: 0 <= j < |table| ==> AlternativesOf(table)[j](s).Err?
  {
    forall j | 0 <= j < |table| ensures AlternativesOf(table)[j](s).Err? {
      LiteralOn(table[j].0, table[j].1, s);
    }
  }

  lemma IdentLast(table: seq<(Pattern, Token)>, s: string)
    requires forall j :: 0 <= j < |table| ==> MatchPattern(table[j].0, s).None?
    requires NumberP(s).Err? && IdentP(s).Ok?
    ensures StepOf(table)(s) == IdentP(s)
  {
    LiteralsFailOf(table, s);
    var ps := AlternativesOf(table);
    forall j | 0 <= j < |table| + 1 ensures ps[j](s).Err? {
      if j == |table| {
        assert ps[j] == NumberP;
      }
    }
    SliceParsers.OneOfPick(ps, |table| + 1, s);
  }

  lemma NoneLast(table: seq<(Pattern, Token)>, s: string)
    requires forall j :: 0 <= j < |table| ==> MatchPattern(table[j].0, s).None?
    requires NumberP(s).Err? && IdentP(s).Err?
    ensures StepOf(table)(s).Err?
  {
    var ps := AlternativesOf(table);
    forall j | 0 <= j < |ps| ensures ps[j](s).Err? {
      if j < |table| {
        LiteralOn(table[j].0, table[j].1, s);
      } else if j == |table| {
        assert ps[j] == NumberP;
      } else if j == |table| + 1 {
        assert ps[j] == IdentP;
      }
    }
    SliceParsers.OneOfFirstSuccess(ps, s);
  }

  lemma LiteralConsumes(p: Pattern, tok: Token)
    requires Consuming(p)
    ensures Progressing(LiteralP(p, tok))
  {
    var r := (s: string) => RegexLiteral(p, s);
    forall d | r(d).Ok? ensures |r(d).value.1| < |d| {
      MatchSuffix(p, d);
    }
    MapConsumes(r, (_: ()) => tok);
  }

  lemma StepConsumesOf(table: seq<(Pattern, Token)>)
    requires forall j :: 0 <= j < |table| ==> Consuming(table[j].0)
    ensures Progressing(StepOf(table))
  {
    var ps := AlternativesOf(table);
    forall j | 0 <= j < |ps| ensures Progressing(ps[j]) {
      if j < |table| {
        LiteralConsumes(table[j].0, table[j].1);
      } else if j == |table| {
        NumberIdentConsume();
        assert ps[j] == NumberP;
      } else {
        NumberIdentConsume();
        assert ps[j] == IdentP;
      }
    }
    OneOfConsumes(ps);
  }

  lemma NumberIdentConsume()
    ensures Progressing(NumberP) && Progressing(IdentP)
  {
    forall d | NumberP(d).Ok? ensures |NumberP(d).value.1| < |d| {
      SkipSuffix(d);
      NumberAtShrinks(SkipBlanks(d));
    }
    forall d | IdentP(d).Ok? ensures |IdentP(d).value.1| < |d| {
      SkipSuffix(d);
      IdentAtSpec(SkipBlanks(d));
    }
  }

  /** Every alternative looks at its input only after the leading blanks. */
  lemma StepAfterBlanksOf(table: seq<(Pattern, Token)>, s: string, s': string)
    requires SkipBlanks(s) == SkipBlanks(s')
    ensures StepOf(table)(s) == StepOf(table)(s')
  {
    var ps := AlternativesOf(table);
    forall j | 0 <= j < |ps| ensures ps[j](s) == ps[j](s') {
      if j < |table| {
        assert MatchPattern(table[j].0, s) == MatchPattern(table[j].0, s');
        LiteralOn(table[j].0, table[j].1, s);
        LiteralOn(table[j].0, table[j].1, s');
      } else if j == |table| {
        assert ps[j] == NumberP;
        assert NumberP(s) == NumberAt(SkipBlanks(s)) && NumberP(s') == NumberAt(SkipBlanks(s'));
      } else {
        assert j == |table| + 1;
        assert ps[j] == IdentP;
        assert IdentP(s) == IdentAt(SkipBlanks(s)) && IdentP(s') == IdentAt(SkipBlanks(s'));
      }
    }
    OneOfOn(ps, s, s');
  }

  // ---------------------------------------------------------------- the table of token()

  /** The characters a pattern's match can start with, once the blanks are skipped. */
  predicate CanLead(p: Pattern, c: char) {
    match p
    case Exact(text) => |text| == 0 || text[0] == c
    case ThenSpace(text) => |text| == 0 || text[0] == c
    case LineBreak => c == '\r' || c == '\n'
  }

  /** The pattern of entry `j` of `Literals`. */
  function PatternAt(j: int): Pattern {
    if 0 <= j < |Literals| then Literals[j].0 else Exact("")
  }

  /** The index of every entry of `Literals` whose match can start with `c`. */
  predicate MayLead(j: int, c: char) {
    (j == 0 && c == 'o') || (j == 1 && c == 'i') || (j == 2 && c == 'e') || (j == 3 && c == 'w') ||
    (j == 4 && (c == '\r' || c == '\n')) || (j == 5 && c == '(') || (j == 6 && c == ')') ||
    (j == 7 && c == '{') || (j == 8 && c == '}') || (j == 9 && c == '=') || (j == 10 && c == '!') ||
    (j == 11 && c == '>') || (j == 12 && c == '<') || (j == 13 && c == '>') || (j == 14 && c == '<') ||
    (j == 15 && c == '+') || (j == 16 && c == '-') || (j == 17 && c == '=') || (j == 18 && c == '*') ||
    (j == 19 && c == '/') || (j == 20 && c == '%')
  }

  lemma LeadTable(j: int, c: char)
    requires 0 <= j < |Literals| && CanLead(Literals[j].0, c)
    ensures MayLead(j, c)
  {
    assert j == 0 || j == 1 || j == 2 || j == 3 || j == 4 || j == 5 || j == 6 || j == 7 || j == 8 ||
      j == 9 || j == 10 || j == 11 || j == 12 || j == 13 || j == 14 || j == 15 || j == 16 ||
      j == 17 || j == 18 || j == 19 || j == 20;
  }

  lemma LiteralsConsume()
    ensures forall j :: 0 <= j < |Literals| ==> Consuming(Literals[j].0)
  {
    forall j | 0 <= j < |Literals| ensures Consuming(Literals[j].0) {
      assert j == 0 || j == 1 || j == 2 || j == 3 || j == 4 || j == 5 || j == 6 || j == 7 || j == 8 ||
        j == 9 || j == 10 || j == 11 || j == 12 || j == 13 || j == 14 || j == 15 || j == 16 ||
        j == 17 || j == 18 || j == 19 || j == 20;
    }
  }

  lemma NoBlanks(s: string)
    requires |s| > 0 && !IsBlank(s[0])
    ensures SkipBlanks(s) == s
  {
  }

  /** A pattern cannot match text that starts with a character its match cannot start with. */
  lemma MissByLead(p: Pattern, s: string)
    requires |s| > 0 && !IsBlank(s[0]) && !CanLead(p, s[0])
    ensures MatchPattern(p, s).None?
  {
    NoBlanks(s);
  }

  /** The literals before index `i` all fail on `s` when those that could start with its first
      character do. */
  lemma LiteralsMiss(i: nat, s: string)
    requires i <= |Literals| && |s| > 0 && !IsBlank(s[0])
    requires forall j :: 0 <= j < i && MayLead(j, s[0]) ==> MatchPattern(PatternAt(j), s).None?
    ensures forall j :: 0 <= j < i ==> MatchPattern(Literals[j].0, s).None?
  {
    forall j | 0 <= j < i ensures MatchPattern(Literals[j].0, s).None? {
      if !MayLead(j, s[0]) {
        if CanLead(Literals[j].0, s[0]) {
          LeadTable(j, s[0]);
        }
        MissByLead(Literals[j].0, s);
      }
    }
  }

  /** The first literal of `token()` that matches gives the token. */
  lemma StepAtLiteral(i: nat, s: string)
    requires i < |Literals| && |s| > 0 && !IsBlank(s[0])
    requires MatchPattern(Literals[i].0, s).Some?
    requires forall j :: 0 <= j < i && MayLead(j, s[0]) ==> MatchPattern(PatternAt(j), s).None?
    ensures StepP(s) == Ok((Literals[i].1, MatchPattern(Literals[i].0, s).value))
  {
    LiteralsMiss(i, s);
    StepAtLiteralOf(Literals, i, s);
  }

  /** Every alternative consumes, so one token step always consumes: the repetition of
      `token()` never stops because of a match of nothing. */
  lemma StepConsumes()
    ensures Progressing(StepP)
  {
    LiteralsConsume();
    StepConsumesOf(Literals);
  }

  /** Lexing never fails, and hands back a suffix of its input. */
  lemma LexTotal(s: string)
    ensures Lex(s).Ok? && |Lex(s).value.1| <= |s|
  {
    assert Lex(s) == Repeat(StepP, s);
  }

  /** Lexing stops only where no pattern matches. */
  lemma LexStops(s: string)
    ensures Lex(s).Ok? && StepP(Lex(s).value.1).Err?
  {
    assert Lex(s) == Repeat(StepP, s);
    StepConsumes();
  }

  // ---------------------------------------------------------------- blanks

  lemma {:induction false} RunAppend(cls: char -> bool, x: string, rest: string)
    requires forall i :: 0 <= i < |x| ==> cls(x[i])
    ensures Run(cls, x + rest) == |x| + Run(cls, rest)
    decreases |x|
  {
    if |x| > 0 {
      assert (x + rest)[1..] == x[1..] + rest;
      RunAppend(cls, x[1..], rest);
    } else {
      assert x + rest == rest;
    }
  }

  predicate AllBlanks(b: string) {
    forall i :: 0 <= i < |b| ==> IsBlank(b[i])
  }

  lemma SkipBlanksAppend(b: string, s: string)
    requires AllBlanks(b)
    ensures SkipBlanks(b + s) == SkipBlanks(s)
  {
    RunAppend(IsBlank, b, s);
    assert (b + s)[|b|..] == s;
    assert (b + s)[|b| + Run(IsBlank, s)..] == s[Run(IsBlank, s)..];
  }

  /** Every pattern skips `[ \t]*` first, so blanks in front of a token change nothing about
      the token or what follows it. */
  lemma BlanksIgnored(b: string, s: string)
    requires AllBlanks(b)
    ensures StepP(b + s) == StepP(s)
  {
    SkipBlanksAppend(b, s);
    StepAfterBlanksOf(Literals, b + s, s);
  }

  /** Nothing matches where the text has ended. */
  lemma StepEmpty()
    ensures StepP([]).Err?
  {
    LiteralsConsume();
    NoneLast(Literals, []);
  }

  // ---------------------------------------------------------------- how each token is written

  /** The text a token is written as. */
  function Spell(tok: Token): string {
    match tok
    case Equals => "="
    case Ident(id) => id
    case Number(n) => IntToString(n as int)
    case PlusSign => "+"
    case MinusSign => "-"
    case MultSign => "*"
    case DivideSign => "/"
    case ModuloSign => "%"
    case OutputCmd => "out"
    case NewLine => "\n"
    case OpenParen => "("
    case CloseParen => ")"
    case OpenBrace => "{"
    case CloseBrace => "}"
    case IfKeyword => "if"
    case ElseKeyword => "else"
    case WhileKeyword => "while"
    case Cmp(CEq) => "=="
    case Cmp(CNeq) => "!="
    case Cmp(CGeq) => ">="
    case Cmp(CLeq) => "<="
    case Cmp(CGt) => ">"
    case Cmp(CLt) => "<"
  }

  /** `[a-zA-Z]\w*`. */
  predicate IsIdentName(id: string) {
    |id| > 0 && IsLetter(id[0]) && forall i :: 1 <= i < |id| ==> IsWordChar(id[i])
  }

  predicate KeywordPrefixed(id: string) {
    StartsWith(id, "out") || StartsWith(id, "if") || StartsWith(id, "else") || StartsWith(id, "while")
  }

  /** The tokens the lexer can produce on their own spelling: numbers are never negative (a
      minus sign is a token of its own), and a name never starts with a keyword (the keyword
      patterns come first and would take that prefix). */
  predicate Lexable(tok: Token) {
    match tok
    case Ident(id) => IsIdentName(id) && !KeywordPrefixed(id)
    case Number(n) => n >= 0
    case _ => true
  }

  /** Whether the character `c` may follow the spelling of `tok` without changing how it is
      read: a name or number would run on into word characters or digits and would swallow
      blanks; a line break and the opening brackets swallow whitespace; `>`, `<` and `=`
      followed by `=` form a two-character operator. */
  predicate Fits(tok: Token, c: char) {
    match tok
    case Ident(_) => !IsWordChar(c) && !IsBlank(c)
    case Number(_) => !IsDigit(c) && !IsBlank(c)
    case NewLine => !IsSpace(c)
    case OpenParen => !IsSpace(c)
    case OpenBrace => !IsSpace(c)
    case Equals => c != '='
    case Cmp(CGt) => c != '='
    case Cmp(CLt) => c != '='
    case _ => true
  }

  predicate Delimited(tok: Token, rest: string) {
    |rest| == 0 || Fits(tok, rest[0])
  }

  lemma SpellNonEmpty(tok: Token)
    requires Lexable(tok)
    ensures |Spell(tok)| > 0 && !IsBlank(Spell(tok)[0])
  {
  }

  /** A fixed-text literal at index `i` on its own text. */
  lemma StepExact(i: nat, text: string, tok: Token, rest: string)
    requires i < |Literals| && Literals[i] == (Exact(text), tok) && |text| > 0 && !IsBlank(text[0])
    requires forall j :: 0 <= j < i && MayLead(j, text[0]) ==> MatchPattern(PatternAt(j), text + rest).None?
    ensures StepP(text + rest) == Ok((tok, rest))
  {
    var s := text + rest;
    NoBlanks(s);
    assert s[|text|..] == rest;
    assert MatchPattern(Exact(text), s) == Some(rest);
    StepAtLiteral(i, s);
  }

  /** A literal at index `i` that also swallows the whitespace after its text. */
  lemma StepThenSpace(i: nat, text: string, tok: Token, rest: string)
    requires i < |Literals| && Literals[i] == (ThenSpace(text), tok) && |text| > 0 && !IsBlank(text[0])
    requires |rest| == 0 || !IsSpace(rest[0])
    requires forall j :: 0 <= j < i && MayLead(j, text[0]) ==> MatchPattern(PatternAt(j), text + rest).None?
    ensures StepP(text + rest) == Ok((tok, rest))
  {
    var s := text + rest;
    NoBlanks(s);
    assert s[|text|..] == rest;
    assert MatchPattern(ThenSpace(text), s) == Some(rest);
    StepAtLiteral(i, s);
  }

  /** `>`, `<` and `=` come after the two-character operators that start with them, and are
      read on their own only when no `=` follows. */
  lemma StepOneCharComparison(i: nat, c: char, tok: Token, longer: nat, rest: string)
    requires i < |Literals| && Literals[i] == (Exact([c]), tok) && !IsBlank(c)
    requires longer < i && Literals[longer].0 == Exact([c, '='])
    requires forall j :: 0 <= j < i && j != longer && MayLead(j, c) ==> false
    requires |rest| == 0 || rest[0] != '='
    ensures StepP([c] + rest) == Ok((tok, rest))
  {
    var s := [c] + rest;
    NoBlanks(s);
    assert !StartsWith(s, [c, '=']) by {
      if |s| >= 2 {
        assert s[1] == rest[0];
      }
    }
    assert MatchPattern(Literals[longer].0, s).None?;
    StepExact(i, [c], tok, rest);
  }

  lemma StepNewLine(rest: string)
    requires Delimited(NewLine, rest)
    ensures StepP("\n" + rest) == Ok((NewLine, rest))
  {
    var s := "\n" + rest;
    assert s[0] == '\n' && !IsBlank(s[0]);
    assert Literals[4] == (LineBreak, NewLine);
    assert MatchPattern(Literals[4].0, s) == Some(rest) by {
      LineBreakMatch(rest);
    }
    assert forall j :: 0 <= j < 4 && MayLead(j, s[0]) ==> MatchPattern(PatternAt(j), s).None? by {
      NothingBefore(4, s);
    }
    StepAtLiteral(4, s);
  }

  lemma LineBreakMatch(rest: string)
    requires Delimited(NewLine, rest)
    ensures MatchPattern(LineBreak, "\n" + rest) == Some(rest)
  {
    var s := "\n" + rest;
    assert s[0] == '\n' && s[1..] == rest;
    NoBlanks(s);
    assert !StartsWith(s, "\r");
    assert StartsWith(s, "\n");
    assert Run(IsSpace, rest) == 0;
    assert SkipSpace(rest) == rest;
    assert MatchAfterBlanks(LineBreak, s) == Some(SkipSpace(s[1..]));
  }

  /** No literal before index `i` can start with the first character of `s`. */
  lemma NothingBefore(i: nat, s: string)
    requires i <= |Literals| && |s| > 0
    requires forall j :: 0 <= j < i ==> !MayLead(j, s[0])
    ensures forall j :: 0 <= j < i && MayLead(j, s[0]) ==> MatchPattern(PatternAt(j), s).None?
  {
  }

  /** A name that does not start with a keyword is not read as one, whatever follows it, as long
      as what follows cannot continue the name. */
  lemma NotKeyword(id: string, rest: string, kw: string)
    requires forall i :: 0 <= i < |id| ==> IsWordChar(id[i])
    requires Delimited(Ident(id), rest) && !StartsWith(id, kw)
    requires forall k :: 0 <= k < |kw| ==> IsLetter(kw[k])
    ensures !StartsWith(id + rest, kw)
  {
    if |kw| <= |id| {
      assert forall i :: 0 <= i < |kw| ==> (id + rest)[i] == id[i];
    } else if |kw| <= |id + rest| {
      assert (id + rest)[|id|] == rest[0];
      assert IsLetter(kw[|id|]);
    }
  }

  lemma NumberMatch(n: i32, rest: string)
    requires n >= 0 && Delimited(Number(n), rest)
    ensures NumberP(NatToString(n as int) + rest) == Ok((Number(n), rest))
  {
    var d := NatToString(n as int);
    var s := d + rest;
    NoBlanks(s);
    RunAppend(IsDigit, d, rest);
    assert Run(IsDigit, s) == |d|;
    assert s[..|d|] == d && s[|d|..] == rest;
    DigitsRoundTrip(n as int);
    assert SkipBlanks(rest) == rest;
  }

  lemma StepNumber(n: i32, rest: string)
    requires n >= 0 && Delimited(Number(n), rest)
    ensures StepP(Spell(Number(n)) + rest) == Ok((Number(n), rest))
  {
    var d := NatToString(n as int);
    var s := d + rest;
    assert Spell(Number(n)) == d;
    NothingBefore(|Literals|, s);
    NoBlanks(s);
    LiteralsMiss(|Literals|, s);
    NumberMatch(n, rest);
    NumberLast(Literals, s);
  }

  lemma IdentMatch(id: string, rest: string)
    requires IsIdentName(id) && Delimited(Ident(id), rest)
    ensures NumberP(id + rest).Err?
    ensures IdentP(id + rest) == Ok((Ident(id), rest))
  {
    NotNumber(id + rest);
    IdentRead(id, rest);
  }

  /** Text that starts with a letter is not a number. */
  lemma NotNumber(s: string)
    requires |s| > 0 && IsLetter(s[0])
    ensures NumberP(s).Err?
  {
    NoBlanks(s);
    assert Run(IsDigit, s) == 0;
  }

  lemma IdentRead(id: string, rest: string)
    requires IsIdentName(id) && Delimited(Ident(id), rest)
    ensures IdentP(id + rest) == Ok((Ident(id), rest))
  {
    var s := id + rest;
    NoBlanks(s);
    assert s[1..] == id[1..] + rest;
    assert Run(IsWordChar, s[1..]) == |id| - 1 by {
      RunAppend(IsWordChar, id[1..], rest);
      assert Run(IsWordChar, rest) == 0;
    }
    assert s[..|id|] == id && s[|id|..] == rest;
    assert SkipBlanks(rest) == rest by {
      assert Run(IsBlank, rest) == 0;
    }
  }

  /** A name that starts with none of the keywords is not taken by any literal. */
  lemma IdentMisses(id: string, rest: string)
    requires Lexable(Ident(id)) && Delimited(Ident(id), rest)
    ensures forall j :: 0 <= j < |Literals| ==> MatchPattern(Literals[j].0, id + rest).None?
  {
    var s := id + rest;
    assert IsLetter(s[0]);
    assert forall j :: 0 <= j < |Literals| && MayLead(j, s[0]) ==> MatchPattern(PatternAt(j), s).None? by {
      KeywordsMiss(id, rest);
    }
    LiteralsMiss(|Literals|, s);
  }

  lemma KeywordsMiss(id: string, rest: string)
    requires Lexable(Ident(id)) && Delimited(Ident(id), rest)
    ensures forall j :: 0 <= j < 4 ==> MatchPattern(PatternAt(j), id + rest).None?
  {
    var s := id + rest;
    assert forall i :: 0 <= i < |id| ==> IsWordChar(id[i]);
    assert PatternAt(0) == Exact("out") && PatternAt(1) == Exact("if");
    assert PatternAt(2) == Exact("else") && PatternAt(3) == Exact("while");
    KeywordMiss(id, rest, "out");
    KeywordMiss(id, rest, "if");
    KeywordMiss(id, rest, "else");
    KeywordMiss(id, rest, "while");
  }

  lemma KeywordMiss(id: string, rest: string, kw: string)
    requires |id| > 0 && IsLetter(id[0]) && forall i :: 0 <= i < |id| ==> IsWordChar(id[i])
    requires Delimited(Ident(id), rest) && !StartsWith(id, kw)
    requires forall k :: 0 <= k < |kw| ==> IsLetter(kw[k])
    ensures MatchPattern(Exact(kw), id + rest).None?
  {
    NoBlanks(id + rest);
    NotKeyword(id, rest, kw);
  }

  lemma StepIdent(id: string, rest: string)
    requires Lexable(Ident(id)) && Delimited(Ident(id), rest)
    ensures StepP(id + rest) == Ok((Ident(id), rest))
  {
    var s := id + rest;
    assert forall j :: 0 <= j < |Literals| ==> MatchPattern(Literals[j].0, s).None? by {
      IdentMisses(id, rest);
    }
    assert NumberP(s).Err? && IdentP(s) == Ok((Ident(id), rest)) by {
      IdentMatch(id, rest);
    }
    IdentLast(Literals, s);
  }

  lemma StepKeyword(tok: Token, rest: string)
    requires tok.OutputCmd? || tok.IfKeyword? || tok.ElseKeyword? || tok.WhileKeyword?
    ensures StepP(Spell(tok) + rest) == Ok((tok, rest))
  {
    match tok
    case OutputCmd =>
      assert StepP(Spell(tok) + rest) == Ok((tok, rest)) by {
        assert Spell(tok) == "out";
        StepExact(0, "out", tok, rest);
      }
    case IfKeyword =>
      assert StepP(Spell(tok) + rest) == Ok((tok, rest)) by {
        assert Spell(tok) == "if";
        StepExact(1, "if", tok, rest);
      }
    case ElseKeyword =>
      assert StepP(Spell(tok) + rest) == Ok((tok, rest)) by {
        assert Spell(tok) == "else";
        StepExact(2, "else", tok, rest);
      }
    case WhileKeyword =>
      assert StepP(Spell(tok) + rest) == Ok((tok, rest)) by {
        assert Spell(tok) == "while";
        StepExact(3, "while", tok, rest);
      }
  }

  lemma StepBracket(tok: Token, rest: string)
    requires tok.OpenParen? || tok.CloseParen? || tok.OpenBrace? || tok.CloseBrace?
    requires Delimited(tok, rest)
    ensures StepP(Spell(tok) + rest) == Ok((tok, rest))
  {
    match tok
    case OpenParen =>
      assert StepP(Spell(tok) + rest) == Ok((tok, rest)) by {
        assert Spell(tok) == "(";
        StepThenSpace(5, "(", tok, rest);
      }
    case CloseParen =>
      assert StepP(Spell(tok) + rest) == Ok((tok, rest)) by {
        assert Spell(tok) == ")";
        StepExact(6, ")", tok, rest);
      }
    case OpenBrace =>
      assert StepP(Spell(tok) + rest) == Ok((tok, rest)) by {
        assert Spell(tok) == "{";
        StepThenSpace(7, "{", tok, rest);
      }
    case CloseBrace =>
      assert StepP(Spell(tok) + rest) == Ok((tok, rest)) by {
        assert Spell(tok) == "}";
        StepExact(8, "}", tok, rest);
      }
  }

  lemma StepComparison(c: Comparator, rest: string)
    requires Delimited(Cmp(c), rest)
    ensures StepP(Spell(Cmp(c)) + rest) == Ok((Cmp(c), rest))
  {
    match c
    case CEq =>
      assert StepP(Spell(Cmp(c)) + rest) == Ok((Cmp(c), rest)) by {
        assert Spell(Cmp(c)) == "==";
        StepExact(9, "==", Cmp(c), rest);
      }
    case CNeq =>
      assert StepP(Spell(Cmp(c)) + rest) == Ok((Cmp(c), rest)) by {
        assert Spell(Cmp(c)) == "!=";
        StepExact(10, "!=", Cmp(c), rest);
      }
    case CGeq =>
      assert StepP(Spell(Cmp(c)) + rest) == Ok((Cmp(c), rest)) by {
        assert Spell(Cmp(c)) == ">=";
        StepExact(11, ">=", Cmp(c), rest);
      }
    case CLeq =>
      assert StepP(Spell(Cmp(c)) + rest) == Ok((Cmp(c), rest)) by {
        assert Spell(Cmp(c)) == "<=";
        StepExact(12, "<=", Cmp(c), rest);
      }
    case CGt =>
      assert StepP(Spell(Cmp(c)) + rest) == Ok((Cmp(c), rest)) by {
        assert Spell(Cmp(c)) == ">";
        StepOneCharComparison(13, '>', Cmp(c), 11, rest);
      }
    case CLt =>
      assert StepP(Spell(Cmp(c)) + rest) == Ok((Cmp(c), rest)) by {
        assert Spell(Cmp(c)) == "<";
        StepOneCharComparison(14, '<', Cmp(c), 12, rest);
      }
  }

  lemma StepOperator(tok: Token, rest: string)
    requires tok.PlusSign? || tok.MinusSign? || tok.Equals? || tok.MultSign? || tok.DivideSign? || tok.ModuloSign?
    requires Delimited(tok, rest)
    ensures StepP(Spell(tok) + rest) == Ok((tok, rest))
  {
    match tok
    case PlusSign =>
      assert StepP(Spell(tok) + rest) == Ok((tok, rest)) by {
        assert Spell(tok) == "+";
        StepExact(15, "+", tok, rest);
      }
    case MinusSign =>
      assert StepP(Spell(tok) + rest) == Ok((tok, rest)) by {
        assert Spell(tok) == "-";
        StepExact(16, "-", tok, rest);
      }
    case Equals =>
      assert StepP(Spell(tok) + rest) == Ok((tok, rest)) by {
        assert Spell(tok) == "=";
        StepOneCharComparison(17, '=', tok, 9, rest);
      }
    case MultSign =>
      assert StepP(Spell(tok) + rest) == Ok((tok, rest)) by {
        assert Spell(tok) == "*";
        StepExact(18, "*", tok, rest);
      }
    case DivideSign =>
      assert StepP(Spell(tok) + rest) == Ok((tok, rest)) by {
        assert Spell(tok) == "/";
        StepExact(19, "/", tok, rest);
      }
    case ModuloSign =>
      assert StepP(Spell(tok) + rest) == Ok((tok, rest)) by {
        assert Spell(tok) == "%";
        StepExact(20, "%", tok, rest);
      }
  }

  /** Every token the lexer produces is read back from its own spelling, followed by anything
      that cannot continue it.  This pins down the order of the list: keywords win over names
      (`if` followed by `fy` is the keyword), two-character comparators win over their
      one-character prefixes, and `-` is always a token of its own. */
  lemma StepSpell(tok: Token, rest: string)
    requires Lexable(tok) && Delimited(tok, rest)
    ensures StepP(Spell(tok) + rest) == Ok((tok, rest))
  {
    match tok
    case OutputCmd | IfKeyword | ElseKeyword | WhileKeyword => StepKeyword(tok, rest);
    case NewLine =>
      assert StepP(Spell(tok) + rest) == Ok((tok, rest)) by {
        assert Spell(tok) == "\n";
        StepNewLine(rest);
      }
    case OpenParen | CloseParen | OpenBrace | CloseBrace => StepBracket(tok, rest);
    case Cmp(c) => StepComparison(c, rest);
    case PlusSign | MinusSign | Equals | MultSign | DivideSign | ModuloSign => StepOperator(tok, rest);
    case Number(n) => StepNumber(n, rest);
    case Ident(id) => StepIdent(id, rest);
  }

  // ---------------------------------------------------------------- whole texts

  /** The text of a token sequence, each token spelled out with nothing in between. */
  function Print(toks: seq<Token>): string {
    if |toks| == 0 then "" else Spell(toks[0]) + Print(toks[1..])
  }

  /** Whether every token of `toks` is one the lexer produces and is delimited by what follows
      it, up to `rest`. */
  predicate Delimits(toks: seq<Token>, rest: string) {
    |toks| == 0 ||
    (Lexable(toks[0]) && Delimited(toks[0], Print(toks[1..]) + rest) && Delimits(toks[1..], rest))
  }

  /** Every token is read back from its own spelling by one step of `token()`. */
  lemma StepSpellAll()
    ensures forall tok, rest :: Lexable(tok) && Delimited(tok, rest) ==> StepP(Spell(tok) + rest) == Ok((tok, rest))
  {
    forall tok, rest | Lexable(tok) && Delimited(tok, rest) ensures StepP(Spell(tok) + rest) == Ok((tok, rest)) {
      StepSpell(tok, rest);
    }
  }

  /** The repetition of any step that reads back every token from its spelling reads back a
      printed sequence of tokens. */
  lemma {:induction false} RepeatPrinted(step: Parser<char, Token>, toks: seq<Token>, rest: string)
    requires forall tok, r :: Lexable(tok) && Delimited(tok, r) ==> step(Spell(tok) + r) == Ok((tok, r))
    requires Delimits(toks, rest) && step(rest).Err?
    ensures Repeat(step, Print(toks) + rest) == Ok((toks, rest))
    decreases |toks|
  {
    if |toks| == 0 {
      assert Print(toks) + rest == rest;
      RepeatNil(step, rest);
    } else {
      var t, tail := toks[0], Print(toks[1..]) + rest;
      assert [t] + toks[1..] == toks;
      assert Print(toks) + rest == Spell(t) + tail;
      SpellNonEmpty(t);
      RepeatPrinted(step, toks[1..], rest);
      RepeatCons(step, Spell(t) + tail, t, tail, toks[1..], rest);
    }
  }

  /** Lexing the printed tokens gives the tokens back and stops at `rest`, provided nothing can
      be read from `rest`. */
  lemma LexPrinted(toks: seq<Token>, rest: string)
    requires Delimits(toks, rest) && StepP(rest).Err?
    ensures Lex(Print(toks) + rest) == Ok((toks, rest))
  {
    StepSpellAll();
    RepeatPrinted(StepP, toks, rest);
  }

  /** A whole printed text is lexed back to its tokens. */
  lemma LexPrintedAll(toks: seq<Token>)
    requires Delimits(toks, [])
    ensures Lex(Print(toks)) == Ok((toks, []))
  {
    StepEmpty();
    LexPrinted(toks, []);
    assert Print(toks) + [] == Print(toks);
  }

  predicate AllSpace(ws: string) {
    forall i :: 0 <= i < |ws| ==> IsSpace(ws[i])
  }

  /** A line break swallows the whitespace after it, further line breaks included: blank lines
      give a single `NewLine` token.  The break may be written `\r\n`. */
  lemma BlankLinesAbsorbed(cr: bool, ws: string, rest: string)
    requires AllSpace(ws) && Delimited(NewLine, rest)
    ensures StepP((if cr then "\r\n" else "\n") + ws + rest) == Ok((NewLine, rest))
  {
    var s := (if cr then "\r\n" else "\n") + ws + rest;
    assert |s| > 0 && (s[0] == '\r' || s[0] == '\n') && MatchPattern(LineBreak, s) == Some(rest) by {
      LineBreakSkips(cr, ws, rest);
    }
    assert forall j :: 0 <= j < 4 && MayLead(j, s[0]) ==> MatchPattern(PatternAt(j), s).None? by {
      NothingBefore(4, s);
    }
    assert Literals[4] == (LineBreak, NewLine);
    StepAtLiteral(4, s);
  }

  lemma LineBreakSkips(cr: bool, ws: string, rest: string)
    requires AllSpace(ws) && Delimited(NewLine, rest)
    ensures var s := (if cr then "\r\n" else "\n") + ws + rest;
      |s| > 0 && (s[0] == '\r' || s[0] == '\n') && MatchPattern(LineBreak, s) == Some(rest)
  {
    var brk := if cr then "\r\n" else "\n";
    var s := brk + ws + rest;
    assert s[0] == brk[0];
    NoBlanks(s);
    var u := if StartsWith(s, "\r") then s[1..] else s;
    assert u == "\n" + ws + rest by {
      if cr {
        assert StartsWith(s, "\r");
        assert s[1..] == "\n" + ws + rest;
      } else {
        assert !StartsWith(s, "\r");
      }
    }
    assert StartsWith(u, "\n");
    assert u[1..] == ws + rest;
    assert SkipSpace(ws + rest) == rest by {
      RunAppend(IsSpace, ws, rest);
      assert Run(IsSpace, rest) == 0;
      assert (ws + rest)[|ws|..] == rest;
    }
  }

  /** An opening bracket swallows the whitespace after it, line breaks included: no `NewLine`
      token follows `(` or `{`. */
  lemma OpenBracketAbsorbs(tok: Token, ws: string, rest: string)
    requires tok.OpenParen? || tok.OpenBrace?
    requires AllSpace(ws) && Delimited(tok, rest)
    ensures StepP(Spell(tok) + ws + rest) == Ok((tok, rest))
  {
    assert SkipSpace(ws + rest) == rest by {
      RunAppend(IsSpace, ws, rest);
      assert Run(IsSpace, rest) == 0;
      assert (ws + rest)[|ws|..] == rest;
    }
    if tok.OpenParen? {
      assert Spell(tok) + ws + rest == "(" + (ws + rest);
      StepThenSpaceSkips(5, "(", tok, ws + rest, rest);
    } else {
      assert Spell(tok) + ws + rest == "{" + (ws + rest);
      StepThenSpaceSkips(7, "{", tok, ws + rest, rest);
    }
  }

  lemma StepThenSpaceSkips(i: nat, text: string, tok: Token, after: string, rest: string)
    requires i < |Literals| && Literals[i] == (ThenSpace(text), tok) && |text| > 0 && !IsBlank(text[0])
    requires SkipSpace(after) == rest
    requires forall j :: 0 <= j < i && MayLead(j, text[0]) ==> MatchPattern(PatternAt(j), text + after).None?
    ensures StepP(text + after) == Ok((tok, rest))
  {
    var s := text + after;
    NoBlanks(s);
    assert s[|text|..] == after;
    assert MatchPattern(ThenSpace(text), s) == Some(rest);
    StepAtLiteral(i, s);
  }

  // ---------------------------------------------------------------- examples

  /** `iffy` is printed from the keyword `if` and the name `fy` ... */
  lemma PrintIffy()
    ensures Print([IfKeyword, Ident("fy")]) == "iffy"
    ensures Print([Cmp(CGeq)]) == ">="
    ensures Print([MinusSign, Number(5)]) == "-5"
  {
    assert NatToString(5) == "5";
  }

  /** ... and lexed back to them: keywords need no word boundary. */
  lemma LexIffy()
    ensures Lex(Print([IfKeyword, Ident("fy")])) == Ok(([IfKeyword, Ident("fy")], []))
  {
    assert Lexable(Ident("fy")) by {
      assert "fy"[0] != "out"[0] && "fy"[0] != "if"[0];
      assert !StartsWith("fy", "else") && !StartsWith("fy", "while");
    }
    assert Delimits([IfKeyword, Ident("fy")], []);
    LexPrintedAll([IfKeyword, Ident("fy")]);
  }

  /** `>=` is one comparator, not `>` followed by `=`. */
  lemma LexGeq()
    ensures Lex(Print([Cmp(CGeq)])) == Ok(([Cmp(CGeq)], []))
  {
    LexPrintedAll([Cmp(CGeq)]);
  }

  /** A minus sign is a token of its own: `-5` is `MinusSign` and then the number 5. */
  lemma LexNegative()
    ensures Lex(Print([MinusSign, Number(5)])) == Ok(([MinusSign, Number(5)], []))
  {
    assert Delimits([MinusSign, Number(5)], []);
    LexPrintedAll([MinusSign, Number(5)]);
  }
}
