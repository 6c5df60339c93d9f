/** The first front end of src/main.rs: a whitespace tokenizer, an expression grammar built
    from the combinators of src/parsers.rs, an evaluator over a name-to-integer environment,
    and `run`, which executes statements in order.  `run` prints what it computes; here it
    returns the lines it would print. */
module Pipeline {
  import opened Results
  import SliceParsers

  // ---------------------------------------------------------------- the old syntax

  datatype Token = Equals | Ident(name: string) | Number(num: int) | PlusSign | MultSign | OutputCmd | NewLine

  /** `Plus` sums its operands and `Mult` multiplies them. */
  datatype Expr = Variable(v: string) | Num(val: int) | Plus(ops: seq<Expr>) | Mult(ops: seq<Expr>)

  datatype Statement = Assign(target: string, e: Expr) | Output(e: Expr)

  /** What `{}` prints for a token, after `#[deriving(Show)]`. */
  function Show(t: Token): string {
    match t
    case Equals => "Equals"
    case Ident(s) => "Ident(" + s + ")"
    case Number(n) => "Number(" + IntToString(n) + ")"
    case PlusSign => "PlusSign"
    case MultSign => "MultSign"
    case OutputCmd => "OutputCmd"
    case NewLine => "NewLine"
  }

  // ---------------------------------------------------------------- splitting and trimming

  /** The position of the first `c` in `s`, or `|s|` when there is none. */
  function IndexOf(s: string, c: char): (i: nat)
    ensures i <= |s|
  {
    if |s| == 0 || s[0] == c then 0 else 1 + IndexOf(s[1..], c)
  }

  lemma {:induction false} IndexOfSpec(s: string, c: char)
    ensures IndexOf(s, c) < |s| ==> s[IndexOf(s, c)] == c
    ensures forall j :: 0 <= j < IndexOf(s, c) ==> s[j] != c
  {
    if |s| > 0 && s[0] != c {
      IndexOfSpec(s[1..], c);
      forall j | 0 <= j < IndexOf(s, c) ensures s[j] != c {
        if j > 0 {
          assert s[j] == s[1..][j - 1];
        }
      }
    }
  }

  /** `str::split(c)`: the pieces between the occurrences of `c`; an input with no `c` is one
      piece, and two adjacent separators leave an empty piece between them. */
  function Split(s: string, c: char): seq<string>
    decreases |s|
  {
    var i := IndexOf(s, c);
    if i == |s| then [s] else [s[..i]] + Split(s[i + 1..], c)
  }

  /** The inverse of `Split`: the pieces with `c` between each two of them. */
  function Join(parts: seq<string>, c: char): string
    decreases |parts|
  {
    if |parts| == 0 then ""
    else if |parts| == 1 then parts[0]
    else parts[0] + [c] + Join(parts[1..], c)
  }

  /** Joining the pieces back gives the text that was split. */
  lemma {:induction false} JoinSplit(s: string, c: char)
    ensures Join(Split(s, c), c) == s
    decreases |s|
  {
    var i := IndexOf(s, c);
    IndexOfSpec(s, c);
    if i < |s| {
      var rest := s[i + 1..];
      JoinSplit(rest, c);
      var tail := Split(rest, c);
      assert Split(s, c) == [s[..i]] + tail;
      assert ([s[..i]] + tail)[1..] == tail;
      assert s == s[..i] + [c] + rest;
    }
  }

  /** There is one piece more than there are separators, and no piece holds a separator. */
  lemma {:induction false} SplitCount(s: string, c: char)
    ensures |Split(s, c)| == multiset(s)[c] + 1
    ensures forall k :: 0 <= k < |Split(s, c)| ==> c !in Split(s, c)[k]
    decreases |s|
  {
    var i := IndexOf(s, c);
    IndexOfSpec(s, c);
    if i == |s| {
      assert c !in s;
    } else {
      var rest := s[i + 1..];
      SplitCount(rest, c);
      assert s == s[..i] + [c] + rest;
      assert multiset(s) == multiset(s[..i]) + multiset([c]) + multiset(rest);
      assert c !in s[..i];
      var parts := Split(s, c);
      assert parts == [s[..i]] + Split(rest, c);
      forall k | 0 <= k < |parts| ensures c !in parts[k] {
        if k > 0 {
          assert parts[k] == Split(rest, c)[k - 1];
        }
      }
    }
  }

  /** Splitting pieces that hold no separator, joined by it, gives the pieces back. */
  lemma {:induction false} SplitJoin(parts: seq<string>, c: char)
    requires |parts| > 0
    requires forall k :: 0 <= k < |parts| ==> c !in parts[k]
    ensures Split(Join(parts, c), c) == parts
    decreases |parts|
  {
    var s := Join(parts, c);
    assert parts[0] in parts;
    if |parts| > 1 {
      var tail := parts[1..];
      var rest := Join(tail, c);
      assert s == parts[0] + ([c] + rest);
      assert IndexOf(s, c) == |parts[0]| by { FirstIndex(parts[0], c, [c] + rest); }
      assert s[|parts[0]| + 1..] == rest && s[..|parts[0]|] == parts[0];
      assert Split(s, c) == [parts[0]] + Split(rest, c);
      assert Split(rest, c) == tail by {
        forall k | 0 <= k < |tail| ensures c !in tail[k] {
          assert tail[k] == parts[k + 1];
        }
        SplitJoin(tail, c);
      }
      assert [parts[0]] + tail == parts;
    } else {
      assert s == parts[0] + "";
      FirstIndex(parts[0], c, "");
    }
  }

  /** The first `c` of `p + rest`, when `p` holds none, is the first of `rest`. */
  lemma {:induction false} FirstIndex(p: string, c: char, rest: string)
    requires c !in p
    requires rest == "" || rest[0] == c
    ensures IndexOf(p + rest, c) == |p|
    decreases |p|
  {
    if |p| > 0 {
      assert (p + rest)[1..] == p[1..] + rest;
      assert p[0] in p;
      FirstIndex(p[1..], c, rest);
    }
  }

  /** `char::is_whitespace` on ASCII. */
  predicate IsWhite(c: char) {
    c == ' ' || c == '\t' || c == '\n' || c == '\r' || c == '\U{000B}' || c == '\U{000C}'
  }

  predicate AllWhite(s: string) {
    forall k :: 0 <= k < |s| ==> IsWhite(s[k])
  }

  function TrimStart(s: string): (r: string)
    ensures |r| <= |s|
    decreases |s|
  {
    if |s| > 0 && IsWhite(s[0]) then TrimStart(s[1..]) else s
  }

  function TrimEnd(s: string): (r: string)
    ensures |r| <= |s|
    decreases |s|
  {
    if |s| > 0 && IsWhite(s[|s| - 1]) then TrimEnd(s[..|s| - 1]) else s
  }

  /** `str::trim`: the text without its leading and trailing whitespace. */
  function Trim(s: string): string {
    TrimEnd(TrimStart(s))
  }

  lemma {:induction false} TrimStartSpec(s: string)
    ensures |TrimStart(s)| <= |s| && TrimStart(s) == s[|s| - |TrimStart(s)|..]
    ensures AllWhite(s[..|s| - |TrimStart(s)|])
    ensures TrimStart(s) == "" || !IsWhite(TrimStart(s)[0])
    decreases |s|
  {
    if |s| > 0 && IsWhite(s[0]) {
      TrimStartSpec(s[1..]);
      var k := |s| - |TrimStart(s)|;
      assert s[..k] == [s[0]] + s[1..][..k - 1];
    }
  }

  lemma {:induction false} TrimEndSpec(s: string)
    ensures |TrimEnd(s)| <= |s| && TrimEnd(s) == s[..|TrimEnd(s)|]
    ensures AllWhite(s[|TrimEnd(s)|..])
    ensures TrimEnd(s) == "" || !IsWhite(TrimEnd(s)[|TrimEnd(s)| - 1])
    decreases |s|
  {
    if |s| > 0 && IsWhite(s[|s| - 1]) {
      var s' := s[..|s| - 1];
      TrimEndSpec(s');
      var k := |TrimEnd(s)|;
      assert s[k..] == s'[k..] + [s[|s| - 1]];
    }
  }

  /** The trimmed text is a piece of the original with only whitespace around it, and it
      neither starts nor ends with whitespace. */
  lemma TrimSpec(s: string)
    ensures var t := Trim(s); var k := |s| - |TrimStart(s)|;
      k + |t| <= |s| && s[k..k + |t|] == t && AllWhite(s[..k]) && AllWhite(s[k + |t|..]) &&
      (t == "" || (!IsWhite(t[0]) && !IsWhite(t[|t| - 1])))
  {
    var u := TrimStart(s);
    TrimStartSpec(s);
    TrimEndSpec(u);
    var k := |s| - |u|;
    var t := Trim(s);
    assert s[k..] == u;
    assert s[k..k + |t|] == u[..|t|];
    assert s[k + |t|..] == u[|t|..];
    if t != "" {
      assert t[0] == u[0];
    }
  }

  /** Text that neither starts nor ends with whitespace is left as it is. */
  lemma TrimKeeps(s: string)
    requires s == "" || (!IsWhite(s[0]) && !IsWhite(s[|s| - 1]))
    ensures Trim(s) == s
  {
  }

  /** Trimming twice is trimming once. */
  lemma TrimIdempotent(s: string)
    ensures Trim(Trim(s)) == Trim(s)
  {
    TrimSpec(s);
    TrimKeeps(Trim(s));
  }

  // ---------------------------------------------------------------- reading integers

  /** `from_str::<int>`: an optional `-` followed by one or more decimal digits. */
  function ParseInt(w: string): Option<int> {
    if |w| > 1 && w[0] == '-' && AllDigits(w[1..]) then Some(-(DigitsValue(w[1..]) as int))
    else if |w| > 0 && AllDigits(w) then Some(DigitsValue(w))
    else None
  }

  /** What `ParseInt` accepts: the digits, with one `-` in front or none. */
  lemma ParseIntAccepts(w: string)
    ensures ParseInt(w).Some? <==>
      (|w| > 0 && AllDigits(w)) || (|w| > 1 && w[0] == '-' && AllDigits(w[1..]))
  {
    if |w| > 0 && AllDigits(w) {
      assert IsDigit(w[0]);
    }
  }

  /** Reading back the decimal text of an integer gives the integer. */
  lemma ParseShow(i: int)
    ensures ParseInt(IntToString(i)) == Some(i)
  {
    var s := IntToString(i);
    if i < 0 {
      DigitsRoundTrip(-i);
      assert s[1..] == NatToString(-i);
    } else {
      DigitsRoundTrip(i);
      assert IsDigit(s[0]);
    }
  }

  // ---------------------------------------------------------------- tokenize

  /** The token of one trimmed word; an empty word gives none. */
  function WordTokens(w: string): seq<Token> {
    match w
    case "=" => [Equals]
    case "+" => [PlusSign]
    case "*" => [MultSign]
    case "out" => [OutputCmd]
    case "" => []
    case _ => (match ParseInt(w) case Some(n) => [Number(n)] case None => [Ident(w)])
  }

  /** The tokens of the words of a line, in order. */
  function WordsTokens(words: seq<string>): seq<Token>
    decreases |words|
  {
    if |words| == 0 then []
    else WordsTokens(words[..|words| - 1]) + WordTokens(Trim(words[|words| - 1]))
  }

  /** The tokens of each line, each line closed by a `NewLine`. */
  function LinesTokens(lines: seq<string>): seq<Token>
    decreases |lines|
  {
    if |lines| == 0 then []
    else LinesTokens(lines[..|lines| - 1]) + WordsTokens(Split(lines[|lines| - 1], ' ')) + [NewLine]
  }

  /** What `tokenize` returns for `input`. */
  function Tokens(input: string): seq<Token> {
    LinesTokens(Split(input, '\n'))
  }

  /** The `match` of `tokenize` on one trimmed word, pushing its token onto `build`. */
  method PushWord(build: seq<Token>, w: string) returns (build': seq<Token>)
    ensures build' == build + WordTokens(w)
  {
    build' := build;
    match w {
      case "=" => build' := build' + [Equals];
      case "+" => build' := build' + [PlusSign];
      case "*" => build' := build' + [MultSign];
      case "out" => build' := build' + [OutputCmd];
      case "" =>
      case other =>
        match ParseInt(other) {
          case Some(num) => build' := build' + [Number(num)];
          case None => build' := build' + [Ident(other)];
        }
    }
  }

  /** The inner loop of `tokenize`: the words of one line, then the `NewLine` closing it. */
  method PushLine(build: seq<Token>, line: string) returns (build': seq<Token>)
    ensures build' == build + WordsTokens(Split(line, ' ')) + [NewLine]
  {
    var toks := Split(line, ' ');
    build' := build;
    for j := 0 to |toks|
      invariant build' == build + WordsTokens(toks[..j])
    {
      assert toks[..j + 1][..j] == toks[..j];
      build' := PushWord(build', Trim(toks[j]));
    }
    assert toks[..|toks|] == toks;
    build' := build' + [NewLine];
  }

  /** The outer loop of `tokenize`, pushing onto `build`. */
  method Tokenize(input: string) returns (build: seq<Token>)
    ensures build == Tokens(input)
  {
    var lines := Split(input, '\n');
    build := [];
    for i := 0 to |lines|
      invariant build == LinesTokens(lines[..i])
    {
      build := PushLine(build, lines[i]);
      assert lines[..i + 1][..i] == lines[..i];
    }
    assert lines[..|lines|] == lines;
  }

  /** A word gives at most one token, and never a `NewLine`. */
  lemma WordTokensShape(w: string)
    ensures |WordTokens(w)| <= 1 && NewLine !in WordTokens(w)
    ensures WordTokens(w) == [] <==> w == ""
  {
  }

  lemma {:induction false} WordsNoNewLine(words: seq<string>)
    ensures NewLine !in WordsTokens(words)
    decreases |words|
  {
    if |words| > 0 {
      WordsNoNewLine(words[..|words| - 1]);
      WordTokensShape(Trim(words[|words| - 1]));
    }
  }

  lemma {:induction false} LinesNewLines(lines: seq<string>)
    ensures multiset(LinesTokens(lines))[NewLine] == |lines|
    decreases |lines|
  {
    if |lines| > 0 {
      var last := lines[|lines| - 1];
      LinesNewLines(lines[..|lines| - 1]);
      WordsNoNewLine(Split(last, ' '));
      assert multiset(WordsTokens(Split(last, ' ')))[NewLine] == 0;
    }
  }

  /** `tokenize` ends every line with `NewLine`, the last one too: there is one `NewLine` more
      than there are line breaks in the input. */
  lemma TokenizeNewLines(input: string)
    ensures multiset(Tokens(input))[NewLine] == multiset(input)['\n'] + 1
  {
    SplitCount(input, '\n');
    LinesNewLines(Split(input, '\n'));
  }

  // ---------------------------------------------------------------- printing tokens back

  /** The text of a token as `tokenize` reads it. */
  function Spell(t: Token): string {
    match t
    case Equals => "="
    case PlusSign => "+"
    case MultSign => "*"
    case OutputCmd => "out"
    case NewLine => "\n"
    case Number(n) => IntToString(n)
    case Ident(s) => s
  }

  /** A name `tokenize` reads back as an identifier: a non-empty word without whitespace that
      is neither an operator, `out`, nor an integer. */
  predicate IsName(s: string) {
    s != "" && (forall k :: 0 <= k < |s| ==> !IsWhite(s[k])) &&
    s != "=" && s != "+" && s != "*" && s != "out" && ParseInt(s).None?
  }

  /** A token one word can stand for. */
  predicate IsWord(t: Token) {
    t != NewLine && (t.Ident? ==> IsName(t.name))
  }

  lemma NumberSpelling(n: int)
    ensures var s := IntToString(n);
      s != "" && (forall k :: 0 <= k < |s| ==> !IsWhite(s[k])) &&
      s != "=" && s != "+" && s != "*" && s != "out"
  {
    var s := IntToString(n);
    if n < 0 {
      assert s == "-" + NatToString(-n);
      forall k | 0 <= k < |s| ensures !IsWhite(s[k]) {
        if k > 0 {
          assert s[k] == NatToString(-n)[k - 1];
        }
      }
    } else {
      assert IsDigit(s[0]);
    }
  }

  /** The spelling of a word token contains no whitespace. */
  lemma SpellNoWhite(t: Token)
    requires IsWord(t)
    ensures Spell(t) != "" && forall k :: 0 <= k < |Spell(t)| ==> !IsWhite(Spell(t)[k])
  {
    if t.Number? {
      NumberSpelling(t.num);
    }
  }

  /** A word token reads back as itself. */
  lemma WordRoundTrip(t: Token)
    requires IsWord(t)
    ensures WordTokens(Trim(Spell(t))) == [t]
  {
    SpellNoWhite(t);
    TrimKeeps(Spell(t));
    if t.Number? {
      NumberSpelling(t.num);
      ParseShow(t.num);
    }
  }

  /** The spellings of the tokens of a line, in order. */
  function Spellings(line: seq<Token>): seq<string>
    decreases |line|
  {
    if |line| == 0 then [] else Spellings(line[..|line| - 1]) + [Spell(line[|line| - 1])]
  }

  lemma {:induction false} SpellingsAt(line: seq<Token>)
    ensures |Spellings(line)| == |line|
    ensures forall k :: 0 <= k < |line| ==> Spellings(line)[k] == Spell(line[k])
    decreases |line|
  {
    if |line| > 0 {
      SpellingsAt(line[..|line| - 1]);
    }
  }

  /** A line of word tokens, the words separated by single spaces. */
  function PrintLine(line: seq<Token>): string {
    Join(Spellings(line), ' ')
  }

  lemma WordsTokensSnoc(words: seq<string>, w: string)
    ensures WordsTokens(words + [w]) == WordsTokens(words) + WordTokens(Trim(w))
  {
    assert (words + [w])[..|words|] == words;
  }

  lemma {:induction false} WordsOfSpellings(line: seq<Token>)
    requires forall k :: 0 <= k < |line| ==> IsWord(line[k])
    ensures WordsTokens(Spellings(line)) == line
    decreases |line|
  {
    if |line| > 0 {
      var init, last := line[..|line| - 1], line[|line| - 1];
      calc {
        WordsTokens(Spellings(line));
        WordsTokens(Spellings(init) + [Spell(last)]);
        { WordsTokensSnoc(Spellings(init), Spell(last)); }
        WordsTokens(Spellings(init)) + WordTokens(Trim(Spell(last)));
        { WordsOfSpellings(init); WordRoundTrip(last); }
        init + [last];
        line;
      }
    }
  }

  /** Tokenizing a printed line gives its tokens back. */
  lemma LineRoundTrip(line: seq<Token>)
    requires forall k :: 0 <= k < |line| ==> IsWord(line[k])
    ensures WordsTokens(Split(PrintLine(line), ' ')) == line
    ensures '\n' !in PrintLine(line)
  {
    var words := Spellings(line);
    SpellingsAt(line);
    forall k | 0 <= k < |words| ensures ' ' !in words[k] && '\n' !in words[k] {
      SpellNoWhite(line[k]);
    }
    if |line| == 0 {
      assert PrintLine(line) == "";
      assert Split("", ' ') == [""];
      assert WordsTokens([""]) == WordsTokens([]) + WordTokens(Trim(""));
    } else {
      SplitJoin(words, ' ');
      WordsOfSpellings(line);
      NoCharInJoin(words, ' ', '\n');
    }
  }

  lemma {:induction false} NoCharInJoin(parts: seq<string>, c: char, d: char)
    requires c != d
    requires forall k :: 0 <= k < |parts| ==> d !in parts[k]
    ensures d !in Join(parts, c)
    decreases |parts|
  {
    if |parts| > 1 {
      NoCharInJoin(parts[1..], c, d);
      assert parts[0] in parts;
    } else if |parts| == 1 {
      assert parts[0] in parts;
    }
  }

  /** The tokens of several lines, each followed by `NewLine`. */
  function LinesOf(lines: seq<seq<Token>>): seq<Token>
    decreases |lines|
  {
    if |lines| == 0 then [] else LinesOf(lines[..|lines| - 1]) + lines[|lines| - 1] + [NewLine]
  }

  /** The printed lines, in order. */
  function Texts(lines: seq<seq<Token>>): seq<string>
    decreases |lines|
  {
    if |lines| == 0 then [] else Texts(lines[..|lines| - 1]) + [PrintLine(lines[|lines| - 1])]
  }

  lemma {:induction false} TextsAt(lines: seq<seq<Token>>)
    ensures |Texts(lines)| == |lines|
    ensures forall k :: 0 <= k < |lines| ==> Texts(lines)[k] == PrintLine(lines[k])
    decreases |lines|
  {
    if |lines| > 0 {
      TextsAt(lines[..|lines| - 1]);
    }
  }

  /** Several printed lines, one below the other. */
  function PrintLines(lines: seq<seq<Token>>): string {
    Join(Texts(lines), '\n')
  }

  lemma {:induction false} LinesOfPrinted(lines: seq<seq<Token>>)
    requires forall k, j :: 0 <= k < |lines| && 0 <= j < |lines[k]| ==> IsWord(lines[k][j])
    ensures LinesTokens(Texts(lines)) == LinesOf(lines)
    decreases |lines|
  {
    if |lines| > 0 {
      var init, last := lines[..|lines| - 1], lines[|lines| - 1];
      var texts := Texts(lines);
      TextsAt(init);
      assert texts[..|texts| - 1] == Texts(init);
      assert LinesTokens(Texts(init)) == LinesOf(init) by { LinesOfPrinted(init); }
      assert WordsTokens(Split(PrintLine(last), ' ')) == last by { LineRoundTrip(last); }
    }
  }

  /** `tokenize` reads printed lines of word tokens back as those tokens, each line closed by
      `NewLine`. */
  lemma TokenizePrinted(lines: seq<seq<Token>>)
    requires |lines| > 0
    requires forall k, j :: 0 <= k < |lines| && 0 <= j < |lines[k]| ==> IsWord(lines[k][j])
    ensures Tokens(PrintLines(lines)) == LinesOf(lines)
  {
    var texts := Texts(lines);
    TextsAt(lines);
    forall k | 0 <= k < |texts| ensures '\n' !in texts[k] {
      LineRoundTrip(lines[k]);
    }
    SplitJoin(texts, '\n');
    LinesOfPrinted(lines);
  }

  // ---------------------------------------------------------------- the expression grammar

  /** The matcher of `match_num`. */
  function NumOf(t: Token): Result<Expr> {
    match t
    case Number(n) => Ok(Num(n))
    case _ => Err("wrong type, expected number, got " + Show(t))
  }

  /** `match_num()`: a `MatchParser` accepting one number token. */
  function MatchNum(d: seq<Token>): Result<(Expr, seq<Token>)> {
    SliceParsers.Match(NumOf, d)
  }

  /** `literal(PlusSign)` and `literal(MultSign)`. */
  function PlusLit(d: seq<Token>): Result<(Token, seq<Token>)> {
    SliceParsers.Literal(PlusSign, d)
  }

  function MultLit(d: seq<Token>): Result<(Token, seq<Token>)> {
    SliceParsers.Literal(MultSign, d)
  }

  lemma MatchNumProgress()
    ensures Progressing(MatchNum)
  {
  }

  lemma LitNonGrowing()
    ensures NonGrowing(PlusLit) && NonGrowing(MultLit)
  {
  }

  /** The `RepSepParser` inside `plus!()`: at least two numbers separated by `+`. */
  function PlusReps(d: seq<Token>): Result<(seq<Expr>, seq<Token>)> {
    MatchNumProgress();
    LitNonGrowing();
    SliceParsers.RepSep(MatchNum, PlusLit, 2, d)
  }

  /** `plus!()`: the numbers of a sum, wrapped in `Plus`. */
  function PlusExpr(d: seq<Token>): Result<(Expr, seq<Token>)> {
    SliceParsers.Map(PlusReps, (ops: seq<Expr>) => Plus(ops), d)
  }

  /** `simple_expr!()`: an `OrParser` trying `plus!()` first and `match_num()` second. */
  function SimpleExpr(d: seq<Token>): Result<(Expr, seq<Token>)> {
    SliceParsers.Or(() => PlusExpr, () => MatchNum, d)
  }

  lemma SimpleProgress()
    ensures Progressing(SimpleExpr)
  {
    forall d | PlusReps(d).Ok? ensures |PlusReps(d).value.1| < |d| {
      MatchNumProgress();
      LitNonGrowing();
      SliceParsers.ChainProgress(MatchNum, PlusLit, d);
    }
  }

  /** The `RepSepParser` inside `mult`: at least two simple expressions separated by `*`. */
  function MultReps(d: seq<Token>): Result<(seq<Expr>, seq<Token>)> {
    SimpleProgress();
    LitNonGrowing();
    SliceParsers.RepSep(SimpleExpr, MultLit, 2, d)
  }

  /** `mult`: the factors of a product, wrapped in `Mult`. */
  function MultExpr(d: seq<Token>): Result<(Expr, seq<Token>)> {
    SliceParsers.Map(MultReps, (ops: seq<Expr>) => Mult(ops), d)
  }

  /** `expr()`: a product if there is one, otherwise a simple expression. */
  function ExprParser(d: seq<Token>): Result<(Expr, seq<Token>)> {
    SliceParsers.Or(() => MultExpr, () => SimpleExpr, d)
  }

  // ---------------------------------------------------------------- what the grammar accepts

  /** The tokens an expression is written with: operands separated by their operator. */
  function TokensOf(e: Expr): seq<Token>
    decreases e, 1
  {
    match e
    case Variable(v) => [Ident(v)]
    case Num(n) => [Number(n)]
    case Plus(ops) => Spaced(ops, PlusSign)
    case Mult(ops) => Spaced(ops, MultSign)
  }

  function Spaced(es: seq<Expr>, sep: Token): seq<Token>
    decreases es, 0
  {
    if |es| == 0 then []
    else if |es| == 1 then TokensOf(es[0])
    else TokensOf(es[0]) + [sep] + Spaced(es[1..], sep)
  }

  /** A sum `plus!()` builds: two or more numbers. */
  predicate IsSum(e: Expr) {
    e.Plus? && |e.ops| >= 2 && forall i :: 0 <= i < |e.ops| ==> e.ops[i].Num?
  }

  /** What `simple_expr!()` builds. */
  predicate IsSimple(e: Expr) {
    e.Num? || IsSum(e)
  }

  /** A product `mult` builds: two or more simple expressions. */
  predicate IsProduct(e: Expr) {
    e.Mult? && |e.ops| >= 2 && forall i :: 0 <= i < |e.ops| ==> IsSimple(e.ops[i])
  }

  /** What `expr()` builds. */
  predicate IsExpr(e: Expr) {
    IsProduct(e) || IsSimple(e)
  }

  predicate Leads(r: seq<Token>, t: Token) {
    |r| > 0 && r[0] == t
  }

  /** `rep` reads `e` back from its tokens whatever follows them, as long as it `fits`. */
  ghost predicate ReadsBack(rep: Parser<Token, Expr>, e: Expr, fits: seq<Token> -> bool) {
    forall r :: fits(r) ==> rep(TokensOf(e) + r) == Ok((e, r))
  }

  /** The last link of a chain: `rep` reads `e`, and `sep` then fails on what follows. */
  lemma ChainLast(rep: Parser<Token, Expr>, sepP: Parser<Token, Token>, sep: Token,
                  fits: seq<Token> -> bool, e: Expr, rest: seq<Token>)
    requires Progressing(rep) && NonGrowing(sepP)
    requires forall d :: sepP(d) == SliceParsers.Literal(sep, d)
    requires ReadsBack(rep, e, fits) && fits(rest) && !Leads(rest, sep)
    ensures SliceParsers.Chain(rep, sepP, TokensOf(e) + rest) == Ok(([e], rest))
  {
    assert rep(TokensOf(e) + rest) == Ok((e, rest));
    assert sepP(rest).Err?;
  }

  /** A link before another: `rep` reads `e`, and `sep` then accepts the separator. */
  lemma ChainLink(rep: Parser<Token, Expr>, sepP: Parser<Token, Token>, sep: Token,
                  fits: seq<Token> -> bool, e: Expr, tail: seq<Token>)
    requires Progressing(rep) && NonGrowing(sepP)
    requires forall d :: sepP(d) == SliceParsers.Literal(sep, d)
    requires ReadsBack(rep, e, fits) && fits([sep] + tail)
    ensures SliceParsers.Chain(rep, sepP, TokensOf(e) + ([sep] + tail)) ==
              SliceParsers.Prepend([e], SliceParsers.Chain(rep, sepP, tail))
  {
    var r := [sep] + tail;
    assert rep(TokensOf(e) + r) == Ok((e, r));
    assert sepP(r) == Ok((sep, tail));
  }

  /** A chain of separated expressions, each read back by `rep`, is read back whole. */
  lemma {:induction false} ChainSpaced(rep: Parser<Token, Expr>, sepP: Parser<Token, Token>, sep: Token,
                                       fits: seq<Token> -> bool, es: seq<Expr>, rest: seq<Token>)
    requires Progressing(rep) && NonGrowing(sepP)
    requires forall d :: sepP(d) == SliceParsers.Literal(sep, d)
    requires |es| >= 1 && forall i :: 0 <= i < |es| ==> ReadsBack(rep, es[i], fits)
    requires forall r :: Leads(r, sep) ==> fits(r)
    requires fits(rest) && !Leads(rest, sep)
    ensures SliceParsers.Chain(rep, sepP, Spaced(es, sep) + rest) == Ok((es, rest))
    decreases |es|
  {
    var e := es[0];
    assert ReadsBack(rep, e, fits);
    if |es| == 1 {
      assert Spaced(es, sep) == TokensOf(e);
      ChainLast(rep, sepP, sep, fits, e, rest);
      assert [e] == es;
    } else {
      var tail := Spaced(es[1..], sep) + rest;
      assert Spaced(es, sep) + rest == TokensOf(e) + ([sep] + tail);
      assert Leads([sep] + tail, sep);
      ChainLink(rep, sepP, sep, fits, e, tail);
      assert SliceParsers.Chain(rep, sepP, tail) == Ok((es[1..], rest)) by {
        forall i | 0 <= i < |es[1..]| ensures ReadsBack(rep, es[1..][i], fits) {
          assert es[1..][i] == es[i + 1];
        }
        ChainSpaced(rep, sepP, sep, fits, es[1..], rest);
      }
      assert [e] + es[1..] == es;
    }
  }

  /** Whatever `rep` accepts is the tokens of what it returns, and `good`. */
  ghost predicate Spells(rep: Parser<Token, Expr>, good: Expr -> bool) {
    forall d :: rep(d).Ok? ==> d == TokensOf(rep(d).value.0) + rep(d).value.1 && good(rep(d).value.0)
  }

  /** Conversely, a chain is the tokens of what it returns, separated by `sep`. */
  lemma {:induction false} ChainShape(rep: Parser<Token, Expr>, sepP: Parser<Token, Token>, sep: Token,
                                      good: Expr -> bool, d: seq<Token>)
    requires Progressing(rep) && NonGrowing(sepP)
    requires forall d :: sepP(d) == SliceParsers.Literal(sep, d)
    requires Spells(rep, good)
    ensures var c := SliceParsers.Chain(rep, sepP, d);
      c.Ok? ==> |c.value.0| >= 1 && d == Spaced(c.value.0, sep) + c.value.1 &&
                forall i :: 0 <= i < |c.value.0| ==> good(c.value.0[i])
    decreases |d|
  {
    var c := SliceParsers.Chain(rep, sepP, d);
    if c.Ok? {
      var e, r := rep(d).value.0, rep(d).value.1;
      assert d == TokensOf(e) + r && good(e);
      if sepP(r).Ok? {
        var tail := sepP(r).value.1;
        assert r == [sep] + tail;
        ChainShape(rep, sepP, sep, good, tail);
        var c2 := SliceParsers.Chain(rep, sepP, tail);
        assert c.value == ([e] + c2.value.0, c2.value.1);
        assert ([e] + c2.value.0)[1..] == c2.value.0;
        assert Spaced([e] + c2.value.0, sep) == TokensOf(e) + [sep] + Spaced(c2.value.0, sep);
      } else {
        assert c.value == ([e], r);
      }
    }
  }

  /** `match_num()` reads a number back whatever follows it, and accepts nothing else. */
  lemma MatchNumReads(e: Expr, fits: seq<Token> -> bool)
    requires e.Num?
    ensures ReadsBack(MatchNum, e, fits)
  {
    forall r | fits(r) ensures MatchNum(TokensOf(e) + r) == Ok((e, r)) {
      assert (TokensOf(e) + r)[1..] == r;
    }
  }

  lemma MatchNumSpells()
    ensures Spells(MatchNum, (e: Expr) => e.Num?)
  {
    forall d | MatchNum(d).Ok?
      ensures d == TokensOf(MatchNum(d).value.0) + MatchNum(d).value.1 && MatchNum(d).value.0.Num?
    {
      assert d == [d[0]] + d[1..];
    }
  }

  /** `plus!()` reads a sum back from its tokens when no `+` follows them. */
  lemma PlusReadsBack(e: Expr, r: seq<Token>)
    requires IsSum(e) && !Leads(r, PlusSign)
    ensures PlusExpr(TokensOf(e) + r) == Ok((e, r))
  {
    var any := (x: seq<Token>) => true;
    forall i | 0 <= i < |e.ops| ensures ReadsBack(MatchNum, e.ops[i], any) {
      MatchNumReads(e.ops[i], any);
    }
    MatchNumProgress();
    LitNonGrowing();
    ChainSpaced(MatchNum, PlusLit, PlusSign, any, e.ops, r);
    assert PlusReps(TokensOf(e) + r) == Ok((e.ops, r));
  }

  /** Whatever `plus!()` accepts is a sum of two or more numbers, written out. */
  lemma PlusSpells()
    ensures Spells(PlusExpr, IsSum)
  {
    forall d | PlusExpr(d).Ok?
      ensures d == TokensOf(PlusExpr(d).value.0) + PlusExpr(d).value.1 && IsSum(PlusExpr(d).value.0)
    {
      MatchNumProgress();
      LitNonGrowing();
      MatchNumSpells();
      ChainShape(MatchNum, PlusLit, PlusSign, (e: Expr) => e.Num?, d);
      SliceParsers.RepSepOutcome(MatchNum, PlusLit, 2, d);
    }
  }

  /** A lone number is not a sum: `plus!()` fails on it and `simple_expr!()` falls through to
      `match_num()`; a sum is read by `plus!()`. */
  lemma SimpleReadsBack(e: Expr, r: seq<Token>)
    requires IsSimple(e) && !Leads(r, PlusSign)
    ensures SimpleExpr(TokensOf(e) + r) == Ok((e, r))
  {
    if e.Num? {
      var any := (x: seq<Token>) => true;
      MatchNumReads(e, any);
      MatchNumProgress();
      LitNonGrowing();
      ChainLast(MatchNum, PlusLit, PlusSign, any, e, r);
      assert PlusExpr(TokensOf(e) + r).Err?;
    } else {
      PlusReadsBack(e, r);
    }
  }

  lemma SimpleSpells()
    ensures Spells(SimpleExpr, IsSimple)
  {
    PlusSpells();
    MatchNumSpells();
  }

  /** `mult` reads a product back from its tokens when neither `+` nor `*` follows them. */
  lemma MultReadsBack(e: Expr, r: seq<Token>)
    requires IsProduct(e) && !Leads(r, PlusSign) && !Leads(r, MultSign)
    ensures MultExpr(TokensOf(e) + r) == Ok((e, r))
  {
    var fits := (x: seq<Token>) => !Leads(x, PlusSign);
    forall i | 0 <= i < |e.ops| ensures ReadsBack(SimpleExpr, e.ops[i], fits) {
      forall x | fits(x) ensures SimpleExpr(TokensOf(e.ops[i]) + x) == Ok((e.ops[i], x)) {
        SimpleReadsBack(e.ops[i], x);
      }
    }
    SimpleProgress();
    LitNonGrowing();
    ChainSpaced(SimpleExpr, MultLit, MultSign, fits, e.ops, r);
    assert MultReps(TokensOf(e) + r) == Ok((e.ops, r));
  }

  /** Whatever `mult` accepts is a product of two or more simple expressions, written out. */
  lemma MultSpells()
    ensures Spells(MultExpr, IsProduct)
  {
    forall d | MultExpr(d).Ok?
      ensures d == TokensOf(MultExpr(d).value.0) + MultExpr(d).value.1 && IsProduct(MultExpr(d).value.0)
    {
      SimpleProgress();
      LitNonGrowing();
      SimpleSpells();
      ChainShape(SimpleExpr, MultLit, MultSign, IsSimple, d);
      SliceParsers.RepSepOutcome(SimpleExpr, MultLit, 2, d);
    }
  }

  /** `expr()` reads every expression it can build back from its tokens, when neither `+`
      nor `*` follows them: a simple expression is not a product, so `mult` fails on it. */
  lemma ExprRoundTrip(e: Expr, r: seq<Token>)
    requires IsExpr(e) && !Leads(r, PlusSign) && !Leads(r, MultSign)
    ensures ExprParser(TokensOf(e) + r) == Ok((e, r))
  {
    if IsProduct(e) {
      MultReadsBack(e, r);
    } else {
      var fits := (x: seq<Token>) => !Leads(x, PlusSign);
      forall x | fits(x) ensures SimpleExpr(TokensOf(e) + x) == Ok((e, x)) {
        SimpleReadsBack(e, x);
      }
      SimpleProgress();
      LitNonGrowing();
      ChainLast(SimpleExpr, MultLit, MultSign, fits, e, r);
      assert MultExpr(TokensOf(e) + r).Err?;
    }
  }

  /** Conversely, what `expr()` accepts is the tokens of an expression it can build, and the
      remainder is what follows them. */
  lemma ExprSpells(d: seq<Token>)
    requires ExprParser(d).Ok?
    ensures IsExpr(ExprParser(d).value.0)
    ensures d == TokensOf(ExprParser(d).value.0) + ExprParser(d).value.1
  {
    MultSpells();
    SimpleSpells();
  }

  /** `b + c + *...` is not a sum: after the second `+` no number follows, and the chain of
      `plus!()` fails there instead of stopping after `b + c`. */
  lemma SumBreaks(b: int, c: int, t: seq<Token>)
    ensures PlusExpr([Number(b)] + ([PlusSign] + ([Number(c)] + ([PlusSign] + ([MultSign] + t))))).Err?
  {
    var d3 := [MultSign] + t;
    var d2 := [Number(c)] + ([PlusSign] + d3);
    var d1 := [Number(b)] + ([PlusSign] + d2);
    MatchNumProgress();
    LitNonGrowing();
    assert MatchNum(d3).Err?;
    assert SliceParsers.Chain(MatchNum, PlusLit, d3).Err?;
    assert MatchNum(d2) == Ok((Num(c), [PlusSign] + d3));
    assert PlusLit([PlusSign] + d3) == Ok((PlusSign, d3));
    assert SliceParsers.Chain(MatchNum, PlusLit, d2).Err?;
    assert MatchNum(d1) == Ok((Num(b), [PlusSign] + d2));
    assert PlusLit([PlusSign] + d2) == Ok((PlusSign, d2));
    assert SliceParsers.Chain(MatchNum, PlusLit, d1).Err?;
  }

  /** So the factor after the `*` is the number `b` alone. */
  lemma FactorStops(b: int, c: int, t: seq<Token>)
    ensures var r1 := [PlusSign] + ([Number(c)] + ([PlusSign] + ([MultSign] + t)));
      SimpleExpr([Number(b)] + r1) == Ok((Num(b), r1))
  {
    var r1 := [PlusSign] + ([Number(c)] + ([PlusSign] + ([MultSign] + t)));
    SumBreaks(b, c, t);
    assert MatchNum([Number(b)] + r1) == Ok((Num(b), r1));
  }

  /** The expression of `main`, "4 * 6 + 3 + * 5 * 2", with its numbers abstracted: after
      `a * b` the sum `b + c + ...` breaks at the `*` following a `+`; `plus!()` does not back
      up to `b + c`, so the factor is the number `b` and the product stops before the first `+`. */
  lemma ExampleMain(a: int, b: int, c: int, t: seq<Token>)
    ensures ExprParser([Number(a), MultSign, Number(b), PlusSign, Number(c), PlusSign, MultSign] + t) ==
      Ok((Mult([Num(a), Num(b)]), [PlusSign, Number(c), PlusSign, MultSign] + t))
  {
    var r1 := [PlusSign] + ([Number(c)] + ([PlusSign] + ([MultSign] + t)));
    var d1 := [Number(b)] + r1;
    var d0 := [Number(a)] + ([MultSign] + d1);
    SimpleProgress();
    LitNonGrowing();
    assert SliceParsers.Chain(SimpleExpr, MultLit, d1) == Ok(([Num(b)], r1)) by {
      FactorStops(b, c, t);
      assert MultLit(r1).Err?;
    }
    assert SliceParsers.Chain(SimpleExpr, MultLit, d0) == Ok(([Num(a), Num(b)], r1)) by {
      assert SimpleExpr(d0) == Ok((Num(a), [MultSign] + d1)) by {
        SimpleReadsBack(Num(a), [MultSign] + d1);
      }
      assert MultLit([MultSign] + d1) == Ok((MultSign, d1));
      assert [Num(a)] + [Num(b)] == [Num(a), Num(b)];
    }
    assert MultExpr(d0) == Ok((Mult([Num(a), Num(b)]), r1));
    MainTokens(a, b, c, t);
  }

  /** The tokens of `main`'s expression, regrouped. */
  lemma MainTokens(a: int, b: int, c: int, t: seq<Token>)
    ensures [Number(a), MultSign, Number(b), PlusSign, Number(c), PlusSign, MultSign] + t ==
      [Number(a)] + ([MultSign] + ([Number(b)] + ([PlusSign] + ([Number(c)] + ([PlusSign] + ([MultSign] + t))))))
    ensures [PlusSign, Number(c), PlusSign, MultSign] + t == [PlusSign] + ([Number(c)] + ([PlusSign] + ([MultSign] + t)))
  {
  }

  // ---------------------------------------------------------------- eval

  /** The two folds of `eval`: a sum starts at 0 and adds, a product starts at 1 and multiplies. */
  datatype Combine = Sum | Product

  function Unit(k: Combine): int {
    match k
    case Sum => 0
    case Product => 1
  }

  function Apply(k: Combine, acc: int, v: int): int {
    match k
    case Sum => acc + v
    case Product => acc * v
  }

  /** What `eval` returns: the value of `e` under `env`, or the first undefined variable met
      from left to right. */
  function Eval(e: Expr, env: map<string, int>): Result<int>
    decreases e, 1
  {
    match e
    case Variable(v) => if v in env then Ok(env[v]) else Err("Undefined var " + v)
    case Num(n) => Ok(n)
    case Plus(ops) => Fold(Sum, ops, env)
    case Mult(ops) => Fold(Product, ops, env)
  }

  /** The loop of `eval` over `ops`, stopping at the first operand whose evaluation fails. */
  function Fold(k: Combine, ops: seq<Expr>, env: map<string, int>): Result<int>
    decreases ops, 0
  {
    if |ops| == 0 then Ok(Unit(k))
    else match Fold(k, ops[..|ops| - 1], env)
      case Err(m) => Err(m)
      case Ok(acc) =>
        match Eval(ops[|ops| - 1], env)
        case Err(m) => Err(m)
        case Ok(v) => Ok(Apply(k, acc, v))
  }

  /** `eval`, with its loops. */
  method Evaluate(e: Expr, env: map<string, int>) returns (r: Result<int>)
    ensures r == Eval(e, env)
    decreases e
  {
    match e {
      case Variable(v) =>
        if v in env {
          r := Ok(env[v]);
        } else {
          r := Err("Undefined var " + v);
        }
      case Num(n) =>
        r := Ok(n);
      case Plus(ops) =>
        var sum := 0;
        for i := 0 to |ops|
          invariant Fold(Sum, ops[..i], env) == Ok(sum)
        {
          var x := Evaluate(ops[i], env);
          assert ops[..i + 1][..i] == ops[..i];
          match x {
            case Ok(value) =>
              sum := sum + value;
            case Err(err) =>
              FoldErrorStays(Sum, ops, i + 1, env);
              return Err(err);
          }
        }
        assert ops[..|ops|] == ops;
        r := Ok(sum);
      case Mult(ops) =>
        var total := 1;
        for i := 0 to |ops|
          invariant Fold(Product, ops[..i], env) == Ok(total)
        {
          var x := Evaluate(ops[i], env);
          assert ops[..i + 1][..i] == ops[..i];
          match x {
            case Ok(value) =>
              total := total * value;
            case Err(err) =>
              FoldErrorStays(Product, ops, i + 1, env);
              return Err(err);
          }
        }
        assert ops[..|ops|] == ops;
        r := Ok(total);
    }
  }

  /** Once the fold has failed on a prefix, it fails with that message on the whole. */
  lemma {:induction false} FoldErrorStays(k: Combine, ops: seq<Expr>, i: nat, env: map<string, int>)
    requires i <= |ops| && Fold(k, ops[..i], env).Err?
    ensures Fold(k, ops, env) == Fold(k, ops[..i], env)
    decreases |ops| - i
  {
    if i < |ops| {
      assert ops[..i + 1][..i] == ops[..i];
      FoldErrorStays(k, ops, i + 1, env);
    } else {
      assert ops[..i] == ops;
    }
  }

  /** The variables an expression mentions. */
  function Vars(e: Expr): set<string>
    decreases e, 1
  {
    match e
    case Variable(v) => {v}
    case Num(_) => {}
    case Plus(ops) => VarsOf(ops)
    case Mult(ops) => VarsOf(ops)
  }

  function VarsOf(ops: seq<Expr>): set<string>
    decreases ops, 0
  {
    if |ops| == 0 then {} else VarsOf(ops[..|ops| - 1]) + Vars(ops[|ops| - 1])
  }

  /** `eval` fails exactly when the expression mentions a variable missing from the
      environment, and then it names one such variable. */
  lemma {:induction false} EvalDefined(e: Expr, env: map<string, int>)
    ensures Eval(e, env).Ok? <==> Vars(e) <= env.Keys
    ensures Eval(e, env).Err? ==>
      exists v :: v in Vars(e) && v !in env && Eval(e, env).msg == "Undefined var " + v
    decreases e, 1
  {
    match e
    case Variable(_) =>
    case Num(_) =>
    case Plus(ops) => FoldDefined(Sum, ops, env);
    case Mult(ops) => FoldDefined(Product, ops, env);
  }

  lemma {:induction false} FoldDefined(k: Combine, ops: seq<Expr>, env: map<string, int>)
    ensures Fold(k, ops, env).Ok? <==> VarsOf(ops) <= env.Keys
    ensures Fold(k, ops, env).Err? ==>
      exists v :: v in VarsOf(ops) && v !in env && Fold(k, ops, env).msg == "Undefined var " + v
    decreases ops, 0
  {
    if |ops| > 0 {
      FoldDefined(k, ops[..|ops| - 1], env);
      EvalDefined(ops[|ops| - 1], env);
    }
  }

  /** Folding a concatenation folds both parts and combines them: sums and products are
      associative, so grouping operands does not change the value, and an error in the first
      part wins over one in the second. */
  lemma {:induction false} FoldConcat(k: Combine, a: seq<Expr>, b: seq<Expr>, env: map<string, int>)
    ensures Fold(k, a + b, env) ==
      match Fold(k, a, env)
      case Err(m) => Err(m)
      case Ok(x) => (match Fold(k, b, env) case Err(m) => Err(m) case Ok(y) => Ok(Apply(k, x, y)))
    decreases |b|
  {
    if |b| == 0 {
      assert a + b == a;
      if Fold(k, a, env).Ok? {
        assert Apply(k, Fold(k, a, env).value, Unit(k)) == Fold(k, a, env).value;
      }
    } else {
      var init, last := b[..|b| - 1], b[|b| - 1];
      assert (a + b)[..|a + b| - 1] == a + init;
      assert (a + b)[|a + b| - 1] == last;
      FoldConcat(k, a, init, env);
      if Fold(k, a, env).Ok? && Fold(k, init, env).Ok? && Eval(last, env).Ok? {
        var x, y, z := Fold(k, a, env).value, Fold(k, init, env).value, Eval(last, env).value;
        assert Apply(k, Apply(k, x, y), z) == Apply(k, x, Apply(k, y, z)) by {
          if k == Product {
            assert (x * y) * z == x * (y * z);
          }
        }
      }
    }
  }

  /** A one-operand sum or product is its operand. */
  lemma FoldSingle(k: Combine, e: Expr, env: map<string, int>)
    ensures Fold(k, [e], env) == Eval(e, env)
  {
    assert [e][..0] == [];
  }

  /** The expressions the grammar builds mention no variable, so `eval` never fails on them. */
  lemma {:induction false} ParsedEvaluates(d: seq<Token>, env: map<string, int>)
    requires ExprParser(d).Ok?
    ensures Eval(ExprParser(d).value.0, env).Ok?
  {
    var e := ExprParser(d).value.0;
    ExprSpells(d);
    assert Vars(e) == {} by {
      if e.Plus? {
        NumsHaveNoVars(e.ops);
      } else if e.Mult? {
        SimplesHaveNoVars(e.ops);
      }
    }
    EvalDefined(e, env);
  }

  lemma {:induction false} NumsHaveNoVars(ops: seq<Expr>)
    requires forall j :: 0 <= j < |ops| ==> ops[j].Num?
    ensures VarsOf(ops) == {}
    decreases |ops|
  {
    if |ops| > 0 {
      NumsHaveNoVars(ops[..|ops| - 1]);
    }
  }

  lemma {:induction false} SimplesHaveNoVars(ops: seq<Expr>)
    requires forall j :: 0 <= j < |ops| ==> IsSimple(ops[j])
    ensures VarsOf(ops) == {}
    decreases |ops|
  {
    if |ops| > 0 {
      SimplesHaveNoVars(ops[..|ops| - 1]);
      var last := ops[|ops| - 1];
      if last.Plus? {
        NumsHaveNoVars(last.ops);
      }
    }
  }

  // ---------------------------------------------------------------- run

  /** The state of `run`: the environment, the lines printed so far, and whether it has
      returned early after an error. */
  datatype State = State(env: map<string, int>, out: seq<string>, stopped: bool)

  /** The expression a statement evaluates. */
  function ExprOf(s: Statement): Expr {
    match s
    case Assign(_, e) => e
    case Output(e) => e
  }

  /** One iteration of `run`'s loop; a stopped run ignores the remaining statements. */
  function Step(st: State, s: Statement): State {
    if st.stopped then st
    else match Eval(ExprOf(s), st.env)
      case Err(err) => State(st.env, st.out + ["ERROR: " + err], true)
      case Ok(v) =>
        match s
        case Assign(x, _) => State(st.env[x := v], st.out, false)
        case Output(_) => State(st.env, st.out + [IntToString(v)], false)
  }

  /** The state after `run` has gone through `prog`, starting from the empty environment. */
  function Exec(prog: seq<Statement>): State
    decreases |prog|
  {
    if |prog| == 0 then State(map[], [], false)
    else Step(Exec(prog[..|prog| - 1]), prog[|prog| - 1])
  }

  /** `run`, returning the lines it prints. */
  method Run(prog: seq<Statement>) returns (out: seq<string>)
    ensures out == Exec(prog).out
  {
    var env: map<string, int> := map[];
    out := [];
    for i := 0 to |prog|
      invariant Exec(prog[..i]) == State(env, out, false)
    {
      assert prog[..i + 1][..i] == prog[..i];
      match prog[i] {
        case Assign(x, e) =>
          var res := Evaluate(e, env);
          match res {
            case Ok(v) =>
              env := env[x := v];
            case Err(err) =>
              out := out + ["ERROR: " + err];
              StoppedStays(prog, i + 1);
              return;
          }
        case Output(e) =>
          var res := Evaluate(e, env);
          match res {
            case Ok(v) =>
              out := out + [IntToString(v)];
            case Err(err) =>
              out := out + ["ERROR: " + err];
              StoppedStays(prog, i + 1);
              return;
          }
      }
    }
    assert prog[..|prog|] == prog;
  }

  /** After the first error nothing changes any more: the rest of the program is not run. */
  lemma {:induction false} StoppedStays(prog: seq<Statement>, i: nat)
    requires i <= |prog| && Exec(prog[..i]).stopped
    ensures Exec(prog) == Exec(prog[..i])
    decreases |prog| - i
  {
    if i < |prog| {
      assert prog[..i + 1][..i] == prog[..i];
      StoppedStays(prog, i + 1);
    } else {
      assert prog[..i] == prog;
    }
  }

  /** Lines are only ever added: what a prefix of the program prints is a prefix of what the
      whole program prints. */
  lemma {:induction false} TracePrefix(prog: seq<Statement>, i: nat)
    requires i <= |prog|
    ensures Exec(prog[..i]).out <= Exec(prog).out
    decreases |prog| - i
  {
    if i < |prog| {
      assert prog[..i + 1][..i] == prog[..i];
      TracePrefix(prog, i + 1);
    } else {
      assert prog[..i] == prog;
    }
  }

  /** Statement `i` is reached without error and its expression fails. */
  ghost predicate FailsAt(prog: seq<Statement>, i: int) {
    0 <= i < |prog| && !Exec(prog[..i]).stopped && Eval(ExprOf(prog[i]), Exec(prog[..i]).env).Err?
  }

  /** `run` stopped at statement `i`: it printed the error of `i` last and ran nothing after. */
  ghost predicate HaltsAt(prog: seq<Statement>, i: int) {
    FailsAt(prog, i) &&
    var st := Exec(prog[..i]);
    Exec(prog) == State(st.env, st.out + ["ERROR: " + Eval(ExprOf(prog[i]), st.env).msg], true)
  }

  /** When `run` stopped, it stopped at a statement whose expression failed, printed that
      error last and ran nothing after it. */
  lemma {:induction false} StopsAtFirstError(prog: seq<Statement>)
    requires Exec(prog).stopped
    ensures exists i :: HaltsAt(prog, i)
    decreases |prog|
  {
    var init := prog[..|prog| - 1];
    if Exec(init).stopped {
      StopsAtFirstError(init);
      var i :| HaltsAt(init, i);
      assert init[..i] == prog[..i] && init[i] == prog[i];
      assert HaltsAt(prog, i);
    } else {
      assert HaltsAt(prog, |prog| - 1);
    }
  }

  /** The number of `Output` statements among `prog`. */
  function Outputs(prog: seq<Statement>): nat
    decreases |prog|
  {
    if |prog| == 0 then 0
    else Outputs(prog[..|prog| - 1]) + (if prog[|prog| - 1].Output? then 1 else 0)
  }

  /** The variables `prog` assigns. */
  function Targets(prog: seq<Statement>): set<string>
    decreases |prog|
  {
    if |prog| == 0 then {}
    else Targets(prog[..|prog| - 1]) + (if prog[|prog| - 1].Assign? then {prog[|prog| - 1].target} else {})
  }

  /** A run without error prints one line per `Output` statement, and ends with exactly the
      assigned variables defined; a stopped run printed an `ERROR:` line last, after at most
      as many lines as there are outputs. */
  lemma {:induction false} CleanRun(prog: seq<Statement>)
    ensures !Exec(prog).stopped ==> |Exec(prog).out| == Outputs(prog) && Exec(prog).env.Keys == Targets(prog)
    ensures Exec(prog).stopped ==> |Exec(prog).out| <= Outputs(prog) + 1
    ensures Exec(prog).stopped ==>
      |Exec(prog).out| > 0 && var last := Exec(prog).out[|Exec(prog).out| - 1]; |last| >= 7 && last[..7] == "ERROR: "
    decreases |prog|
  {
    if |prog| > 0 {
      var init := prog[..|prog| - 1];
      CleanRun(init);
      var st := Exec(init);
      if !st.stopped {
        var r := Eval(ExprOf(prog[|prog| - 1]), st.env);
        if r.Err? {
          assert ("ERROR: " + r.msg)[..7] == "ERROR: ";
        }
      }
    }
  }

  /** `run` goes through the statements in order. */
  lemma ExecSnoc(prog: seq<Statement>, s: Statement)
    ensures Exec(prog + [s]) == Step(Exec(prog), s)
  {
    assert (prog + [s])[..|prog|] == prog;
  }

  /** The program `main` keeps commented out, with its constant and its names abstracted:
      `x = n; out x; x = x + m; y = x; z = x + y; out z` prints `n` and then `2 * (n + m)`. */
  lemma ExampleRun(x: string, y: string, z: string, n: int, m: int)
    requires x != y && x != z && y != z
    ensures Exec([Assign(x, Num(n)), Output(Variable(x)), Assign(x, Plus([Variable(x), Num(m)])),
                  Assign(y, Variable(x)), Assign(z, Plus([Variable(x), Variable(y)])),
                  Output(Variable(z))]).out == [IntToString(n), IntToString(2 * (n + m))]
  {
    var a, b := Assign(x, Num(n)), Output(Variable(x));
    var c, d := Assign(x, Plus([Variable(x), Num(m)])), Assign(y, Variable(x));
    var e, f := Assign(z, Plus([Variable(x), Variable(y)])), Output(Variable(z));
    var env1 := map[x := n];
    var env3 := map[x := n + m];
    var env4 := env3[y := n + m];
    var env5 := env4[z := 2 * (n + m)];
    Appends(a, b, c, d, e, f);
    assert Exec([a, b]) == State(env1, [IntToString(n)], false) by {
      ExecSnoc([], a);
      ExecSnoc([a], b);
    }
    assert Exec([a, b, c]) == State(env3, [IntToString(n)], false) by {
      ExecSnoc([a, b], c);
      assert Eval(c.e, env1) == Ok(n + m) by {
        SumOfTwo(Variable(x), Num(m), env1);
      }
    }
    assert Exec([a, b, c, d, e]) == State(env5, [IntToString(n)], false) by {
      ExecSnoc([a, b, c], d);
      ExecSnoc([a, b, c, d], e);
      assert Eval(e.e, env4) == Ok(2 * (n + m)) by {
        SumOfTwo(Variable(x), Variable(y), env4);
      }
    }
    ExecSnoc([a, b, c, d, e], f);
  }

  /** Displays grown one element at a time. */
  lemma Appends<T>(a: T, b: T, c: T, d: T, e: T, f: T)
    ensures [] + [a] == [a] && [a] + [b] == [a, b] && [a, b] + [c] == [a, b, c]
    ensures [a, b, c] + [d] == [a, b, c, d] && [a, b, c, d] + [e] == [a, b, c, d, e]
    ensures [a, b, c, d, e] + [f] == [a, b, c, d, e, f]
  {
  }

  /** A sum of two operands that both evaluate is the sum of their values. */
  lemma SumOfTwo(p: Expr, q: Expr, env: map<string, int>)
    requires Eval(p, env).Ok? && Eval(q, env).Ok?
    ensures Eval(Plus([p, q]), env) == Ok(Eval(p, env).value + Eval(q, env).value)
  {
    assert [p, q][..1] == [p];
    FoldSingle(Sum, p, env);
  }

  /** An undefined variable stops `run` with one error line. */
  lemma ExampleUndefined(x: string, e: Expr)
    ensures Exec([Output(Variable(x)), Output(e)]).out == ["ERROR: Undefined var " + x]
  {
    var a := Output(Variable(x));
    Appends(a, Output(e), a, a, a, a);
    ExecSnoc([], a);
    ExecSnoc([a], Output(e));
    assert "ERROR: " + ("Undefined var " + x) == "ERROR: Undefined var " + x;
  }

  // ---------------------------------------------------------------- from text to value

  /** All of `ts` are tokens one word can stand for. */
  predicate AllWords(ts: seq<Token>) {
    forall j :: 0 <= j < |ts| ==> IsWord(ts[j])
  }

  lemma {:induction false} SpacedWords(es: seq<Expr>, sep: Token)
    requires IsWord(sep) && forall i :: 0 <= i < |es| ==> AllWords(TokensOf(es[i]))
    ensures AllWords(Spaced(es, sep))
    decreases |es|
  {
    if |es| > 1 {
      SpacedWords(es[1..], sep);
      assert forall i :: 0 <= i < |es[1..]| ==> es[1..][i] == es[i + 1];
      assert AllWords(TokensOf(es[0]));
    } else if |es| == 1 {
      assert AllWords(TokensOf(es[0]));
    }
  }

  /** An expression the grammar builds is written with numbers, `+` and `*` only. */
  lemma ExprWords(e: Expr)
    requires IsExpr(e)
    ensures AllWords(TokensOf(e))
  {
    if e.Plus? {
      SpacedWords(e.ops, PlusSign);
    } else if e.Mult? {
      forall i | 0 <= i < |e.ops| ensures AllWords(TokensOf(e.ops[i])) {
        if e.ops[i].Plus? {
          SpacedWords(e.ops[i].ops, PlusSign);
        }
      }
      SpacedWords(e.ops, MultSign);
    }
  }

  /** Printing an expression the grammar builds on one line, tokenizing that line and parsing
      the tokens gives the expression back, with the line's `NewLine` left over; and it
      evaluates without error. */
  lemma EndToEnd(e: Expr, env: map<string, int>)
    requires IsExpr(e)
    ensures ExprParser(Tokens(PrintLines([TokensOf(e)]))) == Ok((e, [NewLine]))
    ensures Eval(e, env).Ok?
  {
    var line := TokensOf(e);
    ExprWords(e);
    TokenizePrinted([line]);
    assert [line][..0] == [];
    assert LinesOf([line]) == line + [NewLine];
    ExprRoundTrip(e, [NewLine]);
    ParsedEvaluates(line + [NewLine], env);
  }

  // ---------------------------------------------------------------- main's leftover check

  /** `main` as written (src/main.rs:100-105): it evaluates the parsed expression only when
      the parse succeeded and left no token over. */
  predicate MainEvaluates(input: string) {
    var r := ExprParser(Tokens(input));
    r.Ok? && |r.value.1| == 0
  }

  /** `main` never reaches `eval`: `tokenize` closes every line with `NewLine`, and no
      expression `expr` parses contains one, so a token is always left over. */
  lemma MainNeverEvaluates(input: string)
    ensures !MainEvaluates(input)
  {
    var ts := Tokens(input);
    TokenizeNewLines(input);
    assert NewLine in multiset(ts);
    if ExprParser(ts).Ok? {
      var e := ExprParser(ts).value.0;
      var rest := ExprParser(ts).value.1;
      ExprSpells(ts);
      ExprWords(e);
      assert NewLine !in TokensOf(e);
      assert NewLine in TokensOf(e) + rest;
      assert NewLine in rest;
    }
  }

  /** The check `main` evidently intends: the line's own closing `NewLine` may be left over. */
  predicate MainEvaluatesLine(input: string) {
    var r := ExprParser(Tokens(input));
    r.Ok? && r.value.1 == [NewLine]
  }

  /** With that check, a printed expression the grammar builds reaches `eval`, and `eval`
      succeeds on it. */
  lemma MainEvaluatesPrinted(e: Expr, env: map<string, int>)
    requires IsExpr(e)
    ensures MainEvaluatesLine(PrintLines([TokensOf(e)]))
    ensures Eval(ExprParser(Tokens(PrintLines([TokensOf(e)]))).value.0, env).Ok?
  {
    EndToEnd(e, env);
  }
}
