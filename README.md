# coki front end in Dafny

This project models the two generations of the coki language front end and proves
properties of the model.

- **Slice parser-combinator engine** (`src/parsers.rs`). Each parser takes a token slice and
  either fails with a message or yields an output and the rest of the slice.
- **String prototype engine** (`src/lib.rs`). The same kind of combinators over `&str`, with
  the unit tests stated as lemmas.
- **New abstract syntax** (`src/grammar.rs`): tokens, expressions and statements.
- **New grammar** (`src/parser.rs`). A recursive-descent grammar written in the combinators
  of the `peruse` crate: terms, products and sums flattened into `MultDiv`/`AddSub` lists,
  assignments, `out`, `if`/`else`/`else if`, `while`, and newline-terminated statement blocks.
- **Lexer** (`src/lexer.rs`). An ordered choice of anchored patterns, repeated until none
  matches.
- **Old pipeline** (`src/main.rs`): the whitespace tokenizer, the old expression grammar built
  from the slice engine, the evaluator, and `run`, which executes assignments and outputs.

Modules, one per file:

| module | file | models |
|---|---|---|
| `Results` | results.dfy | `Result<T, String>`, the parser shape, and how `{}` prints integers |
| `SliceParsers` | slice_parsers.dfy | src/parsers.rs |
| `StrParsers` | str_parsers.dfy | src/lib.rs |
| `Peruse` | peruse.dfy | the `peruse` combinators that src/parser.rs and src/lexer.rs use |
| `Grammar` | grammar.dfy | src/grammar.rs |
| `ProgramParser` | program_parser.dfy | src/parser.rs |
| `Lexer` | lexer.dfy | src/lexer.rs |
| `Pipeline` | pipeline.dfy | src/main.rs |

How the code is modelled:

- **Parsers** are total functions `seq<I> -> Result<(O, seq<I>)>`.
- **Combinators** are "apply" functions: they take the parsers they combine and the input.
- **Loops.** Where the source loops, the model has a method with that loop. This covers
  `RepParser`, `RepSepParser`, `OneOfParser`, the `mult`/`plus` mappers, `tokenize`, `eval`
  and `run`. Each method is proved equal to a specification function, and the properties
  are lemmas about that function.
- **`OrParser`** takes thunks, so an alternative is built only when it is tried.
- **Recursion in the grammar.** The source ties it with `recursive(|| ...)`. Here it goes
  through a guard that only calls back on shorter input. Lemmas (`ExpressionIsRule`,
  `IfStmtIsRule`, `ProgramIsRule`) prove that the guard never fires, so every rule satisfies
  its grammar equation exactly.
- **`src/grammar.rs`** is types only. The datatypes of `Grammar` have the source's variants,
  fields and payloads, including `i32` numeric literals as a newtype. There is nothing to
  prove about them beyond what the declarations state.

Every operand of `plus` is the result of `mult` (src/parser.rs:32-54), and `mult` wraps its
operand in a `MultDiv` even when there is no operator. So `5` parses as
`AddSub([AddTerm(Add, MultDiv([MultTerm(Multiply, Num(5))]))])`, and in `3 + 4 * 5` the `3`
is the one-factor product `MultDiv([MultTerm(Multiply, Num(3))])`.
`ProgramParser.ExampleNumber` and `ProgramParser.ExamplePrecedence` state these results.

## Model

| member | source | states |
|---|---|---|
| Results.DigitsValue | src/lexer.rs:29 | the value `from_str` reads from a run of decimal digits; `DigitsRoundTrip` is its inverse |
| Results.DigitChar | src/parsers.rs:117 | the printed digit is a digit character whose value is `d` |
| Results.NatToString | src/parsers.rs:89 | `{}` on a count is a non-empty run of digits without a leading zero |
| Results.IntToString | src/main.rs:162 | `{}` on an integer is non-empty and starts with `-` exactly when the integer is negative |
| Results.DigitsRoundTrip | src/parsers.rs:117 | reading the printed digits of `n` back gives `n` |
| Results.NatToStringInjective | src/parsers.rs:117 | distinct counts print distinct texts, so the counts in "Not enough reps" identify them |
| SliceParsers.Literal | src/parsers.rs:41-56 | succeeds iff the input is non-empty and starts with the literal; yields the literal and the input minus its first element; otherwise "ran out of data" on empty input and "Literal mismatch" on a mismatch |
| SliceParsers.Match | src/parsers.rs:58-69 | "Unexpected End!" on empty input; otherwise succeeds iff the matcher accepts the first element, yielding the matcher's value and the tail, and passes the matcher's error through unchanged |
| SliceParsers.RepFrom | src/parsers.rs:82-93 | what the remaining repetitions compute: each output in order and the last remainder, or "Error on rep #i: " with the inner error at the first failure |
| SliceParsers.Rep | src/parsers.rs:78-95 | what `RepParser` computes, its repetitions numbered from 0 |
| SliceParsers.RepParse | src/parsers.rs:78-95 | the loop of `RepParser` computes `Rep`: the outputs of `reps` repetitions in order and the remainder after the last one, or "Error on rep #i: ..." |
| SliceParsers.RepFromRenumber | src/parsers.rs:89 | whether the repetitions succeed, and what they yield, does not depend on how they are numbered |
| SliceParsers.RepLength | src/parsers.rs:82-93 | a successful `RepParser` yields exactly `reps` outputs |
| SliceParsers.RepSplit | src/parsers.rs:82-93 | `m + n` repetitions succeed iff `m` do and then `n` more do on the rest; outputs concatenate and the remainder is the last repetition's |
| SliceParsers.RepError | src/parsers.rs:88-90 | a failure happened at some repetition `i < reps` after `i` successes, and the message names `i` and carries the inner parser's error |
| SliceParsers.Chain | src/parsers.rs:105-128 | the loop of `RepSepParser` before its count check: `rep`, then again after each successful `sep`, stopping with the remainder `rep` left when `sep` fails |
| SliceParsers.RepSep | src/parsers.rs:103-131 | what `RepSepParser` computes: the chain, "Error on rep: " on a `rep` failure, and the `min_reps` check |
| SliceParsers.RepSepParse | src/parsers.rs:103-131 | the loop of `RepSepParser` computes `RepSep` (the chain, then the count check) |
| SliceParsers.ChainStops | src/parsers.rs:111-121 | a successful chain has at least one element; it stopped because `sep` failed on the remainder, and that remainder is what the last `rep` left, not what `sep` left |
| SliceParsers.RepSepOutcome | src/parsers.rs:115-121 | succeeds iff the chain succeeds and collected at least `min_reps` elements; otherwise "Not enough reps: required m, got n" with the two counts |
| SliceParsers.RepSepNeedsOne | src/parsers.rs:108-126 | a failing first `rep` fails the parser with "Error on rep: ..." whatever `min_reps` is |
| SliceParsers.RepSepNoBacktrack | src/parsers.rs:111-126 | once a separator has been accepted, a failing `rep` fails the whole parser; there is no backtrack to the shorter list |
| SliceParsers.ChainProgress | src/parsers.rs:107-128 | a successful chain consumes at least one element |
| SliceParsers.Dual | src/parsers.rs:135-158 | succeeds iff `first` succeeds and `second` succeeds on its remainder, yielding the pair and `second`'s remainder; the error is that of whichever parser failed |
| SliceParsers.Or | src/parsers.rs:160-179 | `a`'s success is the result; otherwise `b` is built and run on the same input, and its result (its error if both fail) is the result |
| SliceParsers.OneOf | src/parsers.rs:185-195 | what `OneOfParser` computes: the first parser that succeeds, in order, else "All options failed" |
| SliceParsers.OneOfParse | src/parsers.rs:181-195 | the loop of `OneOfParser` computes `OneOf` |
| SliceParsers.OneOfFirstSuccess | src/parsers.rs:187-193 | succeeds iff some parser succeeds on the input, with the result of the first that does; fails with "All options failed" otherwise, the empty list included |
| SliceParsers.OneOfPick | src/parsers.rs:187-193 | when parser `i` is the first to succeed, its result is the result |
| SliceParsers.Map | src/parsers.rs:197-205 | only the output changes: success, remainder and error are those of the inner parser |
| SliceParsers.LiteralProgress | src/parsers.rs:50-51 | `LiteralParser` consumes an element whenever it succeeds |
| SliceParsers.MatchProgress | src/parsers.rs:66 | `MatchParser` consumes an element whenever it succeeds |
| SliceParsers.DualProgress | src/parsers.rs:150-156 | a sequence whose first part consumes and whose second part does not grow the input consumes |
| SliceParsers.OrProgress | src/parsers.rs:171-177 | a choice between two consuming parsers consumes |
| SliceParsers.MapProgress | src/parsers.rs:203 | mapping keeps the consumption guarantee |
| SliceParsers.RepSepProgress | src/parsers.rs:103-131 | a `RepSepParser` over a consuming `rep` consumes |
| StrParsers.Char | src/lib.rs:33-46 | succeeds iff the input starts with the character, yielding it and the input minus one character; "No data left" on empty input, "Expected c, got d" on a mismatch |
| StrParsers.CharIsLiteral | src/lib.rs:33-46 | `CharParser` accepts what the slice `LiteralParser` accepts, with the same output and remainder |
| StrParsers.RepParse | src/lib.rs:72-89 | the loop of the string `RepParser` computes the same as the slice `RepParser` |
| StrParsers.AndThen | src/lib.rs:96-114 | the string `DualParser` is the slice `DualParser` |
| StrParsers.OrElse | src/lib.rs:126-136 | it is the slice `OrParser` over the two parsers with outputs tagged `OrA`/`OrB`: `a`'s success as `OrA`, else `b`'s success on the original input as `OrB`, else `b`'s error |
| StrParsers.TestChar | src/lib.rs:143-155 | 'v' on "vbx" gives 'v' and leaves "bx" |
| StrParsers.TestRep | src/lib.rs:165-179 | three repetitions of 'v' on "vvvx" give three 'v's and leave "x" |
| StrParsers.TestAndThen | src/lib.rs:181-197 | 'a' then 'b' on "abvx" gives ('a', 'b') and leaves "vx" |
| StrParsers.TestOr | src/lib.rs:199-218 | 'a' or 'b' on "abvx" gives `OrA('a')`, and on the rest `OrB('b')` leaving "vx" |
| Peruse.LitP | src/parser.rs:14 | the parser `lit(t)` |
| Peruse.MatcherP | src/parser.rs:8-12 | the parser `matcher(f)` |
| Peruse.ThenP | src/parser.rs:33 | the parser `a.then(b)`, with the meaning of `DualParser` |
| Peruse.ThenLP | src/parser.rs:14 | the parser `a.then_l(b)` |
| Peruse.ThenRP | src/parser.rs:14 | the parser `a.then_r(b)` |
| Peruse.OrP | src/parser.rs:16 | the parser `a.or(b)`, with the meaning of `OrParser` |
| Peruse.MapP | src/parser.rs:33-40 | the parser `p.map(f)`, with the meaning of `MapParser` |
| Peruse.OneOfP | src/parser.rs:122 | the parser `one_of(ps)`, with the meaning of `OneOfParser` |
| Peruse.OptP | src/parser.rs:102 | the parser `opt(p)` |
| Peruse.RepeatP | src/parser.rs:122 | the parser `p.repeat()` |
| Peruse.Matcher | src/parser.rs:8-12 | consumes the first element iff the function maps it to `Some`, yielding that value |
| Peruse.ThenL | src/parser.rs:14 | `a` then `b` on its remainder, keeping `a`'s output and `b`'s remainder; either part's error |
| Peruse.ThenR | src/parser.rs:14 | `a` then `b` on its remainder, with `b`'s result; either part's error |
| Peruse.Opt | src/parser.rs:102 | never fails; `Some` of the output iff the parser succeeds, otherwise `None` with nothing consumed |
| Peruse.Repeat | src/parser.rs:122 | never fails and never grows the input; a non-empty list consumed something; it stops only where the parser fails or consumes nothing |
| Peruse.RepeatCons | src/parser.rs:122 | a repetition that starts with a consuming success is that output followed by the repetition on its remainder |
| Peruse.RepeatNil | src/parser.rs:122 | a repetition that starts with a failure is empty and consumes nothing |
| Peruse.RepeatAll | src/parser.rs:122 | whatever property every output of the repeated parser has, every element of the repetition has |
| Peruse.RepeatAgree | src/parser.rs:122 | repetitions of two parsers that agree on all inputs up to some length agree on inputs up to that length |
| Peruse.ProgressingNonGrowing | src/parser.rs:122 | a consuming parser does not grow the input |
| Peruse.LitConsumes | src/parser.rs:14 | `lit` consumes when it succeeds |
| Peruse.MatcherConsumes | src/parser.rs:8-12 | `matcher` consumes when it succeeds |
| Peruse.ThenConsumes | src/parser.rs:95-103 | a sequence consumes when one part consumes and the other does not grow the input |
| Peruse.OrConsumes | src/parser.rs:16 | a choice between consuming parsers consumes |
| Peruse.MapConsumes | src/parser.rs:33 | mapping keeps consumption |
| Peruse.OrNonGrowing | src/parser.rs:89-93 | a choice between non-growing parsers does not grow the input |
| Peruse.MapNonGrowing | src/parser.rs:124 | mapping keeps the non-growing guarantee |
| Peruse.OneOfConsumes | src/parser.rs:122 | `one_of` over consuming parsers consumes |
| Peruse.RepeatOptNonGrowing | src/parser.rs:102-122 | `repeat` never grows the input, and `opt` does not when its parser does not |
| Peruse.ThenAt | src/parser.rs:95-103 | sequences whose parts agree where they run give the same result |
| Peruse.OrAt | src/parser.rs:16 | choices whose alternatives agree on the input agree |
| Peruse.MapAt | src/parser.rs:33 | maps of parsers that agree on the input agree |
| Peruse.OptAt | src/parser.rs:102 | `opt` of parsers that agree on the input agree |
| Peruse.OneOfAt | src/parser.rs:122 | `one_of` over alternatives that agree on the input agree |
| Peruse.OneOfOn | src/lexer.rs:33-57 | `one_of` gives the same result on two inputs on which each alternative gives the same result |
| ProgramParser.SimpleTermOf | src/parser.rs:8-12 | the `simple_term` matcher: an identifier is a `Variable`, a number a `Num`, anything else no match |
| ProgramParser.MultOpOf | src/parser.rs:18-23 | the `multop` matcher: `*`, `/` and `%` |
| ProgramParser.AddOpOf | src/parser.rs:25-29 | the `addop` matcher: `+` and `-` |
| ProgramParser.TargetOf | src/parser.rs:60-63 | the assignment `target` matcher: the name of an identifier |
| ProgramParser.ComparatorOf | src/parser.rs:70-73 | the `comparator` matcher |
| ProgramParser.ParenOf | src/parser.rs:14 | `paren_expr`: `(`, an expression, `)`, yielding the inner expression |
| ProgramParser.TermOf | src/parser.rs:16 | `term`: `paren_expr` or else `simple_term` |
| ProgramParser.ListOf | src/parser.rs:33-45 | an operand and the repeated (operator, operand) pairs after it, as `mult` and `plus` parse them |
| ProgramParser.MultOf | src/parser.rs:32-42 | `mult`: the term list mapped by the push loop of lines 34-39 |
| ProgramParser.PlusOf | src/parser.rs:44-54 | `plus`: the `mult` list mapped by the push loop of lines 46-51 |
| ProgramParser.ExpressionRec | src/parser.rs:14 | `recursive(\|\| expression())`, called back only on input shorter than the enclosing one |
| ProgramParser.Expression | src/parser.rs:7-57 | `expression()`: `plus` over `mult` over `term`, the parentheses recursing into `expression()` |
| ProgramParser.FlattenMult | src/parser.rs:33-40 | the `mult` mapper gives a `MultDiv` of one more element than there were operator pairs: the first operand tagged `Multiply`, then each operator with its operand, in source order |
| ProgramParser.FlattenAdd | src/parser.rs:45-52 | the `plus` mapper gives an `AddSub` of one more element than there were operator pairs: the first operand tagged `Add`, then each operator with its operand, in source order |
| ProgramParser.FlattenMultLoop | src/parser.rs:34-39 | the pushing loop of the `mult` mapper computes `FlattenMult` |
| ProgramParser.FlattenAddLoop | src/parser.rs:46-51 | the pushing loop of the `plus` mapper computes `FlattenAdd` |
| ProgramParser.ParenConsumes | src/parser.rs:14 | `paren_expr` consumes (it starts with `(`) |
| ProgramParser.TermConsumes | src/parser.rs:16 | `term` consumes |
| ProgramParser.ListConsumes | src/parser.rs:33-45 | an operand list consumes when its operands do |
| ProgramParser.ExpressionConsumes | src/parser.rs:7-57 | every parsed expression consumes at least one token |
| ProgramParser.ExpressionProgressing | src/parser.rs:7-57 | `expression` consumes whenever it succeeds |
| ProgramParser.ParenAt | src/parser.rs:14 | `paren_expr` calls back into `expression` only on shorter input |
| ProgramParser.ListAgree | src/parser.rs:33-45 | operand lists over operand parsers that agree on short inputs agree |
| ProgramParser.ExpressionIsRule | src/parser.rs:7-57 | `expression` satisfies its grammar equation: the bound on its recursion never cuts a parse short |
| ProgramParser.ParenYields | src/parser.rs:14 | `paren_expr` yields the inner sum itself: the parentheses leave no node |
| ProgramParser.TermYields | src/parser.rs:14-16 | `term` yields a variable, a number or a parenthesised sum |
| ProgramParser.MultYields | src/parser.rs:32-42 | `mult` yields a non-empty `MultDiv` headed by `Multiply` whose operands are terms |
| ProgramParser.PlusYields | src/parser.rs:44-54 | `plus` yields a non-empty `AddSub` headed by `Add` whose operands are products |
| ProgramParser.ExpressionNormal | src/parser.rs:7-57 | whatever `expression` parses is a sum of products of factors, at every depth of parentheses |
| ProgramParser.TermCases | src/parser.rs:14-16 | `term` tries `( expr )` first, and yields the inner expression and the rest after `)`; without `(` it is `simple_term` |
| ProgramParser.SingleFactor | src/parser.rs:8-42 | an identifier or number not followed by `*`, `/` or `%` is a one-factor product of `Variable`/`Num` |
| ProgramParser.AddThen | src/parser.rs:45 | an `addop` followed by a product is one (operator, product) pair |
| ProgramParser.AddStep | src/parser.rs:25-45 | `+`/`-` followed by a lone operand is that operator with a one-factor product |
| ProgramParser.RepeatThree | src/parser.rs:45 | three consuming successes and then a stop repeat to a three-element list |
| ProgramParser.ExpressionFrom | src/parser.rs:44-56 | `expression` is the first product and the repeated (operator, product) pairs, flattened |
| ProgramParser.NoAddStep | src/parser.rs:25-45 | at the end of the input or before a non-`addop` token the (operator, product) repetition is empty |
| ProgramParser.ExampleNumber | src/parser.rs:44-56 | a lone number `n` is `AddSub([AddTerm(Add, MultDiv([MultTerm(Multiply, Num(n))]))])` |
| ProgramParser.ExampleSum | src/grammar.rs:35 | `a + b - c + d` is the four-term `AddSub` tagged Add, Add, Subtract, Add, each operand a one-factor product of its variable |
| ProgramParser.SumTail | src/parser.rs:45 | the pairs of `+ b - c + d` are `(Add, b)`, `(Subtract, c)`, `(Add, d)` with nothing left |
| ProgramParser.ExamplePrecedence | src/parser.rs:32-54 | `x + y * z` is the sum of the one-factor product `x` and the product `y * z` |
| ProgramParser.PrecedenceTail | src/parser.rs:45 | the pairs of `+ y * z` are the single pair `(Add, y * z)` |
| ProgramParser.ProductExample | src/parser.rs:32-42 | `y * z` is `MultDiv([(Multiply, y), (Multiply, z)])` |
| ProgramParser.MkAssign | src/parser.rs:67 | the mapper building `Assign(target, expr)` |
| ProgramParser.MkOutput | src/parser.rs:120 | the mapper building `Output(e)` |
| ProgramParser.MkIf | src/parser.rs:103 | the mapper building `If(l, cmp, r, block, else_opt)` |
| ProgramParser.MkWhile | src/parser.rs:116 | the mapper building `While(l, cmp, r, block)` |
| ProgramParser.OneStatement | src/parser.rs:91 | the mapper making a nested `if` a one-statement block |
| ProgramParser.MkBlock | src/parser.rs:124 | the mapper making the statements a `Block` |
| ProgramParser.CondHead | src/parser.rs:95-99 | the head shared by `if_stmt` and `while_stmt`: keyword, expression, comparator, expression, `{` |
| ProgramParser.CodeBlockOf | src/parser.rs:75-79 | `code_block`: `{`, a program, `}` |
| ProgramParser.ElseBlockOf | src/parser.rs:89-93 | `else_block`: `else`, then a nested `if` as a block or else a code block |
| ProgramParser.IfOf | src/parser.rs:95-103 | the parser of `if_stmt`: head, program, `}`, optional else block |
| ProgramParser.WhileOf | src/parser.rs:108-118 | `while_stmt`: head, program, `}` |
| ProgramParser.StatementOf | src/parser.rs:122 | `one_of` over assignment, output, if and while, in that order |
| ProgramParser.ProgramOf | src/parser.rs:122-124 | `statements`: the repeated statement-then-`NewLine`, as a `Block` |
| ProgramParser.ProgramRec | src/parser.rs:77 | `recursive(\|\| program())`, called back only on shorter input |
| ProgramParser.IfRec | src/parser.rs:91 | `recursive(\|\| if_stmt())`, called back only on shorter input |
| ProgramParser.IfStmt | src/parser.rs:81-106 | `if_stmt()`, recursing into `if_stmt()` and `program()` |
| ProgramParser.Program | src/parser.rs:5-125 | `program()`, recursing into `if_stmt()` and `program()` |
| ProgramParser.ProgramNonGrowing | src/parser.rs:122-124 | `program` never fails and never grows the input |
| ProgramParser.CondHeadConsumes | src/parser.rs:95-113 | the head of `if`/`while` consumes |
| ProgramParser.CodeBlockConsumes | src/parser.rs:75-79 | `code_block` consumes |
| ProgramParser.BodyConsumes | src/parser.rs:95-101 | the head, body and `}` of `if`/`while` consume |
| ProgramParser.IfConsumes | src/parser.rs:81-106 | `if_stmt` consumes over any non-growing parts |
| ProgramParser.WhileConsumes | src/parser.rs:108-118 | `while_stmt` consumes |
| ProgramParser.IfStmtConsumes | src/parser.rs:81-106 | every parsed `if` consumes at least one token |
| ProgramParser.StatementConsumes | src/parser.rs:122 | each of the four statement forms, and their `one_of`, consumes |
| ProgramParser.CodeBlockAt | src/parser.rs:75-79 | `code_block` calls back into `program` only on shorter input |
| ProgramParser.ElseBlockAt | src/parser.rs:89-93 | `else_block` calls back only on shorter input |
| ProgramParser.BodyAt | src/parser.rs:95-101 | the body of `if`/`while` runs `program` only after the keyword |
| ProgramParser.IfAt | src/parser.rs:81-106 | `if_stmt` calls back only on shorter input |
| ProgramParser.WhileAt | src/parser.rs:108-118 | `while_stmt` calls back only on shorter input |
| ProgramParser.IfStmtIsRule | src/parser.rs:81-106 | `if_stmt` satisfies its grammar equation |
| ProgramParser.StatementOfAt | src/parser.rs:122 | the statement alternatives agree when `if` and `while` agree |
| ProgramParser.OneOfLastTwoAt | src/parser.rs:122 | four alternatives whose last two agree on the input agree |
| ProgramParser.StatementAt | src/parser.rs:122 | the statement alternatives inside a bounded `program` agree with the rule on inputs within the bound |
| ProgramParser.ProgramIsRule | src/parser.rs:122-124 | `program` satisfies its grammar equation |
| ProgramParser.AssignmentCases | src/parser.rs:59-68 | `assignment` succeeds iff the input is `Ident`, `=`, and an expression, giving `Assign(name, e)` and the expression's remainder |
| ProgramParser.OutputCases | src/parser.rs:120 | `output` succeeds iff the input is `out` and an expression, giving `Output(e)` and the expression's remainder |
| ProgramParser.HeadCases | src/parser.rs:95-113 | the head succeeds iff the keyword, an expression, a comparator token, an expression and `{` follow in turn, yielding the two expressions and the comparator |
| ProgramParser.CondHeadCases | src/parser.rs:95-113 | the same, over `expression` itself |
| ProgramParser.CodeBlockCases | src/parser.rs:75-79 | `code_block` is `{ program }`; only the braces can fail |
| ProgramParser.ElseBlockCases | src/parser.rs:89-93 | `else` then a nested `if` is tried first, as a one-statement block; otherwise `else` then a code block |
| ProgramParser.BodyCases | src/parser.rs:99-101 | after a head, the body and `}` succeed iff the head succeeds and `}` follows the block, yielding the head, the block and the rest after `}` |
| ProgramParser.IfOfCases | src/parser.rs:95-103 | `if` over any parts: the head, body and `}`, and the `else` slot is `Some` exactly when an else block parses, `None` otherwise with nothing consumed |
| ProgramParser.IfCases | src/parser.rs:81-106 | `if`: succeeds iff the head, the body and `}` parse, giving `If(l, cmp, r, body, else)` with the optional else block |
| ProgramParser.WhileCases | src/parser.rs:108-118 | `while`: succeeds iff the head, the body and `}` parse, giving `While(l, cmp, r, body)` |
| ProgramParser.OneOfFour | src/parser.rs:122 | `one_of` over four alternatives is the first that succeeds, in order |
| ProgramParser.StatementDispatch | src/parser.rs:122 | a parsed statement starts with an identifier, `out`, `if` or `while`; the alternative that this token starts, when it succeeds, is the result; failure is "All options failed" |
| ProgramParser.LeadingTokens | src/parser.rs:59-120 | the token each statement form starts with |
| ProgramParser.IfLeading | src/parser.rs:95 | an `if` statement starts with `if` |
| ProgramParser.WhileLeading | src/parser.rs:109 | a `while` statement starts with `while` |
| ProgramParser.ProgramCases | src/parser.rs:122-124 | `program` never fails; it is the empty block with nothing consumed unless a statement followed by `NewLine` comes first, and then it is that statement followed by the rest of the program, in order |
| ProgramParser.ProgramStops | src/parser.rs:122-124 | at the end of the input, or before a token that starts no statement, `program` is `Block([])` and consumes nothing |
| ProgramParser.ExampleProgram | src/parser.rs:120-124 | `out n` and a line break is the program `[Output(n)]` |
| ProgramParser.OutputNumber | src/parser.rs:120 | `out n` is `Output` of the lone number `n` |
| Lexer.SkipBlanks | src/lexer.rs:15 | the `^[ \t]*` every pattern starts with |
| Lexer.SkipSpace | src/lexer.rs:38-41 | the `\s*` after a line break, `(` and `{` |
| Lexer.MatchAfterBlanks | src/lexer.rs:34-54 | each literal pattern at the start of the text: its fixed text, the fixed text then `\s*`, or `\r?\n\s*` |
| Lexer.MatchPattern | src/lexer.rs:15 | the anchored regular expression `^[ \t]*` followed by the pattern: the rest of the text after the match, or none |
| Lexer.RegexLiteral | src/lexer.rs:15 | `RegexLiteralParser`: the match consumed, `()` yielded |
| Lexer.LiteralP | src/lexer.rs:12-19 | `literal!(reg, tok)`: the pattern mapped to its token |
| Lexer.NumberAt | src/lexer.rs:27-30 | `number()` after the leading blanks: the digit run read as an `i32`, then `[ \t]*` |
| Lexer.IdentAt | src/lexer.rs:22-25 | `ident()` after the leading blanks: a letter and the word characters after it, then `[ \t]*` |
| Lexer.StepOf | src/lexer.rs:33-57 | the `or!` over a literal table, `number()` and `ident()`, the first success winning |
| Lexer.Lex | src/lexer.rs:33-57 | `token()`: `rep!` of that step |
| Lexer.Run | src/lexer.rs:15 | a greedy `cls*` takes the longest prefix of the class: every character it takes is in the class, and the one after it is not |
| Lexer.SkipSuffix | src/lexer.rs:15-38 | skipping `[ \t]*` or `\s*` leaves a suffix that does not start with such a character |
| Lexer.MatchSuffix | src/lexer.rs:15 | a pattern's match leaves a suffix of the text, a strictly shorter one when the pattern consumes |
| Lexer.MatchAfterSuffix | src/lexer.rs:34-54 | the same after the leading blanks |
| Lexer.LineBreakSuffix | src/lexer.rs:38 | `\r?\n\s*` consumes and leaves a suffix |
| Lexer.DigitRun | src/lexer.rs:28 | `\d+` takes the longest digit prefix: all digits, a prefix of the text, and not followed by a digit |
| Lexer.NumberAtSpec | src/lexer.rs:27-30 | `number()` succeeds exactly where a digit comes first and the run's value fits an `i32` |
| Lexer.NumberAtValue | src/lexer.rs:28-29 | the token holds the value of the digit run, and the rest is the text after it with its blanks skipped |
| Lexer.NumberAtShrinks | src/lexer.rs:28 | `number()` consumes |
| Lexer.NumberAtErr | src/lexer.rs:28-29 | `number()` fails only for want of a digit or for a value that does not fit an `i32` |
| Lexer.IdentAtSpec | src/lexer.rs:22-25 | `ident()` succeeds iff a letter comes first; it yields the letter and the longest run of word characters after it, and skips the blanks after them |
| Lexer.LiteralParsers | src/lexer.rs:12-19 | the parser of each entry of a literal table, in order |
| Lexer.AlternativesOf | src/lexer.rs:33-57 | the `or!` alternatives are the literals in order, then `number()`, then `ident()` |
| Lexer.LiteralOn | src/lexer.rs:12-19 | a `literal!` yields its token and the rest after the match, or fails |
| Lexer.StepAtLiteralOf | src/lexer.rs:33-57 | the first literal of the list that matches gives the token |
| Lexer.NumberLast | src/lexer.rs:55 | when no literal matches, `number()` is tried |
| Lexer.LiteralsFailOf | src/lexer.rs:33-54 | literals whose patterns do not match fail |
| Lexer.IdentLast | src/lexer.rs:56 | `ident()` is tried after `number()` |
| Lexer.NoneLast | src/lexer.rs:33-57 | when nothing matches, the step fails |
| Lexer.LiteralConsumes | src/lexer.rs:12-19 | a literal with a non-empty pattern consumes |
| Lexer.StepConsumesOf | src/lexer.rs:33-57 | a step over consuming literals consumes |
| Lexer.NumberIdentConsume | src/lexer.rs:22-30 | `number()` and `ident()` consume |
| Lexer.StepAfterBlanksOf | src/lexer.rs:15-28 | every alternative looks at the text only after its leading blanks |
| Lexer.LeadTable | src/lexer.rs:34-54 | each literal pattern of `token()` can only start with the characters its entry lists (`o` for `out`, `\r` or `\n` for the line break, ...) |
| Lexer.LiteralsConsume | src/lexer.rs:34-54 | every literal pattern of `token()` consumes |
| Lexer.NoBlanks | src/lexer.rs:15 | text without leading blanks is its own skip |
| Lexer.MissByLead | src/lexer.rs:34-54 | a pattern cannot match text starting with a character its match cannot start with |
| Lexer.LiteralsMiss | src/lexer.rs:33-54 | the literals before `i` fail when those that could start with the first character fail |
| Lexer.StepAtLiteral | src/lexer.rs:33-57 | the first literal of `token()` that matches gives the token |
| Lexer.StepConsumes | src/lexer.rs:33-57 | every step of `token()` consumes, so the repetition never stops on an empty match |
| Lexer.LexTotal | src/lexer.rs:33 | lexing never fails and hands back a suffix of its input |
| Lexer.LexStops | src/lexer.rs:33 | lexing stops only where no pattern matches |
| Lexer.RunAppend | src/lexer.rs:15 | a run over a prefix of the class continues into the rest |
| Lexer.SkipBlanksAppend | src/lexer.rs:15 | leading blanks are all skipped |
| Lexer.BlanksIgnored | src/lexer.rs:15-28 | blanks in front of a token change neither the token nor what follows it |
| Lexer.StepEmpty | src/lexer.rs:33-57 | nothing matches the empty text |
| Lexer.SpellNonEmpty | src/lexer.rs:34-56 | every token the lexer produces is spelled with a non-blank first character |
| Lexer.StepExact | src/lexer.rs:34-54 | a fixed-text literal reads its own text when no earlier literal that could start there matches |
| Lexer.StepThenSpace | src/lexer.rs:39-41 | a bracket literal that skips whitespace reads its text when no whitespace follows |
| Lexer.StepOneCharComparison | src/lexer.rs:43-51 | `>`, `<` and `=` are read alone only when no `=` follows: the two-character comparators come first |
| Lexer.StepNewLine | src/lexer.rs:38 | a line feed whose next character cannot continue the break is read as `NewLine` |
| Lexer.LineBreakMatch | src/lexer.rs:38 | `\r?\n\s*` matches a line feed not followed by whitespace |
| Lexer.NothingBefore | src/lexer.rs:33-54 | no earlier literal can match text that none of them can start |
| Lexer.NotKeyword | src/lexer.rs:34-37 | a name not starting with a keyword does not start with it whatever follows |
| Lexer.NumberMatch | src/lexer.rs:27-30 | `number()` reads the decimal digits of a non-negative `i32` back as its `Number` when nothing that continues a number follows |
| Lexer.StepNumber | src/lexer.rs:55 | one step reads a non-negative number back from its digits |
| Lexer.IdentMatch | src/lexer.rs:22-30 | a name is not a number and `ident()` reads it back |
| Lexer.NotNumber | src/lexer.rs:28 | text starting with a letter is not a number |
| Lexer.IdentRead | src/lexer.rs:22-25 | `ident()` reads a name back |
| Lexer.IdentMisses | src/lexer.rs:34-54 | a name starting with no keyword is taken by no literal |
| Lexer.KeywordsMiss | src/lexer.rs:34-37 | such a name is taken by none of the four keywords |
| Lexer.KeywordMiss | src/lexer.rs:34-37 | a keyword pattern misses a name that does not start with it |
| Lexer.StepIdent | src/lexer.rs:56 | one step reads a name back |
| Lexer.StepKeyword | src/lexer.rs:34-37 | `out`, `if`, `else`, `while` are read as keywords whatever follows them: there is no word boundary |
| Lexer.StepBracket | src/lexer.rs:39-42 | the four brackets are read back |
| Lexer.StepComparison | src/lexer.rs:43-48 | each comparator is read back, `>=`/`<=`/`==` as one token |
| Lexer.StepOperator | src/lexer.rs:49-54 | the operators are read back, `-` always as `MinusSign` |
| Lexer.StepSpell | src/lexer.rs:33-57 | every token the lexer can produce is read back from its spelling followed by anything that cannot continue it |
| Lexer.StepSpellAll | src/lexer.rs:33-57 | the same for all tokens at once |
| Lexer.RepeatPrinted | src/lexer.rs:33 | the repetition of such a step reads a printed token sequence back, in order |
| Lexer.LexPrinted | src/lexer.rs:33-57 | lexing printed tokens gives them back, stopping at text no pattern reads |
| Lexer.LexPrintedAll | src/lexer.rs:33-57 | a whole printed text is lexed back to its tokens |
| Lexer.BlankLinesAbsorbed | src/lexer.rs:38 | a line break, `\r\n` or `\n`, swallows all following whitespace: blank lines give one `NewLine` |
| Lexer.LineBreakSkips | src/lexer.rs:38 | the line-break pattern consumes the break and the whitespace after it |
| Lexer.OpenBracketAbsorbs | src/lexer.rs:39-41 | `(` and `{` swallow the whitespace after them, line breaks included |
| Lexer.StepThenSpaceSkips | src/lexer.rs:39-41 | a bracket literal skips all whitespace after its text |
| Lexer.PrintIffy | src/lexer.rs:34-56 | the spellings of `if fy`, `>=` and `- 5` |
| Lexer.LexIffy | src/lexer.rs:35-56 | `iffy` lexes as `IfKeyword` then `Ident("fy")` |
| Lexer.LexGeq | src/lexer.rs:45-47 | `>=` lexes as one comparator |
| Lexer.LexNegative | src/lexer.rs:50-55 | `-5` lexes as `MinusSign` then `Number(5)` |
| Pipeline.Show | src/main.rs:224 | the `{}` text of a token, as `#[deriving(Show)]` prints it |
| Pipeline.Split | src/main.rs:115 | `str::split(c)`: the pieces between the separators, empty ones included |
| Pipeline.Trim | src/main.rs:120 | `str::trim`: leading and trailing whitespace removed |
| Pipeline.ParseInt | src/main.rs:127 | `from_str::<int>`: an optional `-` and one or more digits |
| Pipeline.WordTokens | src/main.rs:120-136 | the `match` on one trimmed word: `=`, `+`, `*`, `out`, nothing for the empty word, a `Number` when it reads as an integer, else an `Ident` |
| Pipeline.WordsTokens | src/main.rs:118-137 | the inner loop: the tokens of the words of a line, in order |
| Pipeline.LinesTokens | src/main.rs:117-139 | the outer loop: each line's tokens followed by `NewLine` |
| Pipeline.Tokens | src/main.rs:114-141 | what `tokenize` returns |
| Pipeline.IndexOf | src/main.rs:115-118 | the position `split` cuts at is within the text |
| Pipeline.IndexOfSpec | src/main.rs:115-118 | it holds a separator and none comes before it |
| Pipeline.JoinSplit | src/main.rs:115-118 | joining the pieces of `split` gives the text back |
| Pipeline.SplitCount | src/main.rs:115-118 | `split` gives one piece more than there are separators, and no piece holds one |
| Pipeline.SplitJoin | src/main.rs:115-118 | splitting joined separator-free pieces gives them back |
| Pipeline.FirstIndex | src/main.rs:115-118 | the first separator of a piece followed by a separator is at the end of the piece |
| Pipeline.TrimStart | src/main.rs:120 | trimming the front shortens the text |
| Pipeline.TrimEnd | src/main.rs:120 | trimming the end shortens the text |
| Pipeline.TrimStartSpec | src/main.rs:120 | it removes exactly the leading whitespace |
| Pipeline.TrimEndSpec | src/main.rs:120 | trimming the end removes exactly the trailing whitespace |
| Pipeline.TrimSpec | src/main.rs:120 | `trim` is a piece of the text with only whitespace around it, and neither starts nor ends with whitespace |
| Pipeline.TrimKeeps | src/main.rs:120 | text without surrounding whitespace is left as it is |
| Pipeline.TrimIdempotent | src/main.rs:120 | trimming twice is trimming once |
| Pipeline.ParseIntAccepts | src/main.rs:127 | `from_str` accepts digits with one `-` in front or none |
| Pipeline.ParseShow | src/main.rs:127-129 | `from_str` reads the decimal text of an integer back as that integer |
| Pipeline.PushWord | src/main.rs:120-136 | one word pushes its token: `=`, `+`, `*`, `out` their tokens, the empty word none, an integer a `Number`, anything else an `Ident` |
| Pipeline.PushLine | src/main.rs:118-138 | the words of a line push their tokens in order and then `NewLine` |
| Pipeline.Tokenize | src/main.rs:114-141 | the loops of `tokenize` compute `Tokens`: each line's word tokens, each line closed by `NewLine` |
| Pipeline.WordTokensShape | src/main.rs:120-136 | a word gives at most one token, never `NewLine`, and none exactly when it is empty |
| Pipeline.WordsNoNewLine | src/main.rs:119-137 | the words of a line give no `NewLine` |
| Pipeline.LinesNewLines | src/main.rs:117-139 | every line gives exactly one `NewLine` |
| Pipeline.TokenizeNewLines | src/main.rs:115-138 | `tokenize` gives one `NewLine` more than the input has line feeds, the last line included |
| Pipeline.NumberSpelling | src/main.rs:126-129 | a printed integer is a non-empty word that is not an operator or `out` |
| Pipeline.SpellNoWhite | src/main.rs:118-120 | a word token is spelled with no whitespace |
| Pipeline.WordRoundTrip | src/main.rs:120-136 | a word token's trimmed spelling gives the token back |
| Pipeline.SpellingsAt | src/main.rs:118 | the spellings of a line, one per token |
| Pipeline.WordsTokensSnoc | src/main.rs:119-137 | the word tokens of a line are those of its words in order |
| Pipeline.WordsOfSpellings | src/main.rs:119-137 | the spellings of word tokens give the tokens back |
| Pipeline.LineRoundTrip | src/main.rs:118-137 | tokenizing a printed line of word tokens, words separated by spaces, gives them back; the line holds no line feed |
| Pipeline.NoCharInJoin | src/main.rs:115 | joining pieces without a character introduces none |
| Pipeline.TextsAt | src/main.rs:115 | the printed lines, one per line of tokens |
| Pipeline.LinesOfPrinted | src/main.rs:117-139 | the tokens of printed lines are the lines' tokens, each closed by `NewLine` |
| Pipeline.TokenizePrinted | src/main.rs:114-141 | `tokenize` reads printed lines of word tokens back as those tokens, each line closed by `NewLine` |
| Pipeline.NumOf | src/main.rs:50-53 | the matcher of `match_num`: a number token is `Num`, anything else "wrong type, expected number, got ..." |
| Pipeline.MatchNum | src/main.rs:49-54 | `match_num()` |
| Pipeline.PlusLit | src/main.rs:61 | `literal(PlusSign)` |
| Pipeline.MultLit | src/main.rs:81 | `literal(MultSign)` |
| Pipeline.PlusReps | src/main.rs:59-63 | the `RepSepParser` of `plus!()`: numbers separated by `+`, at least two |
| Pipeline.PlusExpr | src/main.rs:56-67 | `plus!()`: those numbers wrapped in `Plus` |
| Pipeline.SimpleExpr | src/main.rs:69-76 | `simple_expr!()`: `plus!()` tried first, then `match_num()` |
| Pipeline.MultReps | src/main.rs:79-83 | the `RepSepParser` of `mult`: simple expressions separated by `*`, at least two |
| Pipeline.MultExpr | src/main.rs:78-85 | `mult`: those factors wrapped in `Mult` |
| Pipeline.ExprParser | src/main.rs:87-92 | `expr()`: `mult` tried first, then `simple_expr!()` |
| Pipeline.MatchNumProgress | src/main.rs:49-54 | `match_num` consumes |
| Pipeline.LitNonGrowing | src/main.rs:61-81 | `literal(PlusSign)` and `literal(MultSign)` do not grow the input |
| Pipeline.SimpleProgress | src/main.rs:69-76 | `simple_expr!` consumes |
| Pipeline.ChainLast | src/main.rs:59-83 | the last link of a chain: the operand is read and the separator fails after it |
| Pipeline.ChainLink | src/main.rs:59-83 | a link before another: the operand is read and the separator accepted |
| Pipeline.ChainSpaced | src/main.rs:59-83 | a chain reads back separated operands, each of which its operand parser reads back |
| Pipeline.ChainShape | src/main.rs:59-83 | what a chain accepts is its operands' tokens separated by the separator |
| Pipeline.MatchNumReads | src/main.rs:49-54 | `match_num` reads a number back whatever follows it |
| Pipeline.MatchNumSpells | src/main.rs:49-54 | `match_num` accepts only a number token |
| Pipeline.PlusReadsBack | src/main.rs:56-67 | `plus!` reads a sum of two or more numbers back when no `+` follows |
| Pipeline.PlusSpells | src/main.rs:56-67 | what `plus!` accepts is two or more numbers joined by `+`: it accepts only numbers |
| Pipeline.SimpleReadsBack | src/main.rs:69-76 | `simple_expr!` reads a number or a sum back when no `+` follows |
| Pipeline.SimpleSpells | src/main.rs:69-76 | what `simple_expr!` accepts is a number or a sum, written out |
| Pipeline.MultReadsBack | src/main.rs:78-85 | `mult` reads back a product of simple expressions, sums included |
| Pipeline.MultSpells | src/main.rs:78-85 | what `mult` accepts is two or more simple expressions joined by `*` |
| Pipeline.ExprRoundTrip | src/main.rs:87-90 | `expr` reads back every expression it can build, when no `+` or `*` follows |
| Pipeline.ExprSpells | src/main.rs:87-90 | what `expr` accepts is the tokens of an expression it can build, followed by the remainder |
| Pipeline.SumBreaks | src/main.rs:56-67 | `b + c + *` is no sum: after an accepted `+` no number follows and the chain fails |
| Pipeline.FactorStops | src/main.rs:69-76 | so `simple_expr!` there is the number `b` alone |
| Pipeline.ExampleMain | src/main.rs:97-100 | the expression of `main`, `4 * 6 + 3 + * 5 * 2` with its numbers abstracted, parses as `Mult([4, 6])` and leaves `+ 3 + * ...` |
| Pipeline.Unit | src/main.rs:180-194 | the starting values of the two loops of `eval`, `0i` and `1i` |
| Pipeline.Apply | src/main.rs:184-198 | `sum += value` and `total *= value` |
| Pipeline.Eval | src/main.rs:172-208 | what `eval` returns |
| Pipeline.Fold | src/main.rs:179-206 | the loop of `eval` over the operands, returning the first error |
| Pipeline.Evaluate | src/main.rs:172-208 | `eval` with its loops computes `Eval` |
| Pipeline.FoldErrorStays | src/main.rs:186-202 | the first failing operand's error is returned; later operands change nothing |
| Pipeline.EvalDefined | src/main.rs:172-208 | `eval` succeeds iff every variable of the expression is defined; otherwise its message is "Undefined var v" for such a `v` |
| Pipeline.FoldDefined | src/main.rs:179-206 | a sum or product succeeds iff all its variables are defined, else it names one |
| Pipeline.FoldConcat | src/main.rs:179-206 | the folds start at 0 and 1 and are associative: folding a concatenation combines the two folds, and the first part's error wins |
| Pipeline.FoldSingle | src/main.rs:179-206 | a one-operand sum or product is its operand |
| Pipeline.ParsedEvaluates | src/main.rs:98-105 | what `expr` parses mentions no variable, so `eval` never fails on it |
| Pipeline.NumsHaveNoVars | src/main.rs:49-54 | numbers mention no variable |
| Pipeline.SimplesHaveNoVars | src/main.rs:69-76 | simple expressions mention no variable |
| Pipeline.ExprOf | src/main.rs:151-161 | the expression each statement evaluates |
| Pipeline.Step | src/main.rs:151-167 | one iteration of `run`: an assignment updates the environment, an output prints the value, an error prints "ERROR: ..." and stops |
| Pipeline.Exec | src/main.rs:148-170 | the state `run` reaches after all statements, from the empty environment |
| Pipeline.Run | src/main.rs:148-170 | the loop of `run` computes the lines `Exec` prints |
| Pipeline.StoppedStays | src/main.rs:155-166 | after the first error nothing more is run |
| Pipeline.TracePrefix | src/main.rs:148-170 | lines are only added: what a prefix prints is a prefix of what the program prints |
| Pipeline.StopsAtFirstError | src/main.rs:148-170 | a stopped run stopped at a statement whose expression failed, printed that error last and ran nothing after |
| Pipeline.CleanRun | src/main.rs:148-170 | a run without error prints one line per `Output` and defines exactly the assigned variables; a stopped run printed an `ERROR: ` line last |
| Pipeline.ExecSnoc | src/main.rs:150 | the statements run in order |
| Pipeline.ExampleRun | src/main.rs:20-29 | the commented-out program in `main`, with names and constants abstracted, prints `n` and then `2 * (n + m)`; assignments overwrite |
| Pipeline.SumOfTwo | src/main.rs:179-192 | a two-operand sum is the sum of the two values |
| Pipeline.ExampleUndefined | src/main.rs:161-177 | an undefined variable stops `run` with the single line "ERROR: Undefined var x" |
| Pipeline.SpacedWords | src/main.rs:118-136 | separated operands are written in word tokens |
| Pipeline.ExprWords | src/main.rs:118-136 | an expression `expr` builds is written in numbers, `+` and `*` |
| Pipeline.EndToEnd | src/main.rs:97-105 | printing such an expression on a line, tokenizing it and parsing the tokens gives it back with the line's `NewLine` left over, and it evaluates without error |
| Pipeline.MainEvaluates | src/main.rs:100-105 | the test in `main` before `eval`: the parse succeeded and left no token |
| Pipeline.MainNeverEvaluates | src/main.rs:99-105 | no input passes that test: `tokenize` always appends `NewLine`, which `expr()` never consumes |
| Pipeline.MainEvaluatesLine | src/main.rs:100-105 | the corrected test: the line's closing `NewLine` may be left over |
| Pipeline.MainEvaluatesPrinted | src/main.rs:97-105 | every printed expression `expr()` can build passes the corrected test, and `eval` succeeds on it |

## Left out

- Console output. `println!` in `main` and in `run` is not modelled as I/O. `run` returns
  the lines it would print, in order.
- `main` is modelled through its expression (`ExampleMain`) and the test it makes before
  `eval` (`MainEvaluates`). The messages it prints are not modelled.
- `RegexParser` and its test in src/lib.rs depend on the regex crate; they are not modelled.
- The regular expressions of src/lexer.rs are written out as the prefix matchers they
  denote on ASCII text. `\s`, `\w` and `\d` are taken in their ASCII sense. Unicode text and
  byte offsets (`char_at`, `slice_from`) are not modelled.
- Pipeline.Trim: `tokenize`'s `trim` (src/main.rs:120) strips only the six ASCII whitespace
  characters in the model. `str::trim` also strips the other Unicode White_Space
  characters, such as U+00A0 and U+2028; the model keeps them inside the word.
- The internals of the `peruse` crate are not part of this model. Each combinator is given
  the meaning of its counterpart in src/parsers.rs. `then_l`, `then_r`, `opt` and `repeat`
  have no counterpart there and are built from those meanings.
- Peruse.Repeat: it also stops after a success that consumes nothing, which would otherwise
  repeat forever. Every parser the grammar and the lexer repeat consumes
  (`StatementConsumes`, `StepConsumes`), so this guard never fires on them.
- Lexer.NumberAt: a digit run too large for an `i32` makes `from_str(...).unwrap()` panic in
  the source. The model makes `number()` fail there with "number out of range" instead.
- Pipeline.Eval: the source's `int` is the machine-sized integer of the Rust of its time,
  and `sum +=` and `total *=` wrap around at its width. The model adds and multiplies
  mathematical integers, so it does not model that wrap-around.
- Pipeline.ParseInt: for a digit run outside the range of `int`, `from_str` returns `None`.
  `tokenize` then pushes `Ident(word)` (src/main.rs:131-133). The model reads every digit run
  as a `Number`, and `ParseShow` states the round trip for every integer. A leading `+` is
  not accepted.
- Pipeline.Show: the text that `#[deriving(Show)]` prints for a token, for example
  `Number(5)`, is assumed. It appears only inside `match_num`'s error message.
- An evaluator for the new syntax is not in the repository's files and is not modelled.
  That includes comparators, division and modulo.
- The commented-out code in src/parsers.rs and src/main.rs is not modelled, except for the
  example program in `main` (`ExampleRun`).
- Rust lifetimes, boxing and trait objects are not modelled. The lazy construction of
  `OrParser`'s alternatives is modelled as thunks.
- SliceParsers.RepSepParse: it requires a `rep` that consumes whenever it succeeds and a
  `sep` that never grows the input; `Chain`, `RepSep` and their lemmas carry the same
  requirement.
- The source needs less than that requirement. Its loop (src/parsers.rs:107-128) ends
  whenever `rep` or `sep` fails. It runs forever exactly when some iteration in which both
  succeed leaves the input unchanged, since it then repeats that iteration.
- Pairs outside the requirement that still end, such as a non-consuming `rep` with a
  consuming `sep`, are not modelled. Every use in src/main.rs meets the requirement
  (`MatchNumProgress`, `SimpleProgress`, `LitNonGrowing`).

## Findings

| source | as written | input that shows it | evidently intended | confidence | as-written member | corrected member |
|---|---|---|---|---|---|---|
| src/main.rs:99-104 | `main` calls `eval` only when the parse of `tokenize(p2)` leaves no token. `tokenize` ends every line with `NewLine`, and `expr()` never consumes one, so a token is always left and `eval` is never reached | the program's own `"4 * 6 + 3 + * 5 * 2"`, or the single line `"4 * 6"` | the line's closing `NewLine` may remain, and the expression is evaluated | not executed | Pipeline.MainNeverEvaluates | Pipeline.MainEvaluatesPrinted |
