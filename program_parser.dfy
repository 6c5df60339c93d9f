/** The recursive-descent grammar of src/parser.rs over tokens.

    Each rule is built by a non-recursive function of the parsers it refers to (`ParenOf`,
    `MultOf`, `IfOf`, ...), as the source builds each rule from combinators.  The source ties
    the recursion with `recursive(|| expression())` and `recursive(|| program())`; here a rule
    that refers back to `Expression`, `IfStmt` or `Program` does so through a guard
    (`ExpressionRec(b)`, ...) that only calls back on inputs shorter than the bound `b`, which
    makes the recursion well founded.  Every recursive reference comes after a token has been
    consumed, so the guard never fires: `ExpressionIsRule`, `IfStmtIsRule` and
    `ProgramIsRule` prove that each rule satisfies its grammar equation, in which the rule
    refers to the others by name. */
module ProgramParser {
  import opened Results
  import opened Grammar
  import SliceParsers
  import opened Peruse

  type TokenParser<O> = Parser<Token, O>

  // ---------------------------------------------------------------- token matchers

  /** The `simple_term` matcher: an identifier is a variable, a number a numeric literal. */
  function SimpleTermOf(t: Token): Option<Expr> {
    match t
    case Ident(name) => Some(Variable(name))
    case Number(i) => Some(Num(i))
    case _ => None
  }

  /** The `multop` matcher. */
  function MultOpOf(t: Token): Option<MultOp> {
    match t
    case MultSign => Some(Multiply)
    case DivideSign => Some(Divide)
    case ModuloSign => Some(Modulo)
    case _ => None
  }

  /** The `addop` matcher. */
  function AddOpOf(t: Token): Option<AddOp> {
    match t
    case PlusSign => Some(Add)
    case MinusSign => Some(Subtract)
    case _ => None
  }

  /** The assignment `target` matcher. */
  function TargetOf(t: Token): Option<string> {
    match t
    case Ident(name) => Some(name)
    case _ => None
  }

  /** The `comparator` matcher. */
  function ComparatorOf(t: Token): Option<Comparator> {
    match t
    case Cmp(c) => Some(c)
    case _ => None
  }

  const SimpleTerm: TokenParser<Expr> := MatcherP(SimpleTermOf)
  const MultOpP: TokenParser<MultOp> := MatcherP(MultOpOf)
  const AddOpP: TokenParser<AddOp> := MatcherP(AddOpOf)
  const Target: TokenParser<string> := MatcherP(TargetOf)
  const ComparatorP: TokenParser<Comparator> := MatcherP(ComparatorOf)

  // ---------------------------------------------------------------- flattening

  /** The `mult` mapper: the first operand tagged `Multiply`, then each operator with its
      operand, in source order. */
  function FlattenMult(parsed: (Expr, seq<(MultOp, Expr)>)): (e: Expr)
    ensures e.MultDiv? && |e.mults| == |parsed.1| + 1
    ensures e.mults[0] == MultTerm(Multiply, parsed.0)
    ensures forall i :: 0 <= i < |parsed.1| ==> e.mults[i + 1] == MultTerm(parsed.1[i].0, parsed.1[i].1)
  {
    MultDiv([MultTerm(Multiply, parsed.0)] + seq(|parsed.1|, i requires 0 <= i < |parsed.1| => MultTerm(parsed.1[i].0, parsed.1[i].1)))
  }

  /** The `plus` mapper: the first operand tagged `Add`, then each operator with its operand. */
  function FlattenAdd(parsed: (Expr, seq<(AddOp, Expr)>)): (e: Expr)
    ensures e.AddSub? && |e.adds| == |parsed.1| + 1
    ensures e.adds[0] == AddTerm(Add, parsed.0)
    ensures forall i :: 0 <= i < |parsed.1| ==> e.adds[i + 1] == AddTerm(parsed.1[i].0, parsed.1[i].1)
  {
    AddSub([AddTerm(Add, parsed.0)] + seq(|parsed.1|, i requires 0 <= i < |parsed.1| => AddTerm(parsed.1[i].0, parsed.1[i].1)))
  }

  /** The loop of the `mult` mapper, pushing onto `ops`. */
  method FlattenMultLoop(first: Expr, rest: seq<(MultOp, Expr)>) returns (e: Expr)
    ensures e == FlattenMult((first, rest))
  {
    var ops := [MultTerm(Multiply, first)];
    for i := 0 to |rest|
      invariant |ops| == i + 1 && ops[0] == MultTerm(Multiply, first)
      invariant forall j :: 0 <= j < i ==> ops[j + 1] == MultTerm(rest[j].0, rest[j].1)
    {
      ops := ops + [MultTerm(rest[i].0, rest[i].1)];
    }
    e := MultDiv(ops);
  }

  /** The loop of the `plus` mapper, pushing onto `ops`. */
  method FlattenAddLoop(first: Expr, rest: seq<(AddOp, Expr)>) returns (e: Expr)
    ensures e == FlattenAdd((first, rest))
  {
    var ops := [AddTerm(Add, first)];
    for i := 0 to |rest|
      invariant |ops| == i + 1 && ops[0] == AddTerm(Add, first)
      invariant forall j :: 0 <= j < i ==> ops[j + 1] == AddTerm(rest[j].0, rest[j].1)
    {
      ops := ops + [AddTerm(rest[i].0, rest[i].1)];
    }
    e := AddSub(ops);
  }

  // ---------------------------------------------------------------- expression rules

  /** `paren_expr`: `(` expression `)`, giving the inner expression itself. */
  function ParenOf(expr: TokenParser<Expr>): TokenParser<Expr> {
    ThenLP(ThenRP(LitP(OpenParen), expr), LitP(CloseParen))
  }

  /** `term`: a parenthesised expression, or else a simple term. */
  function TermOf(paren: TokenParser<Expr>): TokenParser<Expr> {
    OrP(paren, SimpleTerm)
  }

  /** `item.then(op.then(item).repeat())`, the operand list of `mult` and of `plus`. */
  function ListOf<Op>(op: TokenParser<Op>, item: TokenParser<Expr>): TokenParser<(Expr, seq<(Op, Expr)>)> {
    ThenP(item, RepeatP(ThenP(op, item)))
  }

  /** `mult`: a term followed by any number of (operator, term) pairs, flattened. */
  function MultOf(term: TokenParser<Expr>): TokenParser<Expr> {
    MapP(ListOf(MultOpP, term), FlattenMult)
  }

  /** `plus`: a `mult` followed by any number of (operator, `mult`) pairs, flattened. */
  function PlusOf(mult: TokenParser<Expr>): TokenParser<Expr> {
    MapP(ListOf(AddOpP, mult), FlattenAdd)
  }

  /** `recursive(|| expression())` inside a rule applied to at most `b`. */
  function ExpressionRec(b: seq<Token>): TokenParser<Expr>
    decreases |b|, 0
  {
    (s: seq<Token>) => if |s| < |b| then Expression(s) else Err("recursion bound")
  }

  /** `expression()` applied to `ts`. */
  function Expression(ts: seq<Token>): Result<(Expr, seq<Token>)>
    decreases |ts|, 1
  {
    PlusOf(MultOf(TermOf(ParenOf(ExpressionRec(ts)))))(ts)
  }

  /** The expression rules with the recursion written by name, as in the source. */
  const ParenExprRule: TokenParser<Expr> := ParenOf(Expression)
  const TermRule: TokenParser<Expr> := TermOf(ParenExprRule)
  const MultRule: TokenParser<Expr> := MultOf(TermRule)
  const ExpressionRule: TokenParser<Expr> := PlusOf(MultRule)

  // ---------------------------------------------------------------- consumption

  lemma ParenConsumes(expr: TokenParser<Expr>)
    requires NonGrowing(expr)
    ensures Progressing(ParenOf(expr))
  {
    var open := ThenRP(LitP(OpenParen), expr);
    LitConsumes(OpenParen);
    ThenConsumes(LitP(OpenParen), expr);
    LitConsumes(CloseParen);
    ProgressingNonGrowing(LitP(CloseParen));
    ThenConsumes(open, LitP(CloseParen));
  }

  lemma TermConsumes(paren: TokenParser<Expr>)
    requires Progressing(paren)
    ensures Progressing(TermOf(paren))
  {
    MatcherConsumes(SimpleTermOf);
    OrConsumes(paren, SimpleTerm);
  }

  lemma ListConsumes<Op>(op: TokenParser<Op>, item: TokenParser<Expr>)
    requires Progressing(item)
    ensures Progressing(ListOf(op, item))
  {
    RepeatOptNonGrowing(ThenP(op, item));
    ThenConsumes(item, RepeatP(ThenP(op, item)));
  }

  /** Every expression consumes at least one token: it starts with a term, which starts with
      `(` or with an identifier or a number. */
  lemma {:induction false} ExpressionConsumes(ts: seq<Token>)
    ensures Expression(ts).Ok? ==> |Expression(ts).value.1| < |ts|
    decreases |ts|
  {
    var g := ExpressionRec(ts);
    forall s | g(s).Ok? ensures |g(s).value.1| < |s| {
      if |s| < |ts| {
        ExpressionConsumes(s);
      }
    }
    ProgressingNonGrowing(g);
    ParenConsumes(g);
    TermConsumes(ParenOf(g));
    ListConsumes(MultOpP, TermOf(ParenOf(g)));
    MapConsumes(ListOf(MultOpP, TermOf(ParenOf(g))), FlattenMult);
    ListConsumes(AddOpP, MultOf(TermOf(ParenOf(g))));
    MapConsumes(ListOf(AddOpP, MultOf(TermOf(ParenOf(g)))), FlattenAdd);
  }

  lemma ExpressionProgressing()
    ensures Progressing(Expression)
  {
    forall s | Expression(s).Ok? ensures |Expression(s).value.1| < |s| {
      ExpressionConsumes(s);
    }
  }

  // ---------------------------------------------------------------- grammar equations

  lemma ParenAt(expr: TokenParser<Expr>, expr': TokenParser<Expr>, s: seq<Token>)
    requires forall d :: |d| < |s| ==> expr(d) == expr'(d)
    ensures ParenOf(expr)(s) == ParenOf(expr')(s)
  {
    ThenAt(LitP(OpenParen), LitP(OpenParen), expr, expr', s);
    ThenAt(ThenRP(LitP(OpenParen), expr), ThenRP(LitP(OpenParen), expr'), LitP(CloseParen), LitP(CloseParen), s);
  }

  lemma ListAgree<Op>(op: TokenParser<Op>, item: TokenParser<Expr>, item': TokenParser<Expr>, n: nat)
    requires forall d :: |d| <= n ==> item(d) == item'(d)
    requires Progressing(op) && NonGrowing(item')
    ensures forall d :: |d| <= n ==> ListOf(op, item)(d) == ListOf(op, item')(d)
  {
    forall d | |d| <= n ensures ThenP(op, item)(d) == ThenP(op, item')(d) {
      ThenAt(op, op, item, item', d);
    }
    forall d | |d| <= n ensures ListOf(op, item)(d) == ListOf(op, item')(d) {
      if item'(d).Ok? {
        RepeatAgree(ThenP(op, item), ThenP(op, item'), n, item'(d).value.1);
      }
      ThenAt(item, item', RepeatP(ThenP(op, item)), RepeatP(ThenP(op, item')), d);
    }
  }

  /** `expression` satisfies its grammar equation: the bound on the recursion never cuts a
      parse short. */
  lemma ExpressionIsRule(ts: seq<Token>)
    ensures Expression(ts) == ExpressionRule(ts)
  {
    var g := ExpressionRec(ts);
    var n := |ts|;
    ExpressionProgressing();
    ProgressingNonGrowing(Expression);
    ParenConsumes(Expression);
    TermConsumes(ParenExprRule);
    ProgressingNonGrowing(TermRule);
    MatcherConsumes(MultOpOf);
    MatcherConsumes(AddOpOf);
    forall d | |d| <= n ensures TermOf(ParenOf(g))(d) == TermRule(d) {
      ParenAt(g, Expression, d);
      OrAt(ParenOf(g), ParenExprRule, SimpleTerm, SimpleTerm, d);
    }
    ListAgree(MultOpP, TermOf(ParenOf(g)), TermRule, n);
    forall d | |d| <= n ensures MultOf(TermOf(ParenOf(g)))(d) == MultRule(d) {
      MapAt(ListOf(MultOpP, TermOf(ParenOf(g))), ListOf(MultOpP, TermRule), FlattenMult, d);
    }
    ListConsumes(MultOpP, TermRule);
    MapConsumes(ListOf(MultOpP, TermRule), FlattenMult);
    ProgressingNonGrowing(MultRule);
    ListAgree(AddOpP, MultOf(TermOf(ParenOf(g))), MultRule, n);
    MapAt(ListOf(AddOpP, MultOf(TermOf(ParenOf(g)))), ListOf(AddOpP, MultRule), FlattenAdd, ts);
  }

  // ---------------------------------------------------------------- shape of expressions

  /** The shape `expression` produces: a non-empty `AddSub` whose first operand is tagged `Add`
      and whose operands are all products. */
  predicate IsSum(e: Expr)
    decreases e, 0
  {
    e.AddSub? && |e.adds| > 0 && e.adds[0].op == Add &&
    forall i :: 0 <= i < |e.adds| ==> IsProduct(e.adds[i].e)
  }

  /** The shape `mult` produces: a non-empty `MultDiv` whose first operand is tagged
      `Multiply` and whose operands are all factors. */
  predicate IsProduct(e: Expr)
    decreases e, 0
  {
    e.MultDiv? && |e.mults| > 0 && e.mults[0].op == Multiply &&
    forall i :: 0 <= i < |e.mults| ==> IsFactor(e.mults[i].e)
  }

  /** The shape `term` produces: a variable, a number, or a parenthesised sum, which appears
      as the sum itself. */
  predicate IsFactor(e: Expr)
    decreases e, 1
  {
    e.Variable? || e.Num? || IsSum(e)
  }

  /** Every success of `p` has an output satisfying `good`. */
  ghost predicate Yields(p: TokenParser<Expr>, good: Expr -> bool) {
    forall d :: p(d).Ok? ==> good(p(d).value.0)
  }

  lemma ParenYields(expr: TokenParser<Expr>)
    requires Yields(expr, IsSum)
    ensures Yields(ParenOf(expr), IsSum)
  {
  }

  lemma TermYields(paren: TokenParser<Expr>)
    requires Yields(paren, IsSum)
    ensures Yields(TermOf(paren), IsFactor)
  {
    forall d | TermOf(paren)(d).Ok? ensures IsFactor(TermOf(paren)(d).value.0) {
      assert TermOf(paren)(d) == SliceParsers.Or(() => paren, () => SimpleTerm, d);
    }
  }

  lemma MultYields(term: TokenParser<Expr>)
    requires Yields(term, IsFactor)
    ensures Yields(MultOf(term), IsProduct)
  {
    var pair := ThenP(MultOpP, term);
    forall d | pair(d).Ok? ensures IsFactor(pair(d).value.0.1) {
      assert pair(d) == SliceParsers.Dual(MultOpP, term, d);
    }
    forall d | MultOf(term)(d).Ok? ensures IsProduct(MultOf(term)(d).value.0) {
      var first := term(d);
      RepeatAll(pair, (x: (MultOp, Expr)) => IsFactor(x.1), first.value.1);
      var e := MultOf(term)(d).value.0;
      assert e == FlattenMult(ListOf(MultOpP, term)(d).value.0);
      forall i | 0 <= i < |e.mults| ensures IsFactor(e.mults[i].e) {
        if i > 0 {
          assert e.mults[i].e == Repeat(pair, first.value.1).value.0[i - 1].1;
        }
      }
    }
  }

  lemma PlusYields(mult: TokenParser<Expr>)
    requires Yields(mult, IsProduct)
    ensures Yields(PlusOf(mult), IsSum)
  {
    var pair := ThenP(AddOpP, mult);
    forall d | pair(d).Ok? ensures IsProduct(pair(d).value.0.1) {
      assert pair(d) == SliceParsers.Dual(AddOpP, mult, d);
    }
    forall d | PlusOf(mult)(d).Ok? ensures IsSum(PlusOf(mult)(d).value.0) {
      var first := mult(d);
      RepeatAll(pair, (x: (AddOp, Expr)) => IsProduct(x.1), first.value.1);
      var e := PlusOf(mult)(d).value.0;
      assert e == FlattenAdd(ListOf(AddOpP, mult)(d).value.0);
      forall i | 0 <= i < |e.adds| ensures IsProduct(e.adds[i].e) {
        if i > 0 {
          assert e.adds[i].e == Repeat(pair, first.value.1).value.0[i - 1].1;
        }
      }
    }
  }

  /** Whatever `expression` parses is a sum of products of factors, at every depth of
      parentheses. */
  lemma {:induction false} ExpressionNormal(ts: seq<Token>)
    ensures Expression(ts).Ok? ==> IsSum(Expression(ts).value.0)
    decreases |ts|
  {
    var g := ExpressionRec(ts);
    forall s | g(s).Ok? ensures IsSum(g(s).value.0) {
      if |s| < |ts| {
        ExpressionNormal(s);
      }
    }
    ParenYields(g);
    TermYields(ParenOf(g));
    MultYields(TermOf(ParenOf(g)));
    PlusYields(MultOf(TermOf(ParenOf(g))));
  }

  // ---------------------------------------------------------------- terms and examples

  /** `term` tries `( expression )` first; the parentheses leave no trace in the tree. */
  lemma TermCases(ts: seq<Token>)
    ensures |ts| > 0 && ts[0] != OpenParen ==> TermRule(ts) == SimpleTerm(ts)
    ensures ParenExprRule(ts).Ok? ==> TermRule(ts) == ParenExprRule(ts)
    ensures ParenExprRule(ts).Ok? <==>
      |ts| > 0 && ts[0] == OpenParen && Expression(ts[1..]).Ok? &&
      |Expression(ts[1..]).value.1| > 0 && Expression(ts[1..]).value.1[0] == CloseParen
    ensures ParenExprRule(ts).Ok? ==>
      ParenExprRule(ts).value == (Expression(ts[1..]).value.0, Expression(ts[1..]).value.1[1..])
  {
    assert TermRule(ts) == SliceParsers.Or(() => ParenExprRule, () => SimpleTerm, ts);
    if |ts| > 0 && ts[0] != OpenParen {
      assert ParenExprRule(ts).Err?;
    }
  }

  /** A single identifier or number, not followed by a multiplicative operator, is a product
      of one factor. */
  lemma SingleFactor(t: Token, rest: seq<Token>)
    requires SimpleTermOf(t).Some?
    requires rest == [] || MultOpOf(rest[0]).None?
    ensures MultRule([t] + rest) == Ok((MultDiv([MultTerm(Multiply, SimpleTermOf(t).value)]), rest))
  {
    var ts := [t] + rest;
    assert ts[1..] == rest;
    TermCases(ts);
    assert TermRule(ts) == Ok((SimpleTermOf(t).value, rest));
    var pair := ThenP(MultOpP, TermRule);
    assert pair(rest) == SliceParsers.Dual(MultOpP, TermRule, rest);
    assert Repeat(pair, rest) == Ok(([], rest));
    assert ListOf(MultOpP, TermRule)(ts) == Ok(((SimpleTermOf(t).value, []), rest));
    assert [MultTerm(Multiply, SimpleTermOf(t).value)] + [] == [MultTerm(Multiply, SimpleTermOf(t).value)];
  }

  /** An `addop` followed by a product. */
  lemma AddThen(ts: seq<Token>, m: Expr, r: seq<Token>)
    requires |ts| > 0 && AddOpOf(ts[0]).Some? && MultRule(ts[1..]) == Ok((m, r))
    ensures ThenP(AddOpP, MultRule)(ts) == Ok(((AddOpOf(ts[0]).value, m), r))
  {
    assert ThenP(AddOpP, MultRule)(ts) == SliceParsers.Dual(AddOpP, MultRule, ts);
  }

  /** One `addop` and a single-factor operand. */
  lemma AddStep(op: Token, t: Token, rest: seq<Token>)
    requires AddOpOf(op).Some? && SimpleTermOf(t).Some?
    requires rest == [] || MultOpOf(rest[0]).None?
    ensures ThenP(AddOpP, MultRule)([op, t] + rest) ==
            Ok(((AddOpOf(op).value, MultDiv([MultTerm(Multiply, SimpleTermOf(t).value)])), rest))
  {
    var ts := [op, t] + rest;
    assert ts[0] == op && ts[1..] == [t] + rest;
    assert MultRule(ts[1..]) == Ok((MultDiv([MultTerm(Multiply, SimpleTermOf(t).value)]), rest)) by {
      SingleFactor(t, rest);
    }
    AddThen(ts, MultDiv([MultTerm(Multiply, SimpleTermOf(t).value)]), rest);
  }

  /** A repetition of three consuming successes and then nothing. */
  lemma RepeatThree<O>(p: TokenParser<O>, s0: seq<Token>, s1: seq<Token>, s2: seq<Token>, s3: seq<Token>, x: O, y: O, z: O)
    requires p(s0) == Ok((x, s1)) && p(s1) == Ok((y, s2)) && p(s2) == Ok((z, s3))
    requires |s1| < |s0| && |s2| < |s1| && |s3| < |s2|
    requires Repeat(p, s3) == Ok(([], s3))
    ensures Repeat(p, s0) == Ok(([x, y, z], s3))
  {
    RepeatCons(p, s2, z, s3, [], s3);
    assert [z] + [] == [z];
    RepeatCons(p, s1, y, s2, [z], s3);
    assert [y] + [z] == [y, z];
    RepeatCons(p, s0, x, s1, [y, z], s3);
    assert [x] + [y, z] == [x, y, z];
  }

  /** `expression` on a first product followed by the repetition of (`addop`, product). */
  lemma ExpressionFrom(ts: seq<Token>, m: Expr, r: seq<Token>, ops: seq<(AddOp, Expr)>, rest: seq<Token>)
    requires MultRule(ts) == Ok((m, r))
    requires Repeat(ThenP(AddOpP, MultRule), r) == Ok((ops, rest))
    ensures Expression(ts) == Ok((FlattenAdd((m, ops)), rest))
  {
    ExpressionIsRule(ts);
  }

  /** `(addop, product)` fails on the end of the input and on a closing token. */
  lemma NoAddStep(ts: seq<Token>)
    requires ts == [] || AddOpOf(ts[0]).None?
    ensures Repeat(ThenP(AddOpP, MultRule), ts) == Ok(([], ts))
  {
    assert ThenP(AddOpP, MultRule)(ts) == SliceParsers.Dual(AddOpP, MultRule, ts);
    RepeatNil(ThenP(AddOpP, MultRule), ts);
  }

  /** The product of one factor, as `mult` gives for an operand without `*`, `/` or `%`. */
  function OneFactor(e: Expr): Expr {
    MultDiv([MultTerm(Multiply, e)])
  }

  /** A lone number `n` is `AddSub([AddTerm(Add, MultDiv([MultTerm(Multiply, Num(n))]))])`. */
  lemma ExampleNumber(n: i32)
    ensures Expression([Number(n)]) == Ok((AddSub([AddTerm(Add, OneFactor(Num(n)))]), []))
  {
    var ts := [Number(n)];
    var none := ts[1..];
    assert [Number(n)] + none == ts && none == [];
    assert MultRule(ts) == Ok((OneFactor(Num(n)), none)) by { SingleFactor(Number(n), none); }
    assert Repeat(ThenP(AddOpP, MultRule), none) == Ok(([], none)) by { NoAddStep(none); }
    ExpressionFrom(ts, OneFactor(Num(n)), none, [], none);
    assert FlattenAdd((OneFactor(Num(n)), [])).adds == [AddTerm(Add, OneFactor(Num(n)))];
  }

  /** `a + b - c + d` is `[(+ a) (+ b) (- c) (+ d)]`, each operand a one-factor product. */
  lemma ExampleSum(a: string, b: string, c: string, d: string)
    ensures Expression([Ident(a), PlusSign, Ident(b), MinusSign, Ident(c), PlusSign, Ident(d)]) ==
      Ok((AddSub([AddTerm(Add, OneFactor(Variable(a))), AddTerm(Add, OneFactor(Variable(b))),
                  AddTerm(Subtract, OneFactor(Variable(c))), AddTerm(Add, OneFactor(Variable(d)))]), []))
  {
    var ts := [Ident(a), PlusSign, Ident(b), MinusSign, Ident(c), PlusSign, Ident(d)];
    var t1 := [PlusSign, Ident(b), MinusSign, Ident(c), PlusSign, Ident(d)];
    SumTokens(a, t1);
    var ops := [(Add, OneFactor(Variable(b))), (Subtract, OneFactor(Variable(c))), (Add, OneFactor(Variable(d)))];
    assert MultRule(ts) == Ok((OneFactor(Variable(a)), t1)) by { SingleFactor(Ident(a), t1); }
    assert Repeat(ThenP(AddOpP, MultRule), t1) == Ok((ops, [])) by { SumTail(b, c, d, t1); }
    ExpressionFrom(ts, OneFactor(Variable(a)), t1, ops, []);
    SumFlat(OneFactor(Variable(a)), OneFactor(Variable(b)), OneFactor(Variable(c)), OneFactor(Variable(d)));
  }

  lemma SumTokens(a: string, t1: seq<Token>)
    requires |t1| == 6
    ensures [Ident(a), t1[0], t1[1], t1[2], t1[3], t1[4], t1[5]] == [Ident(a)] + t1 && t1[6..] == []
  {
  }

  lemma SumFlat(a: Expr, b: Expr, c: Expr, d: Expr)
    ensures FlattenAdd((a, [(Add, b), (Subtract, c), (Add, d)])) ==
      AddSub([AddTerm(Add, a), AddTerm(Add, b), AddTerm(Subtract, c), AddTerm(Add, d)])
  {
    var e := FlattenAdd((a, [(Add, b), (Subtract, c), (Add, d)]));
    assert e.adds == [AddTerm(Add, a), AddTerm(Add, b), AddTerm(Subtract, c), AddTerm(Add, d)];
  }

  /** The operator-operand pairs of `+ b - c + d`. */
  lemma SumTail(b: string, c: string, d: string, t1: seq<Token>)
    requires t1 == [PlusSign, Ident(b), MinusSign, Ident(c), PlusSign, Ident(d)]
    ensures Repeat(ThenP(AddOpP, MultRule), t1) ==
      Ok(([(Add, OneFactor(Variable(b))), (Subtract, OneFactor(Variable(c))), (Add, OneFactor(Variable(d)))], []))
  {
    var pair := ThenP(AddOpP, MultRule);
    var t7: seq<Token> := [];
    var t5 := [PlusSign, Ident(d)] + t7;
    var t3 := [MinusSign, Ident(c)] + t5;
    TailTokens(b, c, d, t1, t3, t5);
    var bb, cc, dd := (Add, OneFactor(Variable(b))), (Subtract, OneFactor(Variable(c))), (Add, OneFactor(Variable(d)));
    assert pair(t1) == Ok((bb, t3)) by { AddStep(PlusSign, Ident(b), t3); }
    assert pair(t3) == Ok((cc, t5)) by { AddStep(MinusSign, Ident(c), t5); }
    assert pair(t5) == Ok((dd, t7)) by { AddStep(PlusSign, Ident(d), t7); }
    assert Repeat(pair, t7) == Ok(([], t7)) by { NoAddStep(t7); }
    RepeatThree(pair, t1, t3, t5, t7, bb, cc, dd);
  }

  lemma TailTokens(b: string, c: string, d: string, t1: seq<Token>, t3: seq<Token>, t5: seq<Token>)
    requires t1 == [PlusSign, Ident(b), MinusSign, Ident(c), PlusSign, Ident(d)]
    requires t5 == [PlusSign, Ident(d)] + [] && t3 == [MinusSign, Ident(c)] + t5
    ensures t1 == [PlusSign, Ident(b)] + t3 && |t1| == 6 && |t3| == 4 && |t5| == 2
  {
  }

  /** `x + y * z`: the product binds tighter, and the lone `x` is still a one-factor product. */
  lemma ExamplePrecedence(x: i32, y: i32, z: i32)
    ensures Expression([Number(x), PlusSign, Number(y), MultSign, Number(z)]) ==
      Ok((AddSub([AddTerm(Add, OneFactor(Num(x))),
                  AddTerm(Add, MultDiv([MultTerm(Multiply, Num(y)), MultTerm(Multiply, Num(z))]))]), []))
  {
    var ts := [Number(x), PlusSign, Number(y), MultSign, Number(z)];
    var t2 := [Number(y), MultSign, Number(z)];
    var t1 := [PlusSign] + t2;
    var none: seq<Token> := [];
    PrecedenceTokens(x, y, z, ts, t1, t2);
    var prod := MultDiv([MultTerm(Multiply, Num(y)), MultTerm(Multiply, Num(z))]);
    assert MultRule(ts) == Ok((OneFactor(Num(x)), t1)) by { SingleFactor(Number(x), t1); }
    assert Repeat(ThenP(AddOpP, MultRule), t1) == Ok(([(Add, prod)], none)) by { PrecedenceTail(y, z, t1, t2); }
    ExpressionFrom(ts, OneFactor(Num(x)), t1, [(Add, prod)], none);
    PairFlat(OneFactor(Num(x)), prod);
  }

  /** The single operator-operand pair of `+ y * z`. */
  lemma PrecedenceTail(y: i32, z: i32, t1: seq<Token>, t2: seq<Token>)
    requires t2 == [Number(y), MultSign, Number(z)] && t1 == [PlusSign] + t2
    ensures Repeat(ThenP(AddOpP, MultRule), t1) ==
      Ok(([(Add, MultDiv([MultTerm(Multiply, Num(y)), MultTerm(Multiply, Num(z))]))], []))
  {
    var none: seq<Token> := [];
    var prod := MultDiv([MultTerm(Multiply, Num(y)), MultTerm(Multiply, Num(z))]);
    var pair := ThenP(AddOpP, MultRule);
    assert t1[1..] == t2 && |t1| == 4;
    assert MultRule(t2) == Ok((prod, none)) by { ProductExample(y, z, t2); }
    assert pair(t1) == Ok(((Add, prod), none)) by { AddThen(t1, prod, none); }
    assert Repeat(pair, none) == Ok(([], none)) by { NoAddStep(none); }
    RepeatCons(pair, t1, (Add, prod), none, [], none);
    Singleton((Add, prod));
  }

  lemma Singleton<T>(x: T)
    ensures [x] + [] == [x]
  {
  }

  lemma PairFlat(a: Expr, b: Expr)
    ensures FlattenAdd((a, [(Add, b)])) == AddSub([AddTerm(Add, a), AddTerm(Add, b)])
  {
    var e := FlattenAdd((a, [(Add, b)]));
    assert e.adds == [AddTerm(Add, a), AddTerm(Add, b)];
  }

  lemma PrecedenceTokens(x: i32, y: i32, z: i32, ts: seq<Token>, t1: seq<Token>, t2: seq<Token>)
    requires ts == [Number(x), PlusSign, Number(y), MultSign, Number(z)]
    requires t2 == [Number(y), MultSign, Number(z)] && t1 == [PlusSign] + t2
    ensures ts == [Number(x)] + t1 && t1[1..] == t2 && |t1| == 4
  {
  }

  /** `y * z` as a product. */
  lemma ProductExample(y: i32, z: i32, ts: seq<Token>)
    requires ts == [Number(y), MultSign, Number(z)]
    ensures MultRule(ts) == Ok((MultDiv([MultTerm(Multiply, Num(y)), MultTerm(Multiply, Num(z))]), []))
  {
    var none: seq<Token> := [];
    var t2 := [Number(z)] + none;
    var t1 := [MultSign] + t2;
    ProductTokens(y, z, ts, t1, t2);
    var mpair := ThenP(MultOpP, TermRule);
    assert TermRule(ts) == Ok((Num(y), t1)) by { TermCases(ts); }
    assert TermRule(t2) == Ok((Num(z), none)) by { TermCases(t2); }
    assert Repeat(mpair, none) == Ok(([], none)) by {
      assert mpair(none) == SliceParsers.Dual(MultOpP, TermRule, none);
      RepeatNil(mpair, none);
    }
    assert mpair(t1) == Ok(((Multiply, Num(z)), none)) by {
      assert mpair(t1) == SliceParsers.Dual(MultOpP, TermRule, t1);
    }
    assert Repeat(mpair, t1) == Ok(([(Multiply, Num(z))], none)) by {
      RepeatCons(mpair, t1, (Multiply, Num(z)), none, [], none);
      assert [(Multiply, Num(z))] + [] == [(Multiply, Num(z))];
    }
    assert ListOf(MultOpP, TermRule)(ts) == Ok(((Num(y), [(Multiply, Num(z))]), none));
    assert FlattenMult((Num(y), [(Multiply, Num(z))])).mults == [MultTerm(Multiply, Num(y)), MultTerm(Multiply, Num(z))];
  }

  lemma ProductTokens(y: i32, z: i32, ts: seq<Token>, t1: seq<Token>, t2: seq<Token>)
    requires ts == [Number(y), MultSign, Number(z)]
    requires t2 == [Number(z)] + [] && t1 == [MultSign] + t2
    ensures ts == [Number(y)] + t1 && ts[1..] == t1 && t1[1..] == t2 && t2[1..] == [] && |t1| == 2
  {
  }


  // ---------------------------------------------------------------- statement rules

  function MkAssign(parsed: (string, Expr)): Statement {
    Assign(parsed.0, parsed.1)
  }

  function MkOutput(e: Expr): Statement {
    Output(e)
  }

  function MkIf(parsed: ((((Expr, Comparator), Expr), Block), Option<Block>)): Statement {
    If(parsed.0.0.0.0, parsed.0.0.0.1, parsed.0.0.1, parsed.0.1, parsed.1)
  }

  function MkWhile(parsed: (((Expr, Comparator), Expr), Block)): Statement {
    While(parsed.0.0.0, parsed.0.0.1, parsed.0.1, parsed.1)
  }

  /** An `else if` is a block holding the nested `if` alone. */
  function OneStatement(st: Statement): Block {
    Block([st])
  }

  function MkBlock(stmts: seq<Statement>): Block {
    Block(stmts)
  }

  /** `assignment`: `Ident = expression`. */
  const Assignment: TokenParser<Statement> := MapP(ThenP(ThenLP(Target, LitP(Equals)), Expression), MkAssign)

  /** `output`: `out expression`. */
  const OutputStmt: TokenParser<Statement> := MapP(ThenRP(LitP(OutputCmd), Expression), MkOutput)

  /** The common head of `if_stmt` and `while_stmt`: the keyword, an expression, a comparator,
      an expression and `{`. */
  function CondHead(keyword: Token): TokenParser<((Expr, Comparator), Expr)> {
    ThenLP(ThenP(ThenP(ThenRP(LitP(keyword), Expression), ComparatorP), Expression), LitP(OpenBrace))
  }

  /** `code_block`: `{ program }`. */
  function CodeBlockOf(prog: TokenParser<Block>): TokenParser<Block> {
    ThenLP(ThenRP(LitP(OpenBrace), prog), LitP(CloseBrace))
  }

  /** `else_block`: `else`, then a nested `if` as a one-statement block, or else a code block. */
  function ElseBlockOf(ifs: TokenParser<Statement>, prog: TokenParser<Block>): TokenParser<Block> {
    ThenRP(LitP(ElseKeyword), OrP(MapP(ifs, OneStatement), CodeBlockOf(prog)))
  }

  /** `if_stmt`: the head, the body, `}` and an optional `else_block`. */
  function IfOf(ifs: TokenParser<Statement>, prog: TokenParser<Block>): TokenParser<Statement> {
    MapP(ThenP(ThenLP(ThenP(CondHead(IfKeyword), prog), LitP(CloseBrace)), OptP(ElseBlockOf(ifs, prog))), MkIf)
  }

  /** `while_stmt`: the head, the body and `}`. */
  function WhileOf(prog: TokenParser<Block>): TokenParser<Statement> {
    MapP(ThenLP(ThenP(CondHead(WhileKeyword), prog), LitP(CloseBrace)), MkWhile)
  }

  /** `one_of(vec![assignment, output, if_stmt, while_stmt])`. */
  function StatementOf(ifs: TokenParser<Statement>, prog: TokenParser<Block>): TokenParser<Statement> {
    OneOfP([Assignment, OutputStmt, ifs, WhileOf(prog)])
  }

  /** `statements`: any number of statements, each followed by `NewLine`, as a `Block`. */
  function ProgramOf(stmt: TokenParser<Statement>): TokenParser<Block> {
    MapP(RepeatP(ThenLP(stmt, LitP(NewLine))), MkBlock)
  }

  /** `recursive(|| program())` inside a rule applied to at most `b`. */
  function ProgramRec(b: seq<Token>): TokenParser<Block>
    decreases |b|, 0
  {
    (s: seq<Token>) => if |s| < |b| then Program(s) else Err("recursion bound")
  }

  /** `recursive(|| if_stmt())` inside a rule applied to at most `b`. */
  function IfRec(b: seq<Token>): TokenParser<Statement>
    decreases |b|, 0
  {
    (s: seq<Token>) => if |s| < |b| then IfStmt(s) else Err("recursion bound")
  }

  /** `if_stmt()` applied to `ts`. */
  function IfStmt(ts: seq<Token>): Result<(Statement, seq<Token>)>
    decreases |ts|, 1
  {
    IfOf(IfRec(ts), ProgramRec(ts))(ts)
  }

  /** `program()` applied to `ts`. */
  function Program(ts: seq<Token>): Result<(Block, seq<Token>)>
    decreases |ts|, 1
  {
    ProgramOf(StatementOf(IfOf(IfRec(ts), ProgramRec(ts)), ProgramRec(ts)))(ts)
  }

  /** The statement rules with the recursion written by name, as in the source. */
  const CodeBlockRule: TokenParser<Block> := CodeBlockOf(Program)
  const ElseBlockRule: TokenParser<Block> := ElseBlockOf(IfStmt, Program)
  const IfRule: TokenParser<Statement> := IfOf(IfStmt, Program)
  const WhileRule: TokenParser<Statement> := WhileOf(Program)
  const StatementRule: TokenParser<Statement> := StatementOf(IfStmt, Program)
  const ProgramRule: TokenParser<Block> := ProgramOf(StatementRule)

  // ---------------------------------------------------------------- statement equations

  /** `program` never fails and never grows the input. */
  lemma ProgramNonGrowing()
    ensures forall ts :: Program(ts).Ok?
    ensures NonGrowing(Program)
  {
    forall ts ensures Program(ts).Ok? && |Program(ts).value.1| <= |ts| {
      var line := ThenLP(StatementOf(IfOf(IfRec(ts), ProgramRec(ts)), ProgramRec(ts)), LitP(NewLine));
      assert Program(ts) == SliceParsers.Map(RepeatP(line), MkBlock, ts);
      assert RepeatP(line)(ts) == Repeat(line, ts);
    }
  }

  lemma CondHeadConsumes(keyword: Token)
    ensures Progressing(CondHead(keyword))
  {
    ExpressionProgressing();
    ProgressingNonGrowing(Expression);
    LitConsumes(keyword);
    ThenConsumes(LitP(keyword), Expression);
    var a := ThenRP(LitP(keyword), Expression);
    MatcherConsumes(ComparatorOf);
    ProgressingNonGrowing(ComparatorP);
    ThenConsumes(a, ComparatorP);
    ThenConsumes(ThenP(a, ComparatorP), Expression);
    LitConsumes(OpenBrace);
    ProgressingNonGrowing(LitP(OpenBrace));
    ThenConsumes(ThenP(ThenP(a, ComparatorP), Expression), LitP(OpenBrace));
  }

  lemma CodeBlockConsumes(prog: TokenParser<Block>)
    requires NonGrowing(prog)
    ensures Progressing(CodeBlockOf(prog))
  {
    LitConsumes(OpenBrace);
    ThenConsumes(LitP(OpenBrace), prog);
    LitConsumes(CloseBrace);
    ProgressingNonGrowing(LitP(CloseBrace));
    ThenConsumes(ThenRP(LitP(OpenBrace), prog), LitP(CloseBrace));
  }

  /** The body of `if` and `while` up to and including the closing brace. */
  lemma BodyConsumes(keyword: Token, prog: TokenParser<Block>)
    requires NonGrowing(prog)
    ensures Progressing(ThenLP(ThenP(CondHead(keyword), prog), LitP(CloseBrace)))
  {
    CondHeadConsumes(keyword);
    ThenConsumes(CondHead(keyword), prog);
    LitConsumes(CloseBrace);
    ProgressingNonGrowing(LitP(CloseBrace));
    ThenConsumes(ThenP(CondHead(keyword), prog), LitP(CloseBrace));
  }

  lemma IfConsumes(ifs: TokenParser<Statement>, prog: TokenParser<Block>)
    requires NonGrowing(ifs) && NonGrowing(prog)
    ensures Progressing(IfOf(ifs, prog))
  {
    var body := ThenLP(ThenP(CondHead(IfKeyword), prog), LitP(CloseBrace));
    BodyConsumes(IfKeyword, prog);
    CodeBlockConsumes(prog);
    ProgressingNonGrowing(CodeBlockOf(prog));
    MapNonGrowing(ifs, OneStatement);
    OrNonGrowing(MapP(ifs, OneStatement), CodeBlockOf(prog));
    LitConsumes(ElseKeyword);
    ThenConsumes(LitP(ElseKeyword), OrP(MapP(ifs, OneStatement), CodeBlockOf(prog)));
    ProgressingNonGrowing(ElseBlockOf(ifs, prog));
    RepeatOptNonGrowing(ElseBlockOf(ifs, prog));
    ThenConsumes(body, OptP(ElseBlockOf(ifs, prog)));
    MapConsumes(ThenP(body, OptP(ElseBlockOf(ifs, prog))), MkIf);
  }

  lemma WhileConsumes(prog: TokenParser<Block>)
    requires NonGrowing(prog)
    ensures Progressing(WhileOf(prog))
  {
    BodyConsumes(WhileKeyword, prog);
    MapConsumes(ThenLP(ThenP(CondHead(WhileKeyword), prog), LitP(CloseBrace)), MkWhile);
  }

  /** Every `if` statement consumes at least one token. */
  lemma {:induction false} IfStmtConsumes(ts: seq<Token>)
    ensures IfStmt(ts).Ok? ==> |IfStmt(ts).value.1| < |ts|
    decreases |ts|
  {
    var g := IfRec(ts);
    forall s | g(s).Ok? ensures |g(s).value.1| < |s| {
      if |s| < |ts| {
        IfStmtConsumes(s);
      }
    }
    ProgressingNonGrowing(g);
    ProgramNonGrowing();
    assert NonGrowing(ProgramRec(ts));
    IfConsumes(g, ProgramRec(ts));
  }

  /** Every statement consumes at least one token. */
  lemma StatementConsumes()
    ensures Progressing(IfStmt) && Progressing(WhileRule) && Progressing(Assignment) && Progressing(OutputStmt)
    ensures Progressing(StatementRule)
  {
    forall s | IfStmt(s).Ok? ensures |IfStmt(s).value.1| < |s| {
      IfStmtConsumes(s);
    }
    ProgramNonGrowing();
    WhileConsumes(Program);
    ExpressionProgressing();
    ProgressingNonGrowing(Expression);
    MatcherConsumes(TargetOf);
    LitConsumes(Equals);
    ProgressingNonGrowing(LitP(Equals));
    ThenConsumes(Target, LitP(Equals));
    ThenConsumes(ThenLP(Target, LitP(Equals)), Expression);
    MapConsumes(ThenP(ThenLP(Target, LitP(Equals)), Expression), MkAssign);
    LitConsumes(OutputCmd);
    ThenConsumes(LitP(OutputCmd), Expression);
    MapConsumes(ThenRP(LitP(OutputCmd), Expression), MkOutput);
    OneOfConsumes([Assignment, OutputStmt, IfStmt, WhileRule]);
  }

  lemma CodeBlockAt(prog: TokenParser<Block>, prog': TokenParser<Block>, s: seq<Token>)
    requires forall d :: |d| < |s| ==> prog(d) == prog'(d)
    ensures CodeBlockOf(prog)(s) == CodeBlockOf(prog')(s)
  {
    ThenAt(LitP(OpenBrace), LitP(OpenBrace), prog, prog', s);
    ThenAt(ThenRP(LitP(OpenBrace), prog), ThenRP(LitP(OpenBrace), prog'), LitP(CloseBrace), LitP(CloseBrace), s);
  }

  lemma ElseBlockAt(ifs: TokenParser<Statement>, prog: TokenParser<Block>,
                    ifs': TokenParser<Statement>, prog': TokenParser<Block>, s: seq<Token>)
    requires forall d :: |d| < |s| ==> ifs(d) == ifs'(d) && prog(d) == prog'(d)
    ensures ElseBlockOf(ifs, prog)(s) == ElseBlockOf(ifs', prog')(s)
  {
    if |s| > 0 {
      var s1 := s[1..];
      CodeBlockAt(prog, prog', s1);
      MapAt(ifs, ifs', OneStatement, s1);
      OrAt(MapP(ifs, OneStatement), MapP(ifs', OneStatement), CodeBlockOf(prog), CodeBlockOf(prog'), s1);
    }
    ThenAt(LitP(ElseKeyword), LitP(ElseKeyword), OrP(MapP(ifs, OneStatement), CodeBlockOf(prog)),
           OrP(MapP(ifs', OneStatement), CodeBlockOf(prog')), s);
  }

  /** The body of `if` and `while` only runs `prog` after the keyword. */
  lemma BodyAt(keyword: Token, prog: TokenParser<Block>, prog': TokenParser<Block>, s: seq<Token>)
    requires forall d :: |d| < |s| ==> prog(d) == prog'(d)
    ensures ThenLP(ThenP(CondHead(keyword), prog), LitP(CloseBrace))(s) ==
            ThenLP(ThenP(CondHead(keyword), prog'), LitP(CloseBrace))(s)
  {
    CondHeadConsumes(keyword);
    ThenAt(CondHead(keyword), CondHead(keyword), prog, prog', s);
    ThenAt(ThenP(CondHead(keyword), prog), ThenP(CondHead(keyword), prog'), LitP(CloseBrace), LitP(CloseBrace), s);
  }

  lemma IfAt(ifs: TokenParser<Statement>, prog: TokenParser<Block>,
             ifs': TokenParser<Statement>, prog': TokenParser<Block>, s: seq<Token>)
    requires forall d :: |d| < |s| ==> ifs(d) == ifs'(d) && prog(d) == prog'(d)
    requires NonGrowing(prog')
    ensures IfOf(ifs, prog)(s) == IfOf(ifs', prog')(s)
  {
    var body := ThenLP(ThenP(CondHead(IfKeyword), prog), LitP(CloseBrace));
    var body' := ThenLP(ThenP(CondHead(IfKeyword), prog'), LitP(CloseBrace));
    BodyAt(IfKeyword, prog, prog', s);
    BodyConsumes(IfKeyword, prog');
    if body'(s).Ok? {
      var r := body'(s).value.1;
      ElseBlockAt(ifs, prog, ifs', prog', r);
      OptAt(ElseBlockOf(ifs, prog), ElseBlockOf(ifs', prog'), r);
    }
    ThenAt(body, body', OptP(ElseBlockOf(ifs, prog)), OptP(ElseBlockOf(ifs', prog')), s);
    MapAt(ThenP(body, OptP(ElseBlockOf(ifs, prog))), ThenP(body', OptP(ElseBlockOf(ifs', prog'))), MkIf, s);
  }

  lemma WhileAt(prog: TokenParser<Block>, prog': TokenParser<Block>, s: seq<Token>)
    requires forall d :: |d| < |s| ==> prog(d) == prog'(d)
    ensures WhileOf(prog)(s) == WhileOf(prog')(s)
  {
    BodyAt(WhileKeyword, prog, prog', s);
    MapAt(ThenLP(ThenP(CondHead(WhileKeyword), prog), LitP(CloseBrace)),
             ThenLP(ThenP(CondHead(WhileKeyword), prog'), LitP(CloseBrace)), MkWhile, s);
  }

  /** `if_stmt` satisfies its grammar equation: the bound on the recursion never cuts a parse
      short. */
  lemma IfStmtIsRule(ts: seq<Token>)
    ensures IfStmt(ts) == IfRule(ts)
  {
    ProgramNonGrowing();
    IfAt(IfRec(ts), ProgramRec(ts), IfStmt, Program, ts);
  }

  lemma StatementOfAt(ifs: TokenParser<Statement>, prog: TokenParser<Block>,
                      ifs': TokenParser<Statement>, prog': TokenParser<Block>, d: seq<Token>)
    requires ifs(d) == ifs'(d) && WhileOf(prog)(d) == WhileOf(prog')(d)
    ensures StatementOf(ifs, prog)(d) == StatementOf(ifs', prog')(d)
  {
    OneOfLastTwoAt(Assignment, OutputStmt, ifs, WhileOf(prog), ifs', WhileOf(prog'), d);
  }

  /** Four alternatives whose last two agree on `d` agree on `d`. */
  lemma OneOfLastTwoAt(p0: TokenParser<Statement>, p1: TokenParser<Statement>, p2: TokenParser<Statement>,
                       p3: TokenParser<Statement>, q2: TokenParser<Statement>, q3: TokenParser<Statement>,
                       d: seq<Token>)
    requires p2(d) == q2(d) && p3(d) == q3(d)
    ensures OneOfP([p0, p1, p2, p3])(d) == OneOfP([p0, p1, q2, q3])(d)
  {
    var ps := [p0, p1, p2, p3];
    var qs := [p0, p1, q2, q3];
    assert forall i :: 0 <= i < 4 ==> ps[i](d) == qs[i](d);
    OneOfAt(ps, qs, d);
  }

  /** The statement alternatives inside `program` applied to `ts` agree with the rule on
      every input not longer than `ts`. */
  lemma StatementAt(ts: seq<Token>, d: seq<Token>)
    requires |d| <= |ts|
    ensures StatementOf(IfOf(IfRec(ts), ProgramRec(ts)), ProgramRec(ts))(d) == StatementRule(d)
  {
    assert IfOf(IfRec(ts), ProgramRec(ts))(d) == IfStmt(d) by {
      ProgramNonGrowing();
      IfAt(IfRec(ts), ProgramRec(ts), IfStmt, Program, d);
      IfStmtIsRule(d);
    }
    assert WhileOf(ProgramRec(ts))(d) == WhileRule(d) by {
      WhileAt(ProgramRec(ts), Program, d);
    }
    StatementOfAt(IfOf(IfRec(ts), ProgramRec(ts)), ProgramRec(ts), IfStmt, Program, d);
  }

  /** `program` satisfies its grammar equation. */
  lemma ProgramIsRule(ts: seq<Token>)
    ensures Program(ts) == ProgramRule(ts)
  {
    var n := |ts|;
    var stmt := StatementOf(IfOf(IfRec(ts), ProgramRec(ts)), ProgramRec(ts));
    var line, line' := ThenLP(stmt, LitP(NewLine)), ThenLP(StatementRule, LitP(NewLine));
    forall d | |d| <= n ensures line(d) == line'(d) {
      StatementAt(ts, d);
      ThenAt(stmt, StatementRule, LitP(NewLine), LitP(NewLine), d);
    }
    RepeatAgree(line, line', n, ts);
    assert Program(ts) == MapP(RepeatP(line), MkBlock)(ts);
    MapAt(RepeatP(line), RepeatP(line'), MkBlock, ts);
  }

  // ---------------------------------------------------------------- what each statement rule accepts

  /** `assignment` is `Ident = expression`, giving `Assign(name, e)`. */
  lemma AssignmentCases(ts: seq<Token>)
    ensures Assignment(ts).Ok? <==>
      |ts| >= 2 && ts[0].Ident? && ts[1] == Equals && Expression(ts[2..]).Ok?
    ensures Assignment(ts).Ok? ==>
      Assignment(ts).value == (Assign(ts[0].id, Expression(ts[2..]).value.0), Expression(ts[2..]).value.1)
  {
    var target := ThenLP(Target, LitP(Equals));
    assert Assignment(ts) == SliceParsers.Map(ThenP(target, Expression), MkAssign, ts);
    assert ThenP(target, Expression)(ts) == SliceParsers.Dual(target, Expression, ts);
    if |ts| >= 2 {
      assert ts[1..][1..] == ts[2..];
    }
  }

  /** `output` is `out expression`, giving `Output(e)`. */
  lemma OutputCases(ts: seq<Token>)
    ensures OutputStmt(ts).Ok? <==> |ts| >= 1 && ts[0] == OutputCmd && Expression(ts[1..]).Ok?
    ensures OutputStmt(ts).Ok? ==>
      OutputStmt(ts).value == (Output(Expression(ts[1..]).value.0), Expression(ts[1..]).value.1)
  {
    assert OutputStmt(ts) == SliceParsers.Map(ThenRP(LitP(OutputCmd), Expression), MkOutput, ts);
  }

  /** The head of `if` and `while` over any expression parser. */
  lemma HeadCases(keyword: Token, expr: TokenParser<Expr>, ts: seq<Token>)
    ensures var head := ThenLP(ThenP(ThenP(ThenRP(LitP(keyword), expr), ComparatorP), expr), LitP(OpenBrace));
      head(ts).Ok? <==>
      |ts| > 0 && ts[0] == keyword && expr(ts[1..]).Ok? &&
      (var r1 := expr(ts[1..]).value.1;
       |r1| > 0 && r1[0].Cmp? && expr(r1[1..]).Ok? &&
       (var r2 := expr(r1[1..]).value.1; |r2| > 0 && r2[0] == OpenBrace))
    ensures var head := ThenLP(ThenP(ThenP(ThenRP(LitP(keyword), expr), ComparatorP), expr), LitP(OpenBrace));
      head(ts).Ok? ==>
      var l := expr(ts[1..]);
      var r := expr(l.value.1[1..]);
      head(ts).value == (((l.value.0, l.value.1[0].c), r.value.0), r.value.1[1..])
  {
    var a := ThenRP(LitP(keyword), expr);
    var b := ThenP(a, ComparatorP);
    var c := ThenP(b, expr);
    assert ThenLP(c, LitP(OpenBrace))(ts) == ThenL(c, LitP(OpenBrace), ts);
    assert c(ts) == SliceParsers.Dual(b, expr, ts);
    assert b(ts) == SliceParsers.Dual(a, ComparatorP, ts);
    assert a(ts) == ThenR(LitP(keyword), expr, ts);
  }

  /** The head of `if` and `while`: keyword, expression, comparator, expression, `{`. */
  lemma CondHeadCases(keyword: Token, ts: seq<Token>)
    ensures CondHead(keyword)(ts).Ok? <==>
      |ts| > 0 && ts[0] == keyword && Expression(ts[1..]).Ok? &&
      (var r1 := Expression(ts[1..]).value.1;
       |r1| > 0 && r1[0].Cmp? && Expression(r1[1..]).Ok? &&
       (var r2 := Expression(r1[1..]).value.1; |r2| > 0 && r2[0] == OpenBrace))
    ensures CondHead(keyword)(ts).Ok? ==>
      var l := Expression(ts[1..]);
      var r := Expression(l.value.1[1..]);
      CondHead(keyword)(ts).value == (((l.value.0, l.value.1[0].c), r.value.0), r.value.1[1..])
  {
    HeadCases(keyword, Expression, ts);
  }

  /** `code_block` is `{ program }`; `program` never fails, so only the braces can. */
  lemma CodeBlockCases(ts: seq<Token>)
    ensures CodeBlockRule(ts).Ok? <==>
      |ts| > 0 && ts[0] == OpenBrace &&
      |Program(ts[1..]).value.1| > 0 && Program(ts[1..]).value.1[0] == CloseBrace
    ensures CodeBlockRule(ts).Ok? ==>
      CodeBlockRule(ts).value == (Program(ts[1..]).value.0, Program(ts[1..]).value.1[1..])
  {
    ProgramNonGrowing();
    assert CodeBlockRule(ts) == ThenL(ThenRP(LitP(OpenBrace), Program), LitP(CloseBrace), ts);
  }

  /** `else` is followed by a nested `if`, tried first and kept as a one-statement block, or by
      a code block. */
  lemma ElseBlockCases(ts: seq<Token>)
    ensures ElseBlockRule(ts).Ok? ==> |ts| > 0 && ts[0] == ElseKeyword
    ensures |ts| > 0 && ts[0] == ElseKeyword && IfStmt(ts[1..]).Ok? ==>
      ElseBlockRule(ts) == Ok((Block([IfStmt(ts[1..]).value.0]), IfStmt(ts[1..]).value.1))
    ensures |ts| > 0 && ts[0] == ElseKeyword && IfStmt(ts[1..]).Err? ==>
      ElseBlockRule(ts) == CodeBlockRule(ts[1..])
  {
    var alt := OrP(MapP(IfStmt, OneStatement), CodeBlockRule);
    assert ElseBlockRule(ts) == ThenR(LitP(ElseKeyword), alt, ts);
    if |ts| > 0 {
      assert alt(ts[1..]) == SliceParsers.Or(() => MapP(IfStmt, OneStatement), () => CodeBlockRule, ts[1..]);
      assert MapP(IfStmt, OneStatement)(ts[1..]) == SliceParsers.Map(IfStmt, OneStatement, ts[1..]);
    }
  }

  /** The body of `if` and `while` after any head, over a block parser that never fails:
      the head, the block and `}`. */
  lemma BodyCases<H>(head: TokenParser<H>, prog: TokenParser<Block>, ts: seq<Token>)
    requires head(ts).Ok? ==> prog(head(ts).value.1).Ok?
    ensures ThenLP(ThenP(head, prog), LitP(CloseBrace))(ts).Ok? <==>
      head(ts).Ok? &&
      (var body := prog(head(ts).value.1); |body.value.1| > 0 && body.value.1[0] == CloseBrace)
    ensures ThenLP(ThenP(head, prog), LitP(CloseBrace))(ts).Ok? ==>
      var body := prog(head(ts).value.1);
      ThenLP(ThenP(head, prog), LitP(CloseBrace))(ts).value == ((head(ts).value.0, body.value.0), body.value.1[1..])
  {
    assert ThenLP(ThenP(head, prog), LitP(CloseBrace))(ts) == ThenL(ThenP(head, prog), LitP(CloseBrace), ts);
    assert ThenP(head, prog)(ts) == SliceParsers.Dual(head, prog, ts);
  }

  /** `if_stmt` over any nested `if` and any block parser that never fails. */
  lemma IfOfCases(ifs: TokenParser<Statement>, prog: TokenParser<Block>, ts: seq<Token>)
    requires forall d :: prog(d).Ok?
    ensures IfOf(ifs, prog)(ts).Ok? <==>
      CondHead(IfKeyword)(ts).Ok? &&
      (var body := prog(CondHead(IfKeyword)(ts).value.1);
       |body.value.1| > 0 && body.value.1[0] == CloseBrace)
    ensures IfOf(ifs, prog)(ts).Ok? ==>
      var head := CondHead(IfKeyword)(ts).value;
      var body := prog(head.1).value;
      var after := body.1[1..];
      var els := ElseBlockOf(ifs, prog)(after);
      IfOf(ifs, prog)(ts).value ==
        (If(head.0.0.0, head.0.0.1, head.0.1, body.0, if els.Ok? then Some(els.value.0) else None),
         if els.Ok? then els.value.1 else after)
  {
    var head := CondHead(IfKeyword);
    var body := ThenLP(ThenP(head, prog), LitP(CloseBrace));
    var els := ElseBlockOf(ifs, prog);
    BodyCases(head, prog, ts);
    assert IfOf(ifs, prog)(ts) == SliceParsers.Map(ThenP(body, OptP(els)), MkIf, ts);
    assert ThenP(body, OptP(els))(ts) == SliceParsers.Dual(body, OptP(els), ts);
    if body(ts).Ok? {
      assert OptP(els)(body(ts).value.1) == Opt(els, body(ts).value.1);
    }
  }

  /** `if`: the head, the body block, `}` and an optional `else`, missing when what follows
      the `}` is not an `else` part. */
  lemma IfCases(ts: seq<Token>)
    ensures IfStmt(ts).Ok? <==>
      CondHead(IfKeyword)(ts).Ok? &&
      (var body := Program(CondHead(IfKeyword)(ts).value.1);
       |body.value.1| > 0 && body.value.1[0] == CloseBrace)
    ensures IfStmt(ts).Ok? ==>
      var head := CondHead(IfKeyword)(ts).value;
      var body := Program(head.1).value;
      var after := body.1[1..];
      var els := ElseBlockRule(after);
      IfStmt(ts).value ==
        (If(head.0.0.0, head.0.0.1, head.0.1, body.0, if els.Ok? then Some(els.value.0) else None),
         if els.Ok? then els.value.1 else after)
  {
    IfStmtIsRule(ts);
    ProgramNonGrowing();
    IfOfCases(IfStmt, Program, ts);
  }

  /** `while`: the head, the body block and `}`, giving `While(l, cmp, r, body)`. */
  lemma WhileCases(ts: seq<Token>)
    ensures WhileRule(ts).Ok? <==>
      CondHead(WhileKeyword)(ts).Ok? &&
      (var body := Program(CondHead(WhileKeyword)(ts).value.1);
       |body.value.1| > 0 && body.value.1[0] == CloseBrace)
    ensures WhileRule(ts).Ok? ==>
      var head := CondHead(WhileKeyword)(ts).value;
      var body := Program(head.1).value;
      WhileRule(ts).value == (While(head.0.0.0, head.0.0.1, head.0.1, body.0), body.1[1..])
  {
    var head := CondHead(WhileKeyword);
    assert head(ts).Ok? ==> Program(head(ts).value.1).Ok? by { ProgramNonGrowing(); }
    BodyCases(head, Program, ts);
    assert WhileRule(ts) == SliceParsers.Map(ThenLP(ThenP(head, Program), LitP(CloseBrace)), MkWhile, ts);
  }

  /** `one_of` over four alternatives. */
  lemma OneOfFour<O>(p0: TokenParser<O>, p1: TokenParser<O>, p2: TokenParser<O>, p3: TokenParser<O>, ts: seq<Token>)
    ensures OneOfP([p0, p1, p2, p3])(ts) ==
      if p0(ts).Ok? then p0(ts) else if p1(ts).Ok? then p1(ts) else if p2(ts).Ok? then p2(ts)
      else if p3(ts).Ok? then p3(ts) else Err("All options failed")
  {
    var ps, ps1, ps2, ps3 := [p0, p1, p2, p3], [p1, p2, p3], [p2, p3], [p3];
    assert ps[1..] == ps1 && ps1[1..] == ps2 && ps2[1..] == ps3 && ps3[1..] == [];
    assert OneOfP(ps)(ts) == SliceParsers.OneOf(ps, ts);
    assert SliceParsers.OneOf(ps, ts) == if p0(ts).Ok? then p0(ts) else SliceParsers.OneOf(ps1, ts);
    assert SliceParsers.OneOf(ps1, ts) == if p1(ts).Ok? then p1(ts) else SliceParsers.OneOf(ps2, ts);
    assert SliceParsers.OneOf(ps2, ts) == if p2(ts).Ok? then p2(ts) else SliceParsers.OneOf(ps3, ts);
    assert SliceParsers.OneOf(ps3, ts) == if p3(ts).Ok? then p3(ts) else Err("All options failed");
  }

  /** The four statement forms start with different tokens, so the first token alone picks the
      alternative, whatever the order of the list. */
  lemma StatementDispatch(ts: seq<Token>)
    ensures StatementRule(ts).Ok? ==>
      |ts| > 0 && (ts[0].Ident? || ts[0] == OutputCmd || ts[0] == IfKeyword || ts[0] == WhileKeyword)
    ensures StatementRule(ts).Err? ==> StatementRule(ts) == Err("All options failed")
    ensures |ts| > 0 && ts[0].Ident? && Assignment(ts).Ok? ==> StatementRule(ts) == Assignment(ts)
    ensures |ts| > 0 && ts[0] == OutputCmd && OutputStmt(ts).Ok? ==> StatementRule(ts) == OutputStmt(ts)
    ensures |ts| > 0 && ts[0] == IfKeyword && IfStmt(ts).Ok? ==> StatementRule(ts) == IfStmt(ts)
    ensures |ts| > 0 && ts[0] == WhileKeyword && WhileRule(ts).Ok? ==> StatementRule(ts) == WhileRule(ts)
  {
    OneOfFour(Assignment, OutputStmt, IfStmt, WhileRule, ts);
    LeadingTokens(ts);
  }

  /** The token each statement form starts with. */
  lemma LeadingTokens(ts: seq<Token>)
    ensures Assignment(ts).Ok? ==> |ts| > 0 && ts[0].Ident?
    ensures OutputStmt(ts).Ok? ==> |ts| > 0 && ts[0] == OutputCmd
    ensures IfStmt(ts).Ok? ==> |ts| > 0 && ts[0] == IfKeyword
    ensures WhileRule(ts).Ok? ==> |ts| > 0 && ts[0] == WhileKeyword
  {
    AssignmentCases(ts);
    OutputCases(ts);
    IfLeading(ts);
    WhileLeading(ts);
  }

  lemma IfLeading(ts: seq<Token>)
    ensures IfStmt(ts).Ok? ==> |ts| > 0 && ts[0] == IfKeyword
  {
    IfCases(ts);
    CondHeadCases(IfKeyword, ts);
  }

  lemma WhileLeading(ts: seq<Token>)
    ensures WhileRule(ts).Ok? ==> |ts| > 0 && ts[0] == WhileKeyword
  {
    WhileCases(ts);
    CondHeadCases(WhileKeyword, ts);
  }

  /** A statement followed by `NewLine`: one line of a `program`. */
  const StatementLine: TokenParser<Statement> := ThenLP(StatementRule, LitP(NewLine))

  /** `program` never fails.  It stops, with the empty block and nothing consumed, unless a
      statement followed by `NewLine` comes next; then the block is that statement followed by
      the block of the rest. */
  lemma ProgramCases(ts: seq<Token>)
    ensures Program(ts).Ok?
    ensures StatementLine(ts).Err? ==> Program(ts) == Ok((Block([]), ts))
    ensures StatementLine(ts).Ok? ==>
      var r := StatementLine(ts).value.1;
      |r| < |ts| &&
      Program(ts) == Ok((Block([StatementLine(ts).value.0] + Program(r).value.0.stmts), Program(r).value.1))
    ensures StatementLine(ts).Ok? <==>
      StatementRule(ts).Ok? && |StatementRule(ts).value.1| > 0 && StatementRule(ts).value.1[0] == NewLine
  {
    ProgramNonGrowing();
    StatementConsumes();
    ProgramIsRule(ts);
    assert StatementLine(ts) == ThenL(StatementRule, LitP(NewLine), ts);
    assert ProgramRule(ts) == SliceParsers.Map(RepeatP(StatementLine), MkBlock, ts);
    assert RepeatP(StatementLine)(ts) == Repeat(StatementLine, ts);
    if StatementLine(ts).Ok? {
      var r := StatementLine(ts).value.1;
      assert |r| < |ts|;
      ProgramIsRule(r);
      assert ProgramRule(r) == SliceParsers.Map(RepeatP(StatementLine), MkBlock, r);
      assert RepeatP(StatementLine)(r) == Repeat(StatementLine, r);
    }
  }

  /** `program` stops, with the empty block and nothing consumed, at the end of the input and
      at any token no statement starts with, such as the `}` that closes a block. */
  lemma ProgramStops(ts: seq<Token>)
    requires ts == [] || !(ts[0].Ident? || ts[0] == OutputCmd || ts[0] == IfKeyword || ts[0] == WhileKeyword)
    ensures Program(ts) == Ok((Block([]), ts))
  {
    assert StatementRule(ts).Err? by { StatementDispatch(ts); }
    assert StatementLine(ts).Err? by {
      assert StatementLine(ts) == ThenL(StatementRule, LitP(NewLine), ts);
    }
    ProgramCases(ts);
  }

  /** `out n` and a line break is the one-statement program `Output(n)`. */
  lemma ExampleProgram(n: i32)
    ensures Program([OutputCmd, Number(n), NewLine]) ==
      Ok((Block([Output(AddSub([AddTerm(Add, OneFactor(Num(n)))]))]), []))
  {
    var ts := [OutputCmd, Number(n), NewLine];
    var e := AddSub([AddTerm(Add, OneFactor(Num(n)))]);
    var t2, none := ts[2..], ts[3..];
    assert t2[1..] == none && none == [];
    assert OutputStmt(ts) == Ok((Output(e), t2)) by { OutputNumber(n, ts); }
    assert StatementRule(ts) == Ok((Output(e), t2)) by { StatementDispatch(ts); }
    assert StatementLine(ts) == Ok((Output(e), none)) by {
      assert StatementLine(ts) == ThenL(StatementRule, LitP(NewLine), ts);
    }
    assert Program(none) == Ok((Block([]), none)) by { ProgramStops(none); }
    ProgramCases(ts);
    assert [Output(e)] + [] == [Output(e)];
  }

  lemma OutputNumber(n: i32, ts: seq<Token>)
    requires ts == [OutputCmd, Number(n), NewLine]
    ensures OutputStmt(ts) == Ok((Output(AddSub([AddTerm(Add, OneFactor(Num(n)))])), ts[2..]))
  {
    var t1, t2 := ts[1..], ts[2..];
    assert [Number(n)] + t2 == t1 && AddOpOf(t2[0]).None? && MultOpOf(t2[0]).None?;
    assert MultRule(t1) == Ok((OneFactor(Num(n)), t2)) by { SingleFactor(Number(n), t2); }
    assert Repeat(ThenP(AddOpP, MultRule), t2) == Ok(([], t2)) by { NoAddStep(t2); }
    ExpressionFrom(t1, OneFactor(Num(n)), t2, [], t2);
    assert FlattenAdd((OneFactor(Num(n)), [])).adds == [AddTerm(Add, OneFactor(Num(n)))];
    OutputCases(ts);
  }
}
