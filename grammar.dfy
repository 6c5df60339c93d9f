/** The abstract syntax and the tokens of the new front end (src/grammar.rs).  All of them are
    immutable values compared structurally. */
module Grammar {
  import opened Results

  /** Rust's `i32`, the type of numeric literals. */
  newtype i32 = x: int | -0x8000_0000 <= x < 0x8000_0000

  datatype AddOp = Add | Subtract

  datatype MultOp = Multiply | Divide | Modulo

  /** One operand of a sum with the operator in front of it; the first operand of a sum is
      tagged `Add`. */
  datatype AddTerm = AddTerm(op: AddOp, e: Expr)

  /** One operand of a product with the operator in front of it; the first is tagged
      `Multiply`. */
  datatype MultTerm = MultTerm(op: MultOp, e: Expr)

  datatype Expr =
    | Variable(name: string)
    | Num(n: i32)
    | AddSub(adds: seq<AddTerm>)
    | MultDiv(mults: seq<MultTerm>)

  /** An ordered sequence of statements. */
  datatype Block = Block(stmts: seq<Statement>)

  datatype Statement =
    | Assign(target: string, value: Expr)
    | Output(out: Expr)
    | If(lhs: Expr, cmp: Comparator, rhs: Expr, body: Block, elseBlock: Option<Block>)
    | While(lhs: Expr, cmp: Comparator, rhs: Expr, body: Block)

  /** `==`, `>`, `<`, `!=`, `>=`, `<=`. */
  datatype Comparator = CEq | CGt | CLt | CNeq | CGeq | CLeq

  datatype Token =
    | Equals
    | Ident(id: string)
    | Number(num: i32)
    | PlusSign
    | MinusSign
    | MultSign
    | DivideSign
    | ModuloSign
    | OutputCmd
    | NewLine
    | OpenParen
    | CloseParen
    | OpenBrace
    | CloseBrace
    | IfKeyword
    | ElseKeyword
    | WhileKeyword
    | Cmp(c: Comparator)
}
