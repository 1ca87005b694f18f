/**
 The function of the emitted fragment as a tree: a recursive-descent parser from tokens,
 for the statements and expressions of ISO/IEC 14882:2011, clauses 5 and 6, that a search
 through an array of structures needs. Operators of two characters arrive as two tokens.
 */
module Syntax {
  import opened Lexer

  datatype Expr =
    | Id(name: string)
    | Member(pointer: string, field: string)      // p->f
    | Target(address: Expr)                       // *e
    | Equal(left: Expr, right: Expr)
    | Unequal(left: Expr, right: Expr)

  /** A block is a chain of `Then` that ends in `Skip`. */
  datatype Stmt =
    | Skip
    | Then(first: Stmt, rest: Stmt)
    | Declare(tag: string, pointer: string)       // const struct tag *pointer;
    | Assign(variable: string, value: Expr)
    | Return(value: Expr)
    | If(condition: Expr, body: Stmt)
    | For(pointer: string, start: Expr, condition: Expr, body: Stmt)

  /** `static bool name(const std::string &fixed, std::string &open) { body }` */
  datatype Function = Function(name: string, fixed: string, open: string, body: Stmt)

  /** A tree, and the position behind its last token. */
  datatype Got<+T> = Nothing | Got(value: T, next: nat)

  predicate Is(ts: seq<Token>, i: nat, t: Token) {
    i < |ts| && ts[i] == t
  }

  predicate IsId(ts: seq<Token>, i: nat) {
    i < |ts| && ts[i].Ident?
  }

  predicate IsString(ts: seq<Token>, i: nat) {
    i + 4 <= |ts| && ts[i..i + 4] == STD_STRING
  }

  // ---------------------------------------------------------------- expressions

  function ParsePrimary(ts: seq<Token>, i: nat): (r: Got<Expr>)
    ensures r.Got? ==> i < r.next <= |ts|
  {
    if !IsId(ts, i) then Nothing
    else if !(Is(ts, i + 1, Punct('-')) && Is(ts, i + 2, Punct('>'))) then Got(Id(ts[i].name), i + 1)
    else if IsId(ts, i + 3) then Got(Member(ts[i].name, ts[i + 3].name), i + 4)
    else Nothing
  }

  function ParseOperand(ts: seq<Token>, i: nat): (r: Got<Expr>)
    ensures r.Got? ==> i < r.next <= |ts|
  {
    if !Is(ts, i, Punct('*')) then ParsePrimary(ts, i)
    else
      match ParsePrimary(ts, i + 1)
      case Nothing => Nothing
      case Got(e, j) => Got(Target(e), j)
  }

  function ParseExpr(ts: seq<Token>, i: nat): (r: Got<Expr>)
    ensures r.Got? ==> i < r.next <= |ts|
  {
    match ParseOperand(ts, i)
    case Nothing => Nothing
    case Got(left, j) =>
      var equal := Is(ts, j, Punct('=')) && Is(ts, j + 1, Punct('='));
      var unequal := Is(ts, j, Punct('!')) && Is(ts, j + 1, Punct('='));
      if !equal && !unequal then Got(left, j)
      else
        match ParseOperand(ts, j + 2)
        case Nothing => Nothing
        case Got(right, k) => Got(if equal then Equal(left, right) else Unequal(left, right), k)
  }

  /** An expression and the mark behind it. */
  function ParseUpTo(ts: seq<Token>, i: nat, mark: char): (r: Got<Expr>)
    ensures r.Got? ==> i < r.next <= |ts|
  {
    match ParseExpr(ts, i)
    case Nothing => Nothing
    case Got(e, j) => if Is(ts, j, Punct(mark)) then Got(e, j + 1) else Nothing
  }

  // ---------------------------------------------------------------- statements

  function ParseStmt(ts: seq<Token>, i: nat): (r: Got<Stmt>)
    ensures r.Got? ==> i < r.next <= |ts|
    decreases |ts| - i, 0
  {
    if Is(ts, i, Ident("return")) then ParseReturn(ts, i + 1)
    else if Is(ts, i, Ident("const")) then ParseDeclare(ts, i + 1)
    else if Is(ts, i, Ident("if")) && Is(ts, i + 1, Punct('(')) then
      match ParseUpTo(ts, i + 2, ')')
      case Nothing => Nothing
      case Got(condition, j) =>
        match ParseBlock(ts, j)
        case Nothing => Nothing
        case Got(body, k) => Got(If(condition, body), k)
    else if Is(ts, i, Ident("for")) && Is(ts, i + 1, Punct('(')) then
      match ParseControl(ts, i + 2)
      case Nothing => Nothing
      case Got(control, j) =>
        match ParseBlock(ts, j)
        case Nothing => Nothing
        case Got(body, k) => Got(For(control.0, control.1, control.2, body), k)
    else ParseAssign(ts, i)
  }

  function ParseReturn(ts: seq<Token>, i: nat): (r: Got<Stmt>)
    ensures r.Got? ==> i < r.next <= |ts|
  {
    match ParseUpTo(ts, i, ';')
    case Nothing => Nothing
    case Got(e, j) => Got(Return(e), j)
  }

  /** `struct tag *p;` */
  function ParseDeclare(ts: seq<Token>, i: nat): (r: Got<Stmt>)
    ensures r.Got? ==> i < r.next <= |ts|
  {
    if && Is(ts, i, Ident("struct")) && IsId(ts, i + 1) && Is(ts, i + 2, Punct('*')) && IsId(ts, i + 3)
       && Is(ts, i + 4, Punct(';'))
    then Got(Declare(ts[i + 1].name, ts[i + 3].name), i + 5)
    else Nothing
  }

  function ParseAssign(ts: seq<Token>, i: nat): (r: Got<Stmt>)
    ensures r.Got? ==> i < r.next <= |ts|
  {
    if !(IsId(ts, i) && Is(ts, i + 1, Punct('='))) then Nothing
    else
      match ParseUpTo(ts, i + 2, ';')
      case Nothing => Nothing
      case Got(e, j) => Got(Assign(ts[i].name, e), j)
  }

  /** `p = start; condition; p++)` */
  function ParseControl(ts: seq<Token>, i: nat): (r: Got<(string, Expr, Expr)>)
    ensures r.Got? ==> i < r.next <= |ts|
  {
    if !(IsId(ts, i) && Is(ts, i + 1, Punct('='))) then Nothing
    else
      match ParseUpTo(ts, i + 2, ';')
      case Nothing => Nothing
      case Got(start, j) =>
        match ParseUpTo(ts, j, ';')
        case Nothing => Nothing
        case Got(condition, k) =>
          if Is(ts, k, ts[i]) && Is(ts, k + 1, Punct('+')) && Is(ts, k + 2, Punct('+')) && Is(ts, k + 3, Punct(')'))
          then Got((ts[i].name, start, condition), k + 4)
          else Nothing
  }

  function ParseBlock(ts: seq<Token>, i: nat): (r: Got<Stmt>)
    ensures r.Got? ==> i < r.next <= |ts|
    decreases |ts| - i, 2
  {
    if Is(ts, i, Punct('{')) then ParseStmts(ts, i + 1) else Nothing
  }

  /** The statements of a block, and its closing brace. */
  function ParseStmts(ts: seq<Token>, i: nat): (r: Got<Stmt>)
    ensures r.Got? ==> i < r.next <= |ts|
    decreases |ts| - i, 1
  {
    if i >= |ts| then Nothing
    else if ts[i] == Punct('}') then Got(Skip, i + 1)
    else
      match ParseStmt(ts, i)
      case Nothing => Nothing
      case Got(first, j) =>
        match ParseStmts(ts, j)
        case Nothing => Nothing
        case Got(rest, k) => Got(Then(first, rest), k)
  }

  // ---------------------------------------------------------------- the function

  /** One function, and nothing behind it. */
  function ParseFunction(ts: seq<Token>): (r: Got<Function>) {
    if && Is(ts, 0, Ident("static")) && Is(ts, 1, Ident("bool")) && IsId(ts, 2) && Is(ts, 3, Punct('('))
       && Is(ts, 4, Ident("const")) && IsString(ts, 5) && Is(ts, 9, Punct('&')) && IsId(ts, 10)
       && Is(ts, 11, Punct(',')) && IsString(ts, 12) && Is(ts, 16, Punct('&')) && IsId(ts, 17)
       && Is(ts, 18, Punct(')'))
    then
      match ParseBlock(ts, 19)
      case Nothing => Nothing
      case Got(body, i) =>
        if i == |ts| then Got(Function(ts[2].name, ts[10].name, ts[17].name, body), i) else Nothing
    else Nothing
  }
}
