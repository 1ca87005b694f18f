/**
 From text to the program image: the string variables with their values, the table of
 pointers into them, and the function.
 */
module Linker {
  import Lexer
  import opened Parser
  import Syntax

  type Env = map<string, string>

  datatype Image = Image(env: Env, shape: Shape, rows: seq<Row>, lookup: Syntax.Function)

  datatype Result<+T> = Ok(value: T) | Error

  /** The string a `const char *` denotes: everything before the first NUL. */
  function CString(text: string): (s: string)
    ensures s <= text && '\0' !in s
    ensures |s| < |text| ==> text[|s|] == '\0'
  {
    if text == "" || text[0] == '\0' then "" else [text[0]] + CString(text[1..])
  }

  /**
   The value of an initializer. `std::string(p, n)` copies n characters starting at p; a
   literal of m characters provides m + 1, the last one NUL, and to read more is an error.
   */
  function Evaluate(init: Init): Result<string> {
    match init
    case Literal(text) => Ok(CString(text))
    case Counted(text, count) =>
      if count <= |text| then Ok(text[..count])
      else if count == |text| + 1 then Ok(text + "\0")
      else Error
  }

  /** Every variable may be defined once only. */
  function Bind(decls: seq<Decl>): Result<Env> {
    if decls == [] then Ok(map[])
    else
      var d := decls[|decls| - 1];
      match (Bind(decls[..|decls| - 1]), Evaluate(d.init))
      case (Ok(env), Ok(value)) => if d.variable in env then Error else Ok(env[d.variable := value])
      case _ => Error
  }

  predicate Resolves(p: Pointer, env: Env) {
    p.AddressOf? ==> p.variable in env
  }

  predicate AllResolve(rows: seq<Row>, env: Env) {
    forall i | 0 <= i < |rows| :: Resolves(rows[i].first, env) && Resolves(rows[i].second, env)
  }

  /** Compiling a header: it is an error when any phase fails. */
  function Compile(text: string): Result<Image> {
    match Lexer.Tokenize(text)
    case NoTokens => Error
    case Tokens(ts) =>
      match ParseUnit(ts)
      case NoUnit => Error
      case Parsed(unit) =>
        match Bind(unit.decls)
        case Error => Error
        case Ok(env) =>
          if AllResolve(unit.rows, env) then Ok(Image(env, unit.shape, unit.rows, unit.lookup)) else Error
  }
}
