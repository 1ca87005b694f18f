/**
 The declarations of the emitted fragment, recognised token by token (again a left fold):
 an include guard, definitions of string variables, a structure of two pointers with one
 table of such pairs, one function, and the end of the guard. Adjacent string literals are joined here,
 after their escapes were decoded (translation phases 5 and 6 of section 2.2 of
 ISO/IEC 14882:2011).
 */
module Parser {
  import opened Lexer
  import Syntax

  /** `x = "..."`, or `x = std::string("...", n)`. */
  datatype Init = Literal(text: string) | Counted(text: string, count: nat)

  datatype Decl = Decl(variable: string, init: Init)

  /** `NULL`, or `&x`. */
  datatype Pointer = Null | AddressOf(variable: string)

  datatype Row = Row(first: Pointer, second: Pointer)

  /** `struct tag { ... } table[]`, with the names of the members. */
  datatype Shape = Shape(tag: string, fields: seq<string>, table: string)

  datatype Position =
    | Item                                        // between two external declarations
    | Kind                                        // after `static const`
    | Name                                        // before the variable being defined
    | Value(variable: string)                     // before its initializer
    | Pieces(variable: string, text: string)      // inside a run of literals
    | Argument(variable: string)                  // before the first literal of a call
    | Arguments(variable: string, text: string)   // inside a call's run of literals
    | Count(variable: string, text: string)       // before a call's integer
    | Tag                                         // after `static const struct`
    | Members(tag: string, fields: seq<string>)     // inside the braces of the structure
    | MemberName(tag: string, fields: seq<string>)  // before the name of a member
    | TableName(tag: string, fields: seq<string>)   // before the name of the table
    | RowOpen(shape: Shape, rows: seq<Row>)
    | First(shape: Shape, rows: seq<Row>)
    | FirstVariable(shape: Shape, rows: seq<Row>)
    | Second(shape: Shape, rows: seq<Row>, first: Pointer)
    | SecondVariable(shape: Shape, rows: seq<Row>, first: Pointer)
    | RowEnd(shape: Shape, rows: seq<Row>)
    | Code(shape: Shape, rows: seq<Row>, code: seq<Token>)    // inside the function, up to `#endif`
    | Done(shape: Shape, rows: seq<Row>, code: seq<Token>)
    | Match(todo: seq<Token>, next: Position)     // exactly these words and marks come next

  datatype Parse =
    | Failed
    | Opening                                     // before `#ifndef M`
    | Defining(macro: string)                     // before `#define M`
    | Including                                   // before `#include <string>`
    | Parsing(decls: seq<Decl>, at: Position)

  predicate IsFixed(t: Token) {
    t.Ident? || t.Punct?
  }

  function Enter(decls: seq<Decl>, todo: seq<Token>, next: Position): Parse {
    Parsing(decls, if todo == [] then next else Match(todo, next))
  }

  function Advance(decls: seq<Decl>, at: Position, t: Token): Parse {
    match at
    case Item => if t == Ident("static") then Parsing(decls, Match([Ident("const")], Kind)) else Failed
    case Kind =>
      if t == Ident("std") then Parsing(decls, Match(STD_STRING[1..], Name))
      else if t == Ident("struct") then Parsing(decls, Tag)
      else Failed
    case Name => if t.Ident? then Parsing(decls, Match([Punct('=')], Value(t.name))) else Failed
    case Value(x) =>
      if t.Str? then Parsing(decls, Pieces(x, t.text))
      else if t == Ident("std") then Parsing(decls, Match(STD_STRING[1..] + [Punct('(')], Argument(x)))
      else Failed
    case Pieces(x, text) =>
      if t.Str? then Parsing(decls, Pieces(x, text + t.text))
      else if t == Punct(';') then Parsing(decls + [Decl(x, Literal(text))], Item)
      else Failed
    case Argument(x) => if t.Str? then Parsing(decls, Arguments(x, t.text)) else Failed
    case Arguments(x, text) =>
      if t.Str? then Parsing(decls, Arguments(x, text + t.text))
      else if t == Punct(',') then Parsing(decls, Count(x, text))
      else Failed
    case Count(x, text) =>
      if t.Num? then Parsing(decls + [Decl(x, Counted(text, t.value))], Match([Punct(')'), Punct(';')], Item))
      else Failed
    case Tag => if t.Ident? then Parsing(decls, Match([Punct('{')], Members(t.name, []))) else Failed
    case Members(tag, fields) =>
      if t == Ident("const") then Parsing(decls, Match(STD_STRING + [Punct('*')], MemberName(tag, fields)))
      else if t == Punct('}') then Parsing(decls, TableName(tag, fields))
      else Failed
    case MemberName(tag, fields) =>
      if t.Ident? then Parsing(decls, Match([Punct(';')], Members(tag, fields + [t.name]))) else Failed
    case TableName(tag, fields) =>
      if t.Ident? then
        Parsing(decls, Match([Punct('['), Punct(']'), Punct('='), Punct('{')], RowOpen(Shape(tag, fields, t.name), [])))
      else Failed
    case RowOpen(shape, rows) => if t == Punct('{') then Parsing(decls, First(shape, rows)) else Failed
    case First(shape, rows) =>
      if t == Punct('&') then Parsing(decls, FirstVariable(shape, rows))
      else if t == Ident("NULL") then Parsing(decls, Match([Punct(',')], Second(shape, rows, Null)))
      else Failed
    case FirstVariable(shape, rows) =>
      if t.Ident? then Parsing(decls, Match([Punct(',')], Second(shape, rows, AddressOf(t.name)))) else Failed
    case Second(shape, rows, first) =>
      if t == Punct('&') then Parsing(decls, SecondVariable(shape, rows, first))
      else if t == Ident("NULL") then Parsing(decls, Match([Punct('}')], RowEnd(shape, rows + [Row(first, Null)])))
      else Failed
    case SecondVariable(shape, rows, first) =>
      if t.Ident? then Parsing(decls, Match([Punct('}')], RowEnd(shape, rows + [Row(first, AddressOf(t.name))])))
      else Failed
    case RowEnd(shape, rows) =>
      if t == Punct(',') then Parsing(decls, RowOpen(shape, rows))
      else if t == Punct('}') then Parsing(decls, Match([Punct(';')], Code(shape, rows, [])))
      else Failed
    case Code(shape, rows, code) =>
      if IsFixed(t) then Parsing(decls, Code(shape, rows, code + [t]))
      else if t.Directive? && "#endif" <= t.line then Parsing(decls, Done(shape, rows, code))
      else Failed
    case Done(_, _, _) => Failed
    case Match(todo, next) =>
      if todo != [] && t == todo[0] && IsFixed(t) then Enter(decls, todo[1..], next) else Failed
  }

  function Step(p: Parse, t: Token): Parse {
    match p
    case Failed => Failed
    case Opening => if t.Directive? && "#ifndef " <= t.line then Defining(t.line[8..]) else Failed
    case Defining(macro) => if t == Directive("#define " + macro) then Including else Failed
    case Including => if t == Directive("#include <string>") then Parsing([], Item) else Failed
    case Parsing(decls, at) => Advance(decls, at, t)
  }

  function Run(p: Parse, ts: seq<Token>): Parse
    decreases ts
  {
    if ts == [] then p else Run(Step(p, ts[0]), ts[1..])
  }

  datatype Unit = Unit(decls: seq<Decl>, shape: Shape, rows: seq<Row>, lookup: Syntax.Function)

  datatype Parsed = NoUnit | Parsed(unit: Unit)

  /** The structure has two members of different names, and the function is one of the fragment. */
  function ParseUnit(ts: seq<Token>): Parsed {
    var p := Run(Opening, ts);
    if !(p.Parsing? && p.at.Done?) then NoUnit
    else
      var shape, f := p.at.shape, Syntax.ParseFunction(p.at.code);
      if |shape.fields| == 2 && shape.fields[0] != shape.fields[1] && f.Got?
      then Parsed(Unit(p.decls, shape, p.at.rows, f.value))
      else NoUnit
  }
}
