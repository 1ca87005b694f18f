/** How the parser passes over the tokens of a generated header. */
module ParsingHeader {
  import opened Formatting
  import opened Parser
  import R = ReadingHeader
  import L = Lexer
  import H = Header

  lemma {:induction false} RunConcat(p: Parse, a: seq<L.Token>, b: seq<L.Token>)
    ensures Run(p, a + b) == Run(Run(p, a), b)
    decreases a
  {
    if a == [] {
      assert a + b == b;
    } else {
      assert (a + b)[1..] == a[1..] + b;
      RunConcat(Step(p, a[0]), a[1..], b);
    }
  }

  lemma {:induction false} RunOne(p: Parse, t: L.Token)
    ensures Run(p, [t]) == Step(p, t)
  {
    assert [t][1..] == [];
  }

  lemma {:induction false} RunFailed(ts: seq<L.Token>)
    ensures Run(Failed, ts) == Failed
    decreases ts
  {
    if ts != [] { RunFailed(ts[1..]); }
  }

  lemma {:induction false} RunMatch(decls: seq<Decl>, todo: seq<L.Token>, next: Position)
    requires todo != [] && forall i | 0 <= i < |todo| :: IsFixed(todo[i])
    ensures Run(Parsing(decls, Match(todo, next)), todo) == Parsing(decls, next)
    decreases todo
  {
    if |todo| > 1 {
      RunMatch(decls, todo[1..], next);
    } else {
      assert todo[1..] == [];
    }
  }

  /** One token after which certain tokens must follow, and those tokens. */
  lemma {:induction false} StepMatch(p: Parse, t: L.Token, decls: seq<Decl>, todo: seq<L.Token>, next: Position)
    requires Step(p, t) == Enter(decls, todo, next) && forall i | 0 <= i < |todo| :: IsFixed(todo[i])
    ensures Run(p, [t] + todo) == Parsing(decls, next)
  {
    hide Step;
    RunConcat(p, [t], todo);
    RunOne(p, t);
    if todo != [] { RunMatch(decls, todo, next); }
  }

  lemma {:induction false} ParseStatic(decls: seq<Decl>)
    ensures Run(Parsing(decls, Item), [L.Ident("static"), L.Ident("const")]) == Parsing(decls, Kind)
  {
    StepMatch(Parsing(decls, Item), L.Ident("static"), decls, [L.Ident("const")], Kind);
    assert [L.Ident("static"), L.Ident("const")] == [L.Ident("static")] + [L.Ident("const")];
  }

  lemma {:induction false} ParseDefine(decls: seq<Decl>, x: string)
    ensures Run(Parsing(decls, Item), R.DefineTokens(x)) == Parsing(decls, Value(x))
  {
    hide Run;
    var start := Parsing(decls, Item);
    var s, x' := [L.Ident("static"), L.Ident("const")], [L.Ident(x), L.Punct('=')];
    RunConcat(start, s + L.STD_STRING, x');
    RunConcat(start, s, L.STD_STRING);
    ParseStatic(decls);
    assert L.STD_STRING == [L.Ident("std")] + L.STD_STRING[1..];
    StepMatch(Parsing(decls, Kind), L.Ident("std"), decls, L.STD_STRING[1..], Name);
    assert x' == [L.Ident(x)] + [L.Punct('=')];
    StepMatch(Parsing(decls, Name), L.Ident(x), decls, [L.Punct('=')], Value(x));
  }

  function Joined(chunks: seq<Bytes>): (s: string)
  {
    if chunks == [] then "" else Joined(chunks[..|chunks| - 1]) + chunks[|chunks| - 1]
  }

  /** Adjacent literals are joined, whatever their number. */
  lemma {:induction false} ParseStrs(decls: seq<Decl>, x: string, chunks: seq<Bytes>)
    requires chunks != []
    ensures Run(Parsing(decls, Argument(x)), R.Strs(chunks)) == Parsing(decls, Arguments(x, Joined(chunks)))
    decreases |chunks|
  {
    var p, n := Parsing(decls, Argument(x)), |chunks| - 1;
    RunConcat(p, R.Strs(chunks[..n]), [L.Str(chunks[n])]);
    if n > 0 {
      ParseStrs(decls, x, chunks[..n]);
      RunOne(Parsing(decls, Arguments(x, Joined(chunks[..n]))), L.Str(chunks[n]));
    } else {
      assert R.Strs(chunks[..n]) == [];
      RunOne(p, L.Str(chunks[n]));
      assert Joined(chunks) == chunks[n];
    }
  }

  lemma {:induction false} JoinedFront(c: Bytes, chunks: seq<Bytes>)
    ensures Joined([c] + chunks) == c + Joined(chunks)
    decreases |chunks|
  {
    var n, all := |chunks| - 1, [c] + chunks;
    if chunks == [] {
      assert all[..0] == [];
    } else {
      assert all[..n + 1] == [c] + chunks[..n];
      assert all[n + 1] == chunks[n];
      JoinedFront(c, chunks[..n]);
    }
  }

  lemma {:induction false} JoinedChunks(contents: Bytes)
    ensures Joined(H.Chunks(contents)) == contents
    decreases |contents|
  {
    if |contents| > H.LINE {
      var c, rest := contents[..H.LINE], contents[H.LINE..];
      JoinedChunks(rest);
      JoinedFront(c, H.Chunks(rest));
      assert c + rest == contents;
    } else if contents != "" {
      assert [contents][..0] == [];
    }
  }

  lemma {:induction false} ParseData(decls: seq<Decl>, i: nat, contents: Bytes)
    requires contents != ""
    ensures Run(Parsing(decls, Item), R.DataTokens(i, contents)) ==
            Parsing(decls + [Decl(H.DataVariable(i), Counted(contents, |contents|))], Item)
  {
    hide Run, R.Strs, H.Chunks, R.DefineTokens;
    var start, x, strs := Parsing(decls, Item), H.DataVariable(i), R.Strs(H.Chunks(contents));
    var call, count, end := L.STD_STRING + [L.Punct('(')], [L.Num(|contents|), L.Punct(')')], [L.Punct(';')];
    var before := R.DefineTokens(x) + call + strs;
    RunConcat(start, before + [L.Punct(',')] + count, end);
    RunConcat(start, before + [L.Punct(',')], count);
    RunConcat(start, before, [L.Punct(',')]);
    RunConcat(start, R.DefineTokens(x) + call, strs);
    RunConcat(start, R.DefineTokens(x), call);
    ParseDefine(decls, x);
    ParseCall(decls, x);
    assert H.Chunks(contents) != [] by { JoinedChunks(contents); }
    ParseStrs(decls, x, H.Chunks(contents));
    JoinedChunks(contents);
    RunOne(Parsing(decls, Arguments(x, contents)), L.Punct(','));
    ParseCount(decls, x, contents);
  }

  lemma {:induction false} ParseCall(decls: seq<Decl>, x: string)
    ensures Run(Parsing(decls, Value(x)), L.STD_STRING + [L.Punct('(')]) == Parsing(decls, Argument(x))
  {
    hide Run;
    assert L.STD_STRING + [L.Punct('(')] == [L.Ident("std")] + (L.STD_STRING[1..] + [L.Punct('(')]);
    StepMatch(Parsing(decls, Value(x)), L.Ident("std"), decls, L.STD_STRING[1..] + [L.Punct('(')], Argument(x));
  }

  lemma {:induction false} ParseCount(decls: seq<Decl>, x: string, text: string)
    ensures Run(Run(Parsing(decls, Count(x, text)), [L.Num(|text|), L.Punct(')')]), [L.Punct(';')]) ==
            Parsing(decls + [Decl(x, Counted(text, |text|))], Item)
  {
    hide Run;
    var p, t, todo := Parsing(decls, Count(x, text)), L.Num(|text|), [L.Punct(')'), L.Punct(';')];
    RunConcat(p, [t, L.Punct(')')], [L.Punct(';')]);
    assert [t, L.Punct(')')] + [L.Punct(';')] == [t] + todo;
    StepMatch(p, t, decls + [Decl(x, Counted(text, |text|))], todo, Item);
  }

  // ---------------------------------------------------------------- table and function

  function RowOf(i: nat): Row {
    Row(AddressOf(H.NameVariable(i)), AddressOf(H.DataVariable(i)))
  }

  /** The row at position i - 1 points at the variables of file i. */
  function RowsOf(n: nat): (rows: seq<Row>)
    ensures |rows| == n
    ensures forall i | 0 <= i < n :: rows[i] == RowOf(i + 1)
  {
    seq(n, i requires 0 <= i < n => RowOf(i + 1))
  }

  const NULL_ROW := Row(Null, Null)

  const SHAPE := Shape("embedded_file", ["name", "data"], "embedded_files")

  lemma {:induction false} ParseRow(decls: seq<Decl>, shape: Shape, rows: seq<Row>, i: nat)
    ensures Run(Parsing(decls, RowOpen(shape, rows)), R.RowTokens(i)) ==
            Parsing(decls, RowOpen(shape, rows + [RowOf(i)]))
  {
    hide Run, H.NameVariable, H.DataVariable;
    var x, y, start := H.NameVariable(i), H.DataVariable(i), Parsing(decls, RowOpen(shape, rows));
    var open, first := [L.Punct('{'), L.Punct('&')], [L.Ident(x), L.Punct(','), L.Punct('&')];
    var second := [L.Ident(y), L.Punct('}'), L.Punct(',')];
    RunConcat(start, open + first, second);
    RunConcat(start, open, first);
    assert open == [L.Punct('{')] + [L.Punct('&')];
    RunConcat(start, [L.Punct('{')], [L.Punct('&')]);
    RunOne(start, L.Punct('{'));
    RunOne(Parsing(decls, First(shape, rows)), L.Punct('&'));
    ParseRowName(decls, shape, rows, x);
    ParseRowData(decls, shape, rows, AddressOf(x), y);
  }

  lemma {:induction false} ParseRowName(decls: seq<Decl>, shape: Shape, rows: seq<Row>, x: string)
    ensures Run(Parsing(decls, FirstVariable(shape, rows)), [L.Ident(x), L.Punct(','), L.Punct('&')]) ==
            Parsing(decls, SecondVariable(shape, rows, AddressOf(x)))
  {
    hide Run;
    var p := Parsing(decls, FirstVariable(shape, rows));
    assert [L.Ident(x), L.Punct(','), L.Punct('&')] == [L.Ident(x)] + [L.Punct(',')] + [L.Punct('&')];
    RunConcat(p, [L.Ident(x)] + [L.Punct(',')], [L.Punct('&')]);
    StepMatch(p, L.Ident(x), decls, [L.Punct(',')], Second(shape, rows, AddressOf(x)));
    RunOne(Parsing(decls, Second(shape, rows, AddressOf(x))), L.Punct('&'));
  }

  lemma {:induction false} ParseRowData(decls: seq<Decl>, shape: Shape, rows: seq<Row>, first: Pointer, y: string)
    ensures Run(Parsing(decls, SecondVariable(shape, rows, first)), [L.Ident(y), L.Punct('}'), L.Punct(',')]) ==
            Parsing(decls, RowOpen(shape, rows + [Row(first, AddressOf(y))]))
  {
    hide Run;
    var p, all := Parsing(decls, SecondVariable(shape, rows, first)), rows + [Row(first, AddressOf(y))];
    assert [L.Ident(y), L.Punct('}'), L.Punct(',')] == [L.Ident(y)] + [L.Punct('}')] + [L.Punct(',')];
    RunConcat(p, [L.Ident(y)] + [L.Punct('}')], [L.Punct(',')]);
    StepMatch(p, L.Ident(y), decls, [L.Punct('}')], RowEnd(shape, all));
    RunOne(Parsing(decls, RowEnd(shape, all)), L.Punct(','));
  }

  lemma {:induction false} ParseRows(decls: seq<Decl>, shape: Shape, n: nat)
    ensures Run(Parsing(decls, RowOpen(shape, [])), R.RowsTokens(n)) == Parsing(decls, RowOpen(shape, RowsOf(n)))
  {
    hide R.RowTokens;
    if n == 0 {
      assert RowsOf(n) == [];
    } else {
      ParseRows(decls, shape, n - 1);
      RunConcat(Parsing(decls, RowOpen(shape, [])), R.RowsTokens(n - 1), R.RowTokens(n));
      ParseRow(decls, shape, RowsOf(n - 1), n);
      assert RowsOf(n) == RowsOf(n - 1) + [RowOf(n)];
    }
  }

  lemma {:induction false} ParseMember(decls: seq<Decl>, tag: string, fields: seq<string>, field: string)
    ensures Run(Parsing(decls, Members(tag, fields)), R.MemberTokens(field)) ==
            Parsing(decls, Members(tag, fields + [field]))
  {
    hide Run;
    var p, q := Parsing(decls, Members(tag, fields)), Parsing(decls, MemberName(tag, fields));
    var todo := L.STD_STRING + [L.Punct('*')];
    RunConcat(p, [L.Ident("const")] + todo, [L.Ident(field), L.Punct(';')]);
    StepMatch(p, L.Ident("const"), decls, todo, MemberName(tag, fields));
    assert [L.Ident(field), L.Punct(';')] == [L.Ident(field)] + [L.Punct(';')];
    StepMatch(q, L.Ident(field), decls, [L.Punct(';')], Members(tag, fields + [field]));
  }

  lemma {:induction false} ParseTableName(decls: seq<Decl>, tag: string, fields: seq<string>)
    ensures Run(Parsing(decls, Members(tag, fields)), R.TABLE_NAME) ==
            Parsing(decls, RowOpen(Shape(tag, fields, "embedded_files"), []))
  {
    hide Run;
    var p, q := Parsing(decls, Members(tag, fields)), Parsing(decls, TableName(tag, fields));
    var name, todo := L.Ident("embedded_files"), [L.Punct('['), L.Punct(']'), L.Punct('='), L.Punct('{')];
    assert R.TABLE_NAME == [L.Punct('}')] + ([name] + todo);
    RunConcat(p, [L.Punct('}')], [name] + todo);
    RunOne(p, L.Punct('}'));
    StepMatch(q, name, decls, todo, RowOpen(Shape(tag, fields, "embedded_files"), []));
  }

  lemma {:induction false} ParseTableBody(decls: seq<Decl>)
    ensures Run(Parsing(decls, Tag), R.TABLE_BODY) == Parsing(decls, RowOpen(SHAPE, []))
  {
    hide Run, R.MemberTokens;
    var p, tag := Parsing(decls, Tag), "embedded_file";
    var a, b := R.STRUCT + R.MemberTokens("name"), R.MemberTokens("data") + R.TABLE_NAME;
    RunConcat(p, a, b);
    RunConcat(p, R.STRUCT, R.MemberTokens("name"));
    assert R.STRUCT == [L.Ident(tag)] + [L.Punct('{')];
    StepMatch(p, L.Ident(tag), decls, [L.Punct('{')], Members(tag, []));
    ParseMember(decls, tag, [], "name");
    assert [] + ["name"] == ["name"] && ["name"] + ["data"] == ["name", "data"];
    RunConcat(Parsing(decls, Members(tag, ["name"])), R.MemberTokens("data"), R.TABLE_NAME);
    ParseMember(decls, tag, ["name"], "data");
    ParseTableName(decls, tag, ["name", "data"]);
  }

  lemma {:induction false} ParseTableHead(decls: seq<Decl>)
    ensures Run(Parsing(decls, Item), R.TABLE_HEAD) == Parsing(decls, RowOpen(SHAPE, []))
  {
    hide Run, R.TABLE_BODY, SHAPE;
    var start, s := Parsing(decls, Item), [L.Ident("static"), L.Ident("const")];
    RunConcat(start, s + [L.Ident("struct")], R.TABLE_BODY);
    RunConcat(start, s, [L.Ident("struct")]);
    ParseStatic(decls);
    RunOne(Parsing(decls, Kind), L.Ident("struct"));
    ParseTableBody(decls);
  }

  lemma {:induction false} ParseTableEnd(decls: seq<Decl>, shape: Shape, rows: seq<Row>)
    ensures Run(Parsing(decls, RowOpen(shape, rows)), R.LAST_ROW) ==
            Parsing(decls, Code(shape, rows + [NULL_ROW], []))
  {
    hide Run;
    var start, all := Parsing(decls, RowOpen(shape, rows)), rows + [NULL_ROW];
    var open, first := [L.Punct('{')], [L.Ident("NULL"), L.Punct(',')];
    var second, close := [L.Ident("NULL"), L.Punct('}')], [L.Punct('}'), L.Punct(';')];
    RunConcat(start, open + first + second, close);
    RunConcat(start, open + first, second);
    RunConcat(start, open, first);
    RunOne(start, L.Punct('{'));
    assert first == [L.Ident("NULL")] + [L.Punct(',')];
    StepMatch(Parsing(decls, First(shape, rows)), L.Ident("NULL"), decls, [L.Punct(',')], Second(shape, rows, Null));
    ParseLastNull(decls, shape, rows);
  }

  lemma {:induction false} ParseLastNull(decls: seq<Decl>, shape: Shape, rows: seq<Row>)
    ensures Run(Run(Parsing(decls, Second(shape, rows, Null)), [L.Ident("NULL"), L.Punct('}')]),
                [L.Punct('}'), L.Punct(';')]) ==
            Parsing(decls, Code(shape, rows + [NULL_ROW], []))
  {
    hide Run;
    var p, all := Parsing(decls, Second(shape, rows, Null)), rows + [NULL_ROW];
    assert [L.Ident("NULL"), L.Punct('}')] == [L.Ident("NULL")] + [L.Punct('}')];
    assert [L.Punct('}'), L.Punct(';')] == [L.Punct('}')] + [L.Punct(';')];
    StepMatch(p, L.Ident("NULL"), decls, [L.Punct('}')], RowEnd(shape, all));
    StepMatch(Parsing(decls, RowEnd(shape, all)), L.Punct('}'), decls, [L.Punct(';')], Code(shape, all, []));
  }

  /** The tokens of the function are kept as they come. */
  lemma {:induction false} ParseCode(decls: seq<Decl>, shape: Shape, rows: seq<Row>, code: seq<L.Token>,
                                     ts: seq<L.Token>)
    requires AllFixed(ts)
    ensures Run(Parsing(decls, Code(shape, rows, code)), ts) == Parsing(decls, Code(shape, rows, code + ts))
    decreases ts
  {
    if ts == [] {
      assert code + ts == code;
    } else {
      assert IsFixed(ts[0]);
      ParseCode(decls, shape, rows, code + [ts[0]], ts[1..]);
      assert code + [ts[0]] + ts[1..] == code + ts;
    }
  }

  predicate AllFixed(ts: seq<L.Token>) {
    forall i | 0 <= i < |ts| :: IsFixed(ts[i])
  }

  lemma {:induction false} HeadIsFixed()
    ensures AllFixed(R.FUNCTION_NAME + R.NAME_PARAMETER + R.DATA_PARAMETER)
    ensures AllFixed(R.CURSOR + R.LOOP_START + R.LOOP_GUARD)
  {
    assert AllFixed(R.FUNCTION_NAME) && AllFixed(R.NAME_PARAMETER) && AllFixed(R.DATA_PARAMETER);
    assert AllFixed(R.CURSOR) && AllFixed(R.LOOP_START) && AllFixed(R.LOOP_GUARD);
  }

  lemma {:induction false} CodeIsFixed()
    ensures AllFixed(R.CODE)
  {
    HeadIsFixed();
    assert AllFixed(R.COMPARISON) && AllFixed(R.ASSIGNMENT) && AllFixed(R.RETURN_TRUE) && AllFixed(R.END);
  }

  lemma {:induction false} ParseEndif(decls: seq<Decl>, shape: Shape, rows: seq<Row>, code: seq<L.Token>)
    ensures Run(Parsing(decls, Code(shape, rows, code)), [L.Directive(H.ENDIF)]) ==
            Parsing(decls, Done(shape, rows, code))
  {
    RunOne(Parsing(decls, Code(shape, rows, code)), L.Directive(H.ENDIF));
    assert "#endif" <= H.ENDIF;
  }

  const PREAMBLE := [
    L.Directive("#ifndef " + H.GUARD), L.Directive("#define " + H.GUARD), L.Directive("#include <string>")]

  lemma {:induction false} ParsePreamble()
    ensures Run(Opening, PREAMBLE) == Parsing([], Item)
  {
    var d1, d2 := L.Directive("#ifndef " + H.GUARD), L.Directive("#define " + H.GUARD);
    var d3 := L.Directive("#include <string>");
    assert PREAMBLE == [d1] + [d2] + [d3];
    RunConcat(Opening, [d1] + [d2], [d3]);
    RunConcat(Opening, [d1], [d2]);
    assert Step(Opening, d1) == Defining(H.GUARD) by {
      assert ("#ifndef " + H.GUARD)[8..] == H.GUARD;
    }
    RunOne(Opening, d1);
    RunOne(Defining(H.GUARD), d2);
    RunOne(Including, d3);
  }
}
