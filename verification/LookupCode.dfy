/** The emitted function: the tree that its tokens are parsed into, and what running that tree does. */
module LookupCode {
  import opened Lexer
  import opened Parser
  import opened Syntax
  import opened Linker
  import opened Runtime
  import PH = ParsingHeader
  import RH = ReadingHeader

  // ---------------------------------------------------------------- the tree

  const FOUND := Then(Assign("data", Target(Member("p", "data"))), Then(Return(Id("true")), Skip))

  const TEST := If(Equal(Target(Member("p", "name")), Id("name")), FOUND)

  const WALK := For("p", Id("embedded_files"), Unequal(Member("p", "name"), Id("NULL")), Then(TEST, Skip))

  const BODY := Then(Declare("embedded_file", "p"), Then(WALK, Then(Return(Id("false")), Skip)))

  const LOOKUP := Function("find_embedded_file", "name", "data", BODY)

  // ---------------------------------------------------------------- parsing

  predicate At(ts: seq<Token>, i: nat, piece: seq<Token>) {
    i + |piece| <= |ts| && forall j | i <= j < i + |piece| :: ts[j] == piece[j - i]
  }

  /** A mark that ends an operand. */
  predicate Ends(ts: seq<Token>, i: nat) {
    i < |ts| && ts[i] != Punct('-') && ts[i] != Punct('=') && ts[i] != Punct('!')
  }

  lemma {:induction false} ParsesId(ts: seq<Token>, i: nat, x: string, mark: char)
    requires At(ts, i, [Ident(x), Punct(mark)]) && Ends(ts, i + 1)
    ensures ParseUpTo(ts, i, mark) == Got(Id(x), i + 2)
  {
    assert ts[i] == Ident(x) && ts[i + 1] == Punct(mark);
  }

  lemma {:induction false} ParsesMember(ts: seq<Token>, i: nat, x: string, field: string)
    requires At(ts, i, [Ident(x), Punct('-'), Punct('>'), Ident(field)])
    ensures ParsePrimary(ts, i) == Got(Member(x, field), i + 4)
  {
    assert ts[i] == Ident(x) && ts[i + 1] == Punct('-') && ts[i + 2] == Punct('>') && ts[i + 3] == Ident(field);
  }

  lemma {:induction false} ParsesReturn(ts: seq<Token>, i: nat, word: string)
    requires At(ts, i, [Ident("return"), Ident(word), Punct(';')])
    ensures Is(ts, i, Ident("return")) && ParseStmt(ts, i) == Got(Return(Id(word)), i + 3)
  {
    assert ts[i] == Ident("return") && ts[i + 1] == Ident(word) && ts[i + 2] == Punct(';');
    ParsesId(ts, i + 1, word, ';');
  }

  lemma {:induction false} ParsesAssign(ts: seq<Token>, i: nat)
    requires At(ts, i, RH.ASSIGNMENT)
    ensures Is(ts, i, Ident("data")) && ParseStmt(ts, i) == Got(FOUND.first, i + 8)
  {
    assert ts[i] == Ident("data") && ts[i + 1] == Punct('=') && ts[i + 2] == Punct('*') && ts[i + 7] == Punct(';');
    assert At(ts, i + 3, [Ident("p"), Punct('-'), Punct('>'), Ident("data")]);
    ParsesMember(ts, i + 3, "p", "data");
    hide At, RH.ASSIGNMENT, ParsePrimary;
  }

  lemma {:induction false} ParsesFound(ts: seq<Token>, i: nat)
    requires At(ts, i, RH.ASSIGNMENT) && At(ts, i + 8, RH.RETURN_TRUE) && Is(ts, i + 11, Punct('}'))
    ensures ParseStmts(ts, i) == Got(FOUND, i + 12)
  {
    ParsesAssign(ts, i);
    ParsesReturn(ts, i + 8, "true");
    hide ParseStmt, At;
    assert ParseStmts(ts, i + 11) == Got(Skip, i + 12);
    assert ParseStmts(ts, i + 8) == Got(FOUND.rest, i + 12);
  }

  lemma {:induction false} ParsesComparison(ts: seq<Token>, i: nat)
    requires At(ts, i, RH.COMPARISON)
    ensures Is(ts, i, Ident("if")) && Is(ts, i + 1, Punct('(')) && Is(ts, i + 11, Punct('{'))
    ensures ParseUpTo(ts, i + 2, ')') == Got(TEST.condition, i + 11)
  {
    assert ts[i] == Ident("if") && ts[i + 1] == Punct('(') && ts[i + 2] == Punct('*') && ts[i + 11] == Punct('{');
    assert At(ts, i + 3, [Ident("p"), Punct('-'), Punct('>'), Ident("name")]);
    assert ts[i + 7] == Punct('=') && ts[i + 8] == Punct('=') && ts[i + 9] == Ident("name") && ts[i + 10] == Punct(')');
    ParsesMember(ts, i + 3, "p", "name");
    hide At, RH.COMPARISON;
    assert ParseOperand(ts, i + 9) == Got(Id("name"), i + 10);
    hide ParsePrimary;
    assert ParseOperand(ts, i + 2) == Got(Target(Member("p", "name")), i + 7);
  }

  lemma {:induction false} ParsesTest(ts: seq<Token>, i: nat)
    requires At(ts, i, RH.COMPARISON) && At(ts, i + 12, RH.ASSIGNMENT) && At(ts, i + 20, RH.RETURN_TRUE)
    requires Is(ts, i + 23, Punct('}'))
    ensures Is(ts, i, Ident("if")) && ParseStmt(ts, i) == Got(TEST, i + 24)
  {
    ParsesComparison(ts, i);
    ParsesFound(ts, i + 12);
    hide ParseStmts, ParseUpTo, At;
    assert ParseBlock(ts, i + 11) == Got(FOUND, i + 24);
  }

  lemma {:induction false} ParsesGuard(ts: seq<Token>, i: nat)
    requires At(ts, i, RH.LOOP_GUARD)
    ensures ParseUpTo(ts, i, ';') == Got(WALK.condition, i + 8)
    ensures Is(ts, i + 8, Ident("p")) && Is(ts, i + 9, Punct('+')) && Is(ts, i + 10, Punct('+'))
    ensures Is(ts, i + 11, Punct(')')) && Is(ts, i + 12, Punct('{'))
  {
    assert At(ts, i, [Ident("p"), Punct('-'), Punct('>'), Ident("name")]);
    assert ts[i + 4] == Punct('!') && ts[i + 5] == Punct('=') && ts[i + 6] == Ident("NULL") && ts[i + 7] == Punct(';');
    assert ts[i + 8] == Ident("p") && ts[i + 9] == Punct('+') && ts[i + 10] == Punct('+');
    assert ts[i + 11] == Punct(')') && ts[i + 12] == Punct('{') && ts[i] == Ident("p");
    ParsesMember(ts, i, "p", "name");
    hide At, RH.LOOP_GUARD;
    assert ParseOperand(ts, i + 6) == Got(Id("NULL"), i + 7);
    hide ParsePrimary;
    assert ParseOperand(ts, i) == Got(Member("p", "name"), i + 4);
  }

  lemma {:induction false} ParsesStart(ts: seq<Token>, i: nat)
    requires At(ts, i, RH.LOOP_START)
    ensures Is(ts, i, Ident("for")) && Is(ts, i + 1, Punct('('))
    ensures Is(ts, i + 2, Ident("p")) && Is(ts, i + 3, Punct('='))
    ensures ParseUpTo(ts, i + 4, ';') == Got(WALK.start, i + 6)
  {
    assert ts[i] == Ident("for") && ts[i + 1] == Punct('(') && ts[i + 2] == Ident("p") && ts[i + 3] == Punct('=');
    assert At(ts, i + 4, [Ident("embedded_files"), Punct(';')]);
    ParsesId(ts, i + 4, "embedded_files", ';');
  }

  lemma {:induction false} ParsesControl(ts: seq<Token>, i: nat)
    requires At(ts, i, RH.LOOP_START) && At(ts, i + 6, RH.LOOP_GUARD)
    ensures Is(ts, i, Ident("for")) && Is(ts, i + 1, Punct('(')) && Is(ts, i + 18, Punct('{'))
    ensures ParseControl(ts, i + 2) == Got((WALK.pointer, WALK.start, WALK.condition), i + 18)
  {
    hide At, ParseUpTo;
    ParsesStart(ts, i);
    ParsesGuard(ts, i + 6);
  }

  lemma {:induction false} ParsesWalk(ts: seq<Token>, i: nat)
    requires At(ts, i, RH.LOOP_START) && At(ts, i + 6, RH.LOOP_GUARD)
    requires At(ts, i + 19, RH.COMPARISON) && At(ts, i + 31, RH.ASSIGNMENT) && At(ts, i + 39, RH.RETURN_TRUE)
    requires Is(ts, i + 42, Punct('}')) && Is(ts, i + 43, Punct('}'))
    ensures Is(ts, i, Ident("for")) && ParseStmt(ts, i) == Got(WALK, i + 44)
  {
    ParsesControl(ts, i);
    ParsesTest(ts, i + 19);
    hide At, ParseControl, TEST;
    assert ParseStmts(ts, i + 43) == Got(Skip, i + 44);
    assert ParseBlock(ts, i + 18) == Got(WALK.body, i + 44) by { hide ParseStmt; }
    hide ParseStmts;
  }

  lemma {:induction false} ParsesDeclare(ts: seq<Token>, i: nat)
    requires At(ts, i, RH.CURSOR)
    ensures Is(ts, i, Ident("const")) && ParseStmt(ts, i) == Got(Declare("embedded_file", "p"), i + 6)
  {
    assert ts[i] == Ident("const") && ts[i + 1] == Ident("struct") && ts[i + 2] == Ident("embedded_file");
    assert ts[i + 3] == Punct('*') && ts[i + 4] == Ident("p") && ts[i + 5] == Punct(';');
    hide At, RH.CURSOR;
  }

  lemma {:induction false} ParsesEnd(ts: seq<Token>, i: nat)
    requires At(ts, i, RH.END)
    ensures Is(ts, i, Punct('}')) && Is(ts, i + 1, Punct('}'))
    ensures ParseStmts(ts, i + 2) == Got(BODY.rest.rest, i + 6)
  {
    assert ts[i] == Punct('}') && ts[i + 1] == Punct('}') && ts[i + 5] == Punct('}');
    assert At(ts, i + 2, [Ident("return"), Ident("false"), Punct(';')]);
    ParsesReturn(ts, i + 2, "false");
    hide At, ParseStmt;
    assert ParseStmts(ts, i + 5) == Got(Skip, i + 6);
  }

  lemma {:induction false} ParsesBody(ts: seq<Token>, i: nat)
    requires Three(ts, i, RH.CURSOR, RH.LOOP_START, RH.LOOP_GUARD)
    requires Three(ts, i + 25, RH.COMPARISON, RH.ASSIGNMENT, RH.RETURN_TRUE) && At(ts, i + 48, RH.END)
    ensures ParseStmts(ts, i) == Got(BODY, i + 54)
  {
    PieceSizes();
    hide At, ParseStmt, WALK;
    ParsesDeclare(ts, i);
    ParsesEnd(ts, i + 48);
    ParsesWalk(ts, i + 6);
    assert ParseStmts(ts, i + 6) == Got(BODY.rest, i + 54);
  }

  /** Three pieces, one behind the other. */
  predicate Three(ts: seq<Token>, i: nat, a: seq<Token>, b: seq<Token>, c: seq<Token>) {
    At(ts, i, a) && At(ts, i + |a|, b) && At(ts, i + |a| + |b|, c)
  }

  lemma {:induction false} ThreeLast(x: seq<Token>, a: seq<Token>, b: seq<Token>, c: seq<Token>)
    ensures Three(x + (a + b + c), |x|, a, b, c)
  {
  }

  lemma {:induction false} ThreeMore(ts: seq<Token>, i: nat, a: seq<Token>, b: seq<Token>, c: seq<Token>, y: seq<Token>)
    requires Three(ts, i, a, b, c)
    ensures Three(ts + y, i, a, b, c)
  {
  }

  lemma {:induction false} PieceSizes()
    ensures |RH.FUNCTION_NAME| == 4 && |RH.NAME_PARAMETER| == 8 && |RH.DATA_PARAMETER| == 8
    ensures |RH.CURSOR| == 6 && |RH.LOOP_START| == 6 && |RH.LOOP_GUARD| == 13
    ensures |RH.COMPARISON| == 12 && |RH.ASSIGNMENT| == 8 && |RH.RETURN_TRUE| == 3 && |RH.END| == 6
  {
  }

  lemma {:induction false} CodePieces()
    ensures Three(RH.CODE, 0, RH.FUNCTION_NAME, RH.NAME_PARAMETER, RH.DATA_PARAMETER)
    ensures Three(RH.CODE, 20, RH.CURSOR, RH.LOOP_START, RH.LOOP_GUARD)
    ensures Three(RH.CODE, 45, RH.COMPARISON, RH.ASSIGNMENT, RH.RETURN_TRUE)
    ensures At(RH.CODE, 68, RH.END) && |RH.CODE| == 74
  {
    PieceSizes();
    hide RH.FUNCTION_NAME, RH.NAME_PARAMETER, RH.DATA_PARAMETER, RH.CURSOR, RH.LOOP_START, RH.LOOP_GUARD;
    hide RH.COMPARISON, RH.ASSIGNMENT, RH.RETURN_TRUE, RH.END, Three;
    var s := RH.FUNCTION_NAME + RH.NAME_PARAMETER + RH.DATA_PARAMETER;
    var l, t := RH.CURSOR + RH.LOOP_START + RH.LOOP_GUARD, RH.COMPARISON + RH.ASSIGNMENT + RH.RETURN_TRUE;
    assert [] + s == s;
    ThreeLast([], RH.FUNCTION_NAME, RH.NAME_PARAMETER, RH.DATA_PARAMETER);
    ThreeMore(s, 0, RH.FUNCTION_NAME, RH.NAME_PARAMETER, RH.DATA_PARAMETER, l);
    ThreeMore(s + l, 0, RH.FUNCTION_NAME, RH.NAME_PARAMETER, RH.DATA_PARAMETER, t);
    ThreeMore(s + l + t, 0, RH.FUNCTION_NAME, RH.NAME_PARAMETER, RH.DATA_PARAMETER, RH.END);
    ThreeLast(s, RH.CURSOR, RH.LOOP_START, RH.LOOP_GUARD);
    ThreeMore(s + l, 20, RH.CURSOR, RH.LOOP_START, RH.LOOP_GUARD, t);
    ThreeMore(s + l + t, 20, RH.CURSOR, RH.LOOP_START, RH.LOOP_GUARD, RH.END);
    ThreeLast(s + l, RH.COMPARISON, RH.ASSIGNMENT, RH.RETURN_TRUE);
    ThreeMore(s + l + t, 45, RH.COMPARISON, RH.ASSIGNMENT, RH.RETURN_TRUE, RH.END);
  }

  lemma {:induction false} ParsesSignature(ts: seq<Token>)
    requires Three(ts, 0, RH.FUNCTION_NAME, RH.NAME_PARAMETER, RH.DATA_PARAMETER)
    ensures Is(ts, 0, Ident("static")) && Is(ts, 1, Ident("bool")) && Is(ts, 2, Ident("find_embedded_file"))
    ensures Is(ts, 3, Punct('(')) && Is(ts, 4, Ident("const")) && IsString(ts, 5) && Is(ts, 9, Punct('&'))
    ensures Is(ts, 10, Ident("name")) && Is(ts, 11, Punct(',')) && IsString(ts, 12) && Is(ts, 16, Punct('&'))
    ensures Is(ts, 17, Ident("data")) && Is(ts, 18, Punct(')')) && Is(ts, 19, Punct('{'))
  {
    assert ts[5..9] == STD_STRING;
    assert ts[12..16] == STD_STRING;
  }

  /** The function of every generated header is read as this tree. */
  lemma {:induction false} CodeParses()
    ensures ParseFunction(RH.CODE) == Got(LOOKUP, 74)
  {
    hide At, RH.CODE, BODY, ParseStmts, Three, IsString;
    CodePieces();
    ParsesSignature(RH.CODE);
    ParsesBody(RH.CODE, 20);
    assert ParseBlock(RH.CODE, 19) == Got(BODY, 74);
  }

  // ---------------------------------------------------------------- running

  function Frame(name: string, data: string, p: Value): Locals {
    map["name" := Chars(name), "data" := Chars(data), "p" := p]
  }

  /** One turn of the loop, at a row that points at two strings. */
  lemma {:induction false} Turn(image: Image, i: nat, name: string, data: string)
    requires image.shape == PH.SHAPE && i < |image.rows|
    requires image.rows[i].first.AddressOf? && image.rows[i].first.variable in image.env
    requires image.rows[i].second.AddressOf? && image.rows[i].second.variable in image.env
    ensures Eval(WALK.condition, image, Frame(name, data, Cursor(i))) == Ok(Truth(true))
    ensures var found := image.env[image.rows[i].second.variable];
            Exec(WALK.body, image, "name", Frame(name, data, Cursor(i))) ==
            if image.env[image.rows[i].first.variable] == name
            then Returned(Truth(true), Frame(name, found, Cursor(i)))
            else Next(Frame(name, data, Cursor(i)))
  {
    var locals, row := Frame(name, data, Cursor(i)), image.rows[i];
    assert Eval(Member("p", "name"), image, locals) == Ok(Address(row.first));
    assert Eval(Member("p", "data"), image, locals) == Ok(Address(row.second));
    assert Eval(Target(Member("p", "name")), image, locals) == Ok(Chars(image.env[row.first.variable]));
    assert Eval(Target(Member("p", "data")), image, locals) == Ok(Chars(image.env[row.second.variable]));
    assert Eval(TEST.condition, image, locals) == Ok(Truth(image.env[row.first.variable] == name));
    Found(image, name, data, i);
    hide Eval;
    assert Exec(TEST, image, "name", locals) ==
           if image.env[row.first.variable] == name then Exec(FOUND, image, "name", locals) else Next(locals);
  }

  lemma {:induction false} Found(image: Image, name: string, data: string, i: nat)
    requires image.shape == PH.SHAPE && i < |image.rows|
    requires image.rows[i].second.AddressOf? && image.rows[i].second.variable in image.env
    ensures var found := image.env[image.rows[i].second.variable];
            Exec(FOUND, image, "name", Frame(name, data, Cursor(i))) ==
            Returned(Truth(true), Frame(name, found, Cursor(i)))
  {
    var locals, found := Frame(name, data, Cursor(i)), image.env[image.rows[i].second.variable];
    assert Eval(Member("p", "data"), image, locals) == Ok(Address(image.rows[i].second));
    assert Eval(Target(Member("p", "data")), image, locals) == Ok(Chars(found));
    assert locals["data" := Chars(found)] == Frame(name, found, Cursor(i));
    assert Exec(FOUND.first, image, "name", locals) == Next(Frame(name, found, Cursor(i)));
    assert Exec(FOUND.rest.first, image, "name", Frame(name, found, Cursor(i))) ==
           Returned(Truth(true), Frame(name, found, Cursor(i)));
  }

  lemma {:induction false} LoopTurn(image: Image, i: nat, name: string, data: string, p: Value)
    requires image.shape == PH.SHAPE && Walkable(image) && i < Sentinel(image.rows)
    ensures var entry := Listing(image)[i];
            Loop(WALK, image, "name", i, Frame(name, data, p)) ==
            if entry.name == name then Returned(Truth(true), Frame(name, entry.data, Cursor(i)))
            else Loop(WALK, image, "name", i + 1, Frame(name, data, Cursor(i)))
  {
    hide Eval, Exec;
    assert Frame(name, data, p)["p" := Cursor(i)] == Frame(name, data, Cursor(i));
    Turn(image, i, name, data);
  }

  /** The loop from row i on. */
  lemma {:induction false} Walk(image: Image, i: nat, name: string, data: string, p: Value)
    requires image.shape == PH.SHAPE && Walkable(image) && i <= Sentinel(image.rows)
    ensures var a := Lookup(Listing(image)[i..], name, data);
            var r := Loop(WALK, image, "name", i, Frame(name, data, p));
            if a.found then r.Returned? && r.value == Truth(true) && exists q :: r.locals == Frame(name, a.data, q)
            else r == Next(Frame(name, data, Cursor(Sentinel(image.rows))))
    decreases Sentinel(image.rows) - i
  {
    var k, entries := Sentinel(image.rows), Listing(image);
    if i == k {
      hide Eval, Exec;
      assert entries[i..] == [];
      assert Frame(name, data, p)["p" := Cursor(i)] == Frame(name, data, Cursor(i));
      Stop(image, name, data, i);
    } else {
      hide Loop, Listing, Sentinel, Walkable;
      LoopTurn(image, i, name, data, p);
      Walk(image, i + 1, name, data, Cursor(i));
      assert entries[i..][0] == entries[i] && entries[i..][1..] == entries[i + 1..];
    }
  }

  lemma {:induction false} Stop(image: Image, name: string, data: string, i: nat)
    requires image.shape == PH.SHAPE && i < |image.rows| && image.rows[i].first.Null?
    ensures Eval(WALK.condition, image, Frame(name, data, Cursor(i))) == Ok(Truth(false))
  {
    var locals := Frame(name, data, Cursor(i));
    assert Eval(Member("p", "name"), image, locals) == Ok(Address(Null));
    assert Eval(Id("NULL"), image, locals) == Ok(Address(Null));
  }

  /** Running the function of a generated header ends with the answer of the search, for every name and string. */
  lemma {:induction false} CallIsLookup(image: Image)
    requires image.shape == PH.SHAPE && image.lookup == LOOKUP && Walkable(image)
    ensures Searches(image)
  {
    hide Walkable, Listing, Lookup;
    forall name, data ensures Call(image, name, data) == Answered(Lookup(Listing(image), name, data)) {
      Answers(image, name, data);
    }
  }

  lemma {:induction false} Answers(image: Image, name: string, data: string)
    requires image.shape == PH.SHAPE && image.lookup == LOOKUP && Walkable(image)
    ensures Call(image, name, data) == Answered(Lookup(Listing(image), name, data))
  {
    var start: Locals, entries := map["name" := Chars(name), "data" := Chars(data)], Listing(image);
    var frame := Frame(name, data, Unset);
    Walk(image, 0, name, data, Unset);
    assert entries[0..] == entries;
    hide Listing, Lookup, Loop;
    assert start["p" := Unset] == frame;
    assert Exec(BODY.first, image, "name", start) == Next(frame);
    assert Eval(Id("embedded_files"), image, frame) == Ok(Cursor(0));
    assert Exec(WALK, image, "name", frame) == Loop(WALK, image, "name", 0, frame);
    LookupKeeps(entries, name, data);
    var a, r := Lookup(entries, name, data), Exec(WALK, image, "name", frame);
    assert !a.found ==> Exec(BODY.rest.rest, image, "name", r.locals) == Returned(Truth(false), r.locals);
    assert Exec(BODY.rest, image, "name", frame) ==
           if a.found then r else Exec(BODY.rest.rest, image, "name", r.locals);
  }

  lemma {:induction false} LookupKeeps(entries: seq<Entry>, name: string, data: string)
    ensures !Lookup(entries, name, data).found ==> Lookup(entries, name, data).data == data
  {
  }
}
