/** The tokens of every part of a generated header whose names hold no special character. */
module ReadingHeader {
  import opened Lexer
  import opened Formatting
  import opened Reading
  import H = Header

  // ---------------------------------------------------------------- literals

  /** What a name may not hold if it is to be printed raw between quotes. */
  predicate IsPlain(c: char) {
    c != '"' && c != '\\' && c != '\n'
  }

  predicate Plain(s: string) {
    forall i | 0 <= i < |s| :: IsPlain(s[i])
  }

  lemma {:induction false} LexPlain(text: string, ts: seq<Token>, s: string)
    requires Plain(s)
    ensures Run(Lexing(Lit(text), ts), s) == Lexing(Lit(text + s), ts)
    decreases s
  {
    if s == "" {
      assert text + s == text;
    } else {
      assert IsPlain(s[0]);
      LexPlain(text + [s[0]], ts, s[1..]);
      assert text + [s[0]] + s[1..] == text + s;
    }
  }

  /** After the printed bytes of a chunk the last escape is still open, and it has two digits. */
  lemma {:induction false} LexEscapes(ts: seq<Token>, chunk: Bytes)
    requires chunk != ""
    ensures Run(Lexing(Lit(""), ts), H.Escapes(chunk)) ==
            Lexing(Hex(chunk[..|chunk| - 1], 2, chunk[|chunk| - 1] as int), ts)
    decreases |chunk|
  {
    var start := Lexing(Lit(""), ts);
    var n := |chunk| - 1;
    var before, c := chunk[..n], chunk[n];
    assert IsByte(c);
    RunConcat(start, H.Escapes(before) + "\\x", HexByte(c));
    RunConcat(start, H.Escapes(before), "\\x");
    var open := Run(start, H.Escapes(before));
    assert Run(open, "\\x") == Lexing(Hex(before, 0, 0), ts) by {
      if before != "" {
        LexEscapes(ts, before);
        assert before[..n - 1] + [before[n - 1]] == before;
      }
      LexBackslashX(open, before, ts);
    }
    LexHexByte(before, ts, c);
  }

  lemma {:induction false} LexBackslashX(open: State, text: string, ts: seq<Token>)
    requires open.Lexing? && open.tokens == ts
    requires || open.mode == Lit(text)
             || (open.mode.Hex? && open.mode.count == 2 && open.mode.value < 256
                 && open.mode.text + [open.mode.value as char] == text)
    ensures Run(open, "\\x") == Lexing(Hex(text, 0, 0), ts)
  {
    assert "\\x"[1..] == "x" && "x"[1..] == "";
    assert Step(open, '\\') == Lexing(Escape(text), ts);
  }

  lemma {:induction false} LexHexByte(text: string, ts: seq<Token>, c: char)
    requires IsByte(c)
    ensures Run(Lexing(Hex(text, 0, 0), ts), HexByte(c)) == Lexing(Hex(text, 2, c as int), ts)
  {
    var s := HexByte(c);
    var start := Lexing(Hex(text, 0, 0), ts);
    assert HexValue(s[0]) == c as int / 16 && HexValue(s[1]) == c as int % 16;
    assert Step(start, s[0]) == Lexing(Hex(text, 1, c as int / 16), ts);
    assert Step(Step(start, s[0]), s[1]) == Lexing(Hex(text, 2, c as int), ts);
    RunTwo(start, s);
  }

  lemma {:induction false} ReadsQuoted(chunk: Bytes)
    requires chunk != ""
    ensures Reads(H.Quoted(chunk), [Str(chunk)])
  {
    forall lineStart, ts
      ensures Lands(Lexing(Gap(lineStart), ts), H.Quoted(chunk), ts + [Str(chunk)])
    {
      LandsQuoted(lineStart, ts, chunk);
    }
  }

  lemma {:induction false} LandsQuoted(lineStart: bool, ts: seq<Token>, chunk: Bytes)
    requires chunk != ""
    ensures Lands(Lexing(Gap(lineStart), ts), H.Quoted(chunk), ts + [Str(chunk)])
  {
    var st := Lexing(Gap(lineStart), ts);
    var n := |chunk| - 1;
    RunConcat(st, "\n  \"" + H.Escapes(chunk), "\"");
    RunConcat(st, "\n  \"", H.Escapes(chunk));
    assert Run(st, "\n  \"") == Lexing(Lit(""), ts) by {
      RunConcat(st, "\n  ", "\"");
      assert "\n  " + "\"" == "\n  \"";
      LandsGap(lineStart, ts, "\n  ");
      assert GapTokens("\n  ") == [];
      assert "\""[1..] == "";
    }
    LexEscapes(ts, chunk);
    assert IsByte(chunk[n]);
    assert chunk[..n] + [chunk[n]] == chunk;
    assert "\""[1..] == "";
  }

  // ---------------------------------------------------------------- declarations

  function Strs(chunks: seq<Bytes>): seq<Token> {
    if chunks == [] then [] else Strs(chunks[..|chunks| - 1]) + [Str(chunks[|chunks| - 1])]
  }

  lemma {:induction false} ReadsLines(chunks: seq<Bytes>)
    requires forall i | 0 <= i < |chunks| :: chunks[i] != ""
    ensures Reads(H.Lines(chunks), Strs(chunks))
    decreases |chunks|
  {
    hide Reads;
    if chunks == [] {
      ReadsNothing();
    } else {
      var n := |chunks| - 1;
      ReadsLines(chunks[..n]);
      ReadsQuoted(chunks[n]);
      ReadsConcat(H.Lines(chunks[..n]), Strs(chunks[..n]), H.Quoted(chunks[n]), [Str(chunks[n])]);
    }
  }

  const STATIC_STRING := [Ident("static"), Ident("const")] + STD_STRING

  lemma {:induction false} ReadsStaticConst()
    ensures Reads("static const ", [Ident("static"), Ident("const")])
  {
    hide Reads, IsWord, IsMark;
    Words();
    Blanks();
    ReadsNothing();
    var a, t := Extend("", [], "static", " ", []);
    a, t := Extend(a, t, "const", " ", []);
    assert a == "static const " && t == [Ident("static"), Ident("const")];
  }

  lemma {:induction false} ReadsStdString()
    ensures Reads("std::string ", STD_STRING)
    ensures Reads("std::string(", STD_STRING + [Punct('(')])
  {
    hide Reads, IsWord, IsMark;
    Words();
    Blanks();
    Marks();
    Separators();
    ReadsNothing();
    var a, t := Extend("", [], "std", "::", [Punct(':'), Punct(':')]);
    var b, tb := Extend(a, t, "string", " ", []);
    var c, tc := Extend(a, t, "string", "(", [Punct('(')]);
    assert b == "std::string " && tb == STD_STRING;
    assert c == "std::string(" && tc == STD_STRING + [Punct('(')];
  }

  lemma {:induction false} ReadsStringVariable()
    ensures Reads(H.STRING_VARIABLE, STATIC_STRING)
  {
    hide Reads;
    ReadsStaticConst();
    ReadsStdString();
    ReadsConcat("static const ", [Ident("static"), Ident("const")], "std::string ", STD_STRING);
  }

  lemma {:induction false} VariablesAreWords(i: nat)
    ensures IsWord(H.NameVariable(i)) && IsWord(H.DataVariable(i))
  {
    assert IsWord("translation_file_name_");
    assert IsWord("translation_file_data_");
  }

  function DefineTokens(variable: string): seq<Token> {
    STATIC_STRING + [Ident(variable), Punct('=')]
  }

  function DataTokens(i: nat, contents: Bytes): seq<Token> {
    DefineTokens(H.DataVariable(i)) + (STD_STRING + [Punct('(')]) + Strs(H.Chunks(contents)) +
    [Punct(',')] + [Num(|contents|), Punct(')')] + [Punct(';')]
  }

  lemma {:induction false} ReadsDefine(x: string)
    requires IsWord(x)
    ensures Reads(H.Define(x), DefineTokens(x))
  {
    hide Reads;
    ReadsStringVariable();
    assert GapTokens(" = ") == [Punct('=')];
    ReadsWordAs(x + " = ", x, " = ", [Ident(x), Punct('=')]);
    ReadsConcat(H.STRING_VARIABLE, STATIC_STRING, x + " = ", [Ident(x), Punct('=')]);
  }

  lemma {:induction false} ChunksNonEmpty(contents: Bytes)
    ensures forall i | 0 <= i < |H.Chunks(contents)| :: H.Chunks(contents)[i] != ""
    decreases |contents|
  {
    if |contents| > H.LINE { ChunksNonEmpty(contents[H.LINE..]); }
  }

  lemma {:induction false} ReadsMarks()
    ensures Reads(",\n  ", [Punct(',')]) && Reads(";\n\n", [Punct(';')]) && Reads(";\n", [Punct(';')])
  {
    hide Reads;
    ReadsGapAs(",\n  ", [Punct(',')]);
    ReadsGapAs(";\n\n", [Punct(';')]);
    ReadsGapAs(";\n", [Punct(';')]);
  }

  lemma {:induction false} ReadsDataDecl(i: nat, contents: Bytes)
    requires contents != ""
    ensures Reads(H.DataDecl(i, contents), DataTokens(i, contents))
  {
    hide Reads, H.Lines, H.Chunks, Strs, Decimal, H.DataVariable, IsWord, GapTokens, IsGap, H.Define, DefineTokens;
    var x, lines, strs := H.DataVariable(i), H.Lines(H.Chunks(contents)), Strs(H.Chunks(contents));
    VariablesAreWords(i);
    ReadsDefine(x);
    ReadsStdString();
    ChunksNonEmpty(contents);
    ReadsLines(H.Chunks(contents));
    ReadsNumber(|contents|, ')');
    ReadsMarks();
    var call := STD_STRING + [Punct('(')];
    ReadsConcat(H.Define(x), DefineTokens(x), "std::string(", call);
    var t, k := H.Define(x) + "std::string(" + lines, DefineTokens(x) + call + strs;
    ReadsConcat(H.Define(x) + "std::string(", DefineTokens(x) + call, lines, strs);
    ReadsConcat(t, k, ",\n  ", [Punct(',')]);
    ReadsConcat(t + ",\n  ", k + [Punct(',')], Decimal(|contents|) + ")", [Num(|contents|), Punct(')')]);
    ReadsConcat(t + ",\n  " + (Decimal(|contents|) + ")"), k + [Punct(',')] + [Num(|contents|), Punct(')')],
                ";\n\n", [Punct(';')]);
  }

  // ---------------------------------------------------------------- table and function

  function RowTokens(i: nat): seq<Token> {
    [Punct('{'), Punct('&')] + [Ident(H.NameVariable(i)), Punct(','), Punct('&')] +
    [Ident(H.DataVariable(i)), Punct('}'), Punct(',')]
  }

  lemma {:induction false} RowMarks()
    ensures IsMark("  {&", [Punct('{'), Punct('&')]) && IsMark(", &", [Punct(','), Punct('&')])
    ensures IsMark("},\n", [Punct('}'), Punct(',')])
  {
    hide GapTokens;
    MarkTwo(' ', ' ');
    MarkTwo('{', '&');
    MarkThree(',', ' ', '&');
    MarkThree('}', ',', '\n');
    MarkConcat("  ", [], "{&", [Punct('{'), Punct('&')]);
    assert "  " + "{&" == "  {&";
  }

  lemma {:induction false} ReadsRow(i: nat)
    ensures Reads(H.TableRow(i), RowTokens(i))
  {
    hide Reads, H.NameVariable, H.DataVariable, IsWord, IsMark;
    var x, y := H.NameVariable(i), H.DataVariable(i);
    VariablesAreWords(i);
    RowMarks();
    ReadsMark("  {&", [Punct('{'), Punct('&')]);
    var a, t := Extend("  {&", [Punct('{'), Punct('&')], x, ", &", [Punct(','), Punct('&')]);
    a, t := Extend(a, t, y, "},\n", [Punct('}'), Punct(',')]);
    assert t == RowTokens(i);
  }

  function RowsTokens(n: nat): seq<Token> {
    if n == 0 then [] else RowsTokens(n - 1) + RowTokens(n)
  }

  lemma {:induction false} ReadsRows(n: nat)
    ensures Reads(H.TableRows(n), RowsTokens(n))
  {
    hide Reads, RowTokens, H.TableRow;
    if n == 0 {
      ReadsNothing();
    } else {
      ReadsRows(n - 1);
      ReadsRow(n);
      ReadsConcat(H.TableRows(n - 1), RowsTokens(n - 1), H.TableRow(n), RowTokens(n));
    }
  }

  const LAST_ROW := [Punct('{')] + [Ident("NULL"), Punct(',')] + [Ident("NULL"), Punct('}')] + [Punct('}'), Punct(';')]

  lemma {:induction false} ReadsFirstNull()
    ensures Reads("NULL, ", [Ident("NULL"), Punct(',')])
  {
    hide Reads;
    ReadsWordAs("NULL, ", "NULL", ", ", [Ident("NULL"), Punct(',')]);
  }

  lemma {:induction false} ReadsSecondNull()
    ensures Reads("NULL}\n", [Ident("NULL"), Punct('}')])
  {
    hide Reads;
    ReadsWordAs("NULL}\n", "NULL", "}\n", [Ident("NULL"), Punct('}')]);
  }

  lemma {:induction false} ReadsTableEnd()
    ensures Reads(H.TABLE_END, LAST_ROW)
  {
    hide Reads;
    ReadsGapAs("  {", [Punct('{')]);
    ReadsFirstNull();
    ReadsSecondNull();
    ReadsGapAs("};\n\n", [Punct('}'), Punct(';')]);
    hide GapTokens, IsGap;
    ReadsConcat("  {", [Punct('{')], "NULL, ", [Ident("NULL"), Punct(',')]);
    ReadsConcat("  {" + "NULL, ", [Punct('{')] + [Ident("NULL"), Punct(',')], "NULL}\n", [Ident("NULL"), Punct('}')]);
    ReadsConcat("  {" + "NULL, " + "NULL}\n", [Punct('{')] + [Ident("NULL"), Punct(',')] + [Ident("NULL"), Punct('}')],
                "};\n\n", [Punct('}'), Punct(';')]);
  }

  // ---------------------------------------------------------------- structure and function

  /** A stretch of blanks and marks, and the tokens it holds. */
  predicate IsMark(g: string, tokens: seq<Token>) {
    IsGap(g) && g != "" && GapTokens(g) == tokens
  }

  lemma {:induction false} ReadsMark(g: string, tokens: seq<Token>)
    requires IsMark(g, tokens)
    ensures Reads(g, tokens)
  {
    ReadsGap(g);
  }

  /** One more word, and what stands behind it. */
  lemma {:induction false} Extend(a: string, ta: seq<Token>, w: string, g: string, tg: seq<Token>)
    returns (b: string, tb: seq<Token>)
    requires Reads(a, ta) && IsWord(w) && IsMark(g, tg)
    ensures b == a + (w + g) && tb == ta + ([Ident(w)] + tg) && Reads(b, tb)
  {
    hide Reads, IsWord;
    b, tb := a + (w + g), ta + ([Ident(w)] + tg);
    ReadsWord(w, g);
    ReadsConcat(a, ta, w + g, [Ident(w)] + tg);
  }

  lemma {:induction false} Words()
    ensures IsWord("static") && IsWord("const") && IsWord("struct") && IsWord("bool") && IsWord("std")
    ensures IsWord("string") && IsWord("name") && IsWord("data") && IsWord("p")
  {
  }

  lemma {:induction false} Names()
    ensures IsWord("embedded_file") && IsWord("embedded_files") && IsWord("find_embedded_file")
  {
  }

  lemma {:induction false} Keywords()
    ensures IsWord("for") && IsWord("if") && IsWord("return") && IsWord("NULL") && IsWord("true") && IsWord("false")
  {
  }

  lemma {:induction false} Blanks()
    ensures IsMark(" ", []) && IsMark("  ", []) && IsMark("    ", []) && IsMark("      ", [])
  {
    MarkConcat("  ", [], "  ", []);
    MarkConcat("    ", [], "  ", []);
    assert "  " + "  " == "    " && "    " + "  " == "      ";
  }

  lemma {:induction false} MarkConcat(g: string, tg: seq<Token>, h: string, th: seq<Token>)
    requires IsMark(g, tg) && IsMark(h, th)
    ensures IsMark(g + h, tg + th)
  {
    GapTokensConcat(g, h);
  }

  lemma {:induction false} GapTokensConcat(g: string, h: string)
    ensures GapTokens(g + h) == GapTokens(g) + GapTokens(h)
    decreases g
  {
    hide IsPunct;
    if g == "" {
      assert g + h == h && [] + GapTokens(h) == GapTokens(h);
    } else {
      assert (g + h)[1..] == g[1..] + h;
      GapTokensConcat(g[1..], h);
      var first, rest := if IsPunct(g[0]) then [Punct(g[0])] else [], GapTokens(g[1..]);
      assert first + (rest + GapTokens(h)) == first + rest + GapTokens(h);
    }
  }

  function MarkTokens(c: char): seq<Token> {
    if IsPunct(c) then [Punct(c)] else []
  }

  lemma {:induction false} MarkTwo(a: char, b: char)
    requires IsGap([a, b])
    ensures IsMark([a, b], MarkTokens(a) + MarkTokens(b))
  {
    assert [a, b][1..] == [b] && [b][1..] == "";
    assert GapTokens([b]) == MarkTokens(b) + [] == MarkTokens(b);
  }

  lemma {:induction false} MarkThree(a: char, b: char, c: char)
    requires IsGap([a, b, c])
    ensures IsMark([a, b, c], MarkTokens(a) + MarkTokens(b) + MarkTokens(c))
  {
    assert forall i | 0 <= i < 2 :: [b, c][i] == [a, b, c][i + 1];
    MarkTwo(b, c);
    assert [a, b, c][1..] == [b, c];
    assert MarkTokens(a) + (MarkTokens(b) + MarkTokens(c)) == MarkTokens(a) + MarkTokens(b) + MarkTokens(c);
  }

  lemma {:induction false} Marks()
    ensures IsMark("::", [Punct(':'), Punct(':')]) && IsMark(" *", [Punct('*')]) && IsMark(" &", [Punct('&')])
    ensures IsMark(" (", [Punct('(')])
  {
    hide GapTokens;
    MarkTwo(':', ':');
    MarkTwo(' ', '*');
    MarkTwo(' ', '&');
    MarkTwo(' ', '(');
  }

  lemma {:induction false} Separators()
    ensures IsMark(";\n", [Punct(';')]) && IsMark("; ", [Punct(';')]) && IsMark(", ", [Punct(',')])
    ensures IsMark("(", [Punct('(')])
  {
    MarkTwo(';', '\n');
    MarkTwo(';', ' ');
    MarkTwo(',', ' ');
    assert "("[1..] == "";
  }

  lemma {:induction false} Operators()
    ensures IsMark(" = ", [Punct('=')]) && IsMark("->", [Punct('-'), Punct('>')])
  {
    hide GapTokens;
    MarkThree(' ', '=', ' ');
    MarkTwo('-', '>');
  }

  lemma {:induction false} LongOperators()
    ensures IsMark(" = *", [Punct('='), Punct('*')]) && IsMark(" (*", [Punct('('), Punct('*')])
    ensures IsMark(" != ", [Punct('!'), Punct('=')]) && IsMark(" == ", [Punct('='), Punct('=')])
  {
    hide IsMark;
    Operators();
    SingleMarks();
    Marks();
    Separators();
    MarkConcat(" = ", [Punct('=')], "*", [Punct('*')]);
    MarkConcat(" (", [Punct('(')], "*", [Punct('*')]);
    MarkConcat(" !", [Punct('!')], "= ", [Punct('=')]);
    MarkConcat(" =", [Punct('=')], "= ", [Punct('=')]);
    assert " = " + "*" == " = *" && " (" + "*" == " (*" && " !" + "= " == " != " && " =" + "= " == " == ";
    assert [Punct('=')] + [Punct('*')] == [Punct('='), Punct('*')];
    assert [Punct('(')] + [Punct('*')] == [Punct('('), Punct('*')];
    assert [Punct('!')] + [Punct('=')] == [Punct('!'), Punct('=')];
    assert [Punct('=')] + [Punct('=')] == [Punct('='), Punct('=')];
  }

  lemma {:induction false} SingleMarks()
    ensures IsMark("*", [Punct('*')]) && IsMark(" !", [Punct('!')]) && IsMark("= ", [Punct('=')])
    ensures IsMark(" =", [Punct('=')]) && IsMark(")", [Punct(')')])
  {
    MarkTwo(' ', '!');
    MarkTwo('=', ' ');
    MarkTwo(' ', '=');
    assert "*"[1..] == "" && ")"[1..] == "";
  }

  lemma {:induction false} Doubles()
    ensures IsMark("[]", [Punct('['), Punct(']')]) && IsMark("++", [Punct('+'), Punct('+')])
  {
    hide GapTokens;
    MarkTwo('[', ']');
    MarkTwo('+', '+');
  }

  lemma {:induction false} Braces()
    ensures IsMark(" {\n", [Punct('{')]) && IsMark(") {\n", [Punct(')'), Punct('{')]) && IsMark("} ", [Punct('}')])
    ensures IsMark("  }\n", [Punct('}')]) && IsMark("}\n", [Punct('}')])
  {
    hide GapTokens;
    MarkThree(' ', '{', '\n');
    MarkTwo('}', ' ');
    MarkTwo('}', '\n');
    SingleMarks();
    Blanks();
    hide IsMark;
    MarkConcat(")", [Punct(')')], " {\n", [Punct('{')]);
    MarkConcat("  ", [], "}\n", [Punct('}')]);
    assert ")" + " {\n" == ") {\n" && "  " + "}\n" == "  }\n";
    assert [Punct(')')] + [Punct('{')] == [Punct(')'), Punct('{')] && [] + [Punct('}')] == [Punct('}')];
  }

  lemma {:induction false} LongMarks()
    ensures IsMark("[] = {\n", [Punct('['), Punct(']'), Punct('='), Punct('{')])
    ensures IsMark("++) {\n", [Punct('+'), Punct('+'), Punct(')'), Punct('{')])
    ensures IsMark("    }\n", [Punct('}')])
  {
    hide IsMark;
    Braces();
    Blanks();
    Doubles();
    SingleMarks();
    MarkConcat("[]", [Punct('['), Punct(']')], " =", [Punct('=')]);
    MarkConcat("[]" + " =", [Punct('['), Punct(']')] + [Punct('=')], " {\n", [Punct('{')]);
    MarkConcat("++", [Punct('+'), Punct('+')], ") {\n", [Punct(')'), Punct('{')]);
    MarkConcat("  ", [], "  }\n", [Punct('}')]);
    assert "[]" + " =" + " {\n" == "[] = {\n" && "++" + ") {\n" == "++) {\n" && "  " + "  }\n" == "    }\n";
    assert [Punct('['), Punct(']')] + [Punct('=')] + [Punct('{')] == [Punct('['), Punct(']'), Punct('='), Punct('{')];
    assert [Punct('+'), Punct('+')] + [Punct(')'), Punct('{')] == [Punct('+'), Punct('+'), Punct(')'), Punct('{')];
    assert [] + [Punct('}')] == [Punct('}')];
  }

  function MemberTokens(field: string): seq<Token> {
    [Ident("const")] + (STD_STRING + [Punct('*')]) + [Ident(field), Punct(';')]
  }

  lemma {:induction false} ReadsMember(field: string)
    requires IsWord(field)
    ensures Reads("  const std::string *" + (field + ";\n"), MemberTokens(field))
  {
    hide Reads, IsWord, IsMark;
    Words();
    Blanks();
    Marks();
    Separators();
    ReadsMark("  ", []);
    var a, t := Extend("  ", [], "const", " ", []);
    a, t := Extend(a, t, "std", "::", [Punct(':'), Punct(':')]);
    a, t := Extend(a, t, "string", " *", [Punct('*')]);
    assert a == "  const std::string *";
    a, t := Extend(a, t, field, ";\n", [Punct(';')]);
    assert t == MemberTokens(field);
  }

  const STRUCT := [Ident("embedded_file"), Punct('{')]
  const TABLE_NAME := [Punct('}')] + [Ident("embedded_files")] + [Punct('['), Punct(']'), Punct('='), Punct('{')]

  lemma {:induction false} ReadsStruct()
    ensures Reads("embedded_file {\n", STRUCT)
  {
    hide Reads, IsWord, IsMark;
    Names();
    Braces();
    ReadsNothing();
    var a, t := Extend("", [], "embedded_file", " {\n", [Punct('{')]);
    assert a == "embedded_file {\n" && t == STRUCT;
  }

  lemma {:induction false} ReadsTableName()
    ensures Reads("} embedded_files[] = {\n", TABLE_NAME)
  {
    hide Reads, IsWord, IsMark;
    Names();
    Braces();
    LongMarks();
    ReadsMark("} ", [Punct('}')]);
    var more := [Punct('['), Punct(']'), Punct('='), Punct('{')];
    var a, t := Extend("} ", [Punct('}')], "embedded_files", "[] = {\n", more);
    assert a == "} embedded_files[] = {\n" && t == TABLE_NAME;
  }

  const TABLE_BODY := (STRUCT + MemberTokens("name")) + (MemberTokens("data") + TABLE_NAME)
  const TABLE_HEAD := [Ident("static"), Ident("const")] + [Ident("struct")] + TABLE_BODY

  lemma {:induction false} ReadsTableBody()
    ensures Reads(H.TABLE_BODY, TABLE_BODY)
  {
    hide Reads, IsWord, MemberTokens;
    Words();
    ReadsStruct();
    ReadsMember("name");
    ReadsMember("data");
    ReadsTableName();
    assert "  const std::string *" + ("name" + ";\n") == "  const std::string *name;\n";
    assert "  const std::string *" + ("data" + ";\n") == "  const std::string *data;\n";
    ReadsConcat("embedded_file {\n", STRUCT, "  const std::string *name;\n", MemberTokens("name"));
    ReadsConcat("  const std::string *data;\n", MemberTokens("data"), "} embedded_files[] = {\n", TABLE_NAME);
    ReadsConcat("embedded_file {\n" + "  const std::string *name;\n", STRUCT + MemberTokens("name"),
                "  const std::string *data;\n" + "} embedded_files[] = {\n", MemberTokens("data") + TABLE_NAME);
  }

  lemma {:induction false} ReadsTableHead()
    ensures Reads(H.TABLE_HEAD, TABLE_HEAD)
  {
    hide Reads;
    ReadsStaticConst();
    ReadsWordAs("struct ", "struct", " ", [Ident("struct")]);
    hide IsWord, IsGap, GapTokens, MemberTokens;
    ReadsTableBody();
    ReadsConcat("static const ", [Ident("static"), Ident("const")], "struct ", [Ident("struct")]);
    ReadsConcat("static const " + "struct ", [Ident("static"), Ident("const")] + [Ident("struct")],
                H.TABLE_BODY, TABLE_BODY);
  }

  const FUNCTION_NAME := [Ident("static"), Ident("bool"), Ident("find_embedded_file"), Punct('(')]

  const NAME_PARAMETER := [
    Ident("const"), Ident("std"), Punct(':'), Punct(':'), Ident("string"), Punct('&'), Ident("name"), Punct(',')]

  const DATA_PARAMETER := [
    Ident("std"), Punct(':'), Punct(':'), Ident("string"), Punct('&'), Ident("data"), Punct(')'), Punct('{')]

  const CURSOR := [Ident("const"), Ident("struct"), Ident("embedded_file"), Punct('*'), Ident("p"), Punct(';')]

  const LOOP_START := [Ident("for"), Punct('('), Ident("p"), Punct('='), Ident("embedded_files"), Punct(';')]

  const LOOP_GUARD := [
    Ident("p"), Punct('-'), Punct('>'), Ident("name"), Punct('!'), Punct('='), Ident("NULL"), Punct(';'),
    Ident("p"), Punct('+'), Punct('+'), Punct(')'), Punct('{')]

  const COMPARISON := [
    Ident("if"), Punct('('), Punct('*'), Ident("p"), Punct('-'), Punct('>'), Ident("name"),
    Punct('='), Punct('='), Ident("name"), Punct(')'), Punct('{')]

  const ASSIGNMENT := [
    Ident("data"), Punct('='), Punct('*'), Ident("p"), Punct('-'), Punct('>'), Ident("data"), Punct(';')]

  const RETURN_TRUE := [Ident("return"), Ident("true"), Punct(';')]

  const END := [Punct('}'), Punct('}'), Ident("return"), Ident("false"), Punct(';'), Punct('}')]

  lemma {:induction false} ReadsFunctionName()
    ensures Reads("static bool find_embedded_file(", FUNCTION_NAME)
  {
    hide Reads, IsWord, IsMark;
    Words();
    Names();
    Blanks();
    Marks();
    Separators();
    ReadsNothing();
    var a, t := Extend("", [], "static", " ", []);
    a, t := Extend(a, t, "bool", " ", []);
    assert a == "static bool ";
    a, t := Extend(a, t, "find_embedded_file", "(", [Punct('(')]);
    assert a == "static bool find_embedded_file(" && t == FUNCTION_NAME;
  }

  /** `std::string &x`, with what stands behind it. */
  lemma {:induction false} ReadsParameter(x: string, g: string, tg: seq<Token>)
    requires IsWord(x) && IsMark(g, tg)
    ensures Reads("std::string &" + (x + g), STD_STRING + [Punct('&')] + ([Ident(x)] + tg))
  {
    hide Reads, IsWord, IsMark;
    Words();
    Marks();
    Separators();
    ReadsNothing();
    var a, t := Extend("", [], "std", "::", [Punct(':'), Punct(':')]);
    a, t := Extend(a, t, "string", " &", [Punct('&')]);
    assert a == "std::string &" && t == STD_STRING + [Punct('&')];
    a, t := Extend(a, t, x, g, tg);
  }

  lemma {:induction false} ReadsParameters()
    ensures Reads("const std::string &name, ", NAME_PARAMETER)
    ensures Reads("std::string &data) {\n", DATA_PARAMETER)
  {
    hide Reads, IsWord, IsMark;
    Words();
    Blanks();
    Marks();
    Separators();
    Braces();
    ReadsNothing();
    var a, t := Extend("", [], "const", " ", []);
    ReadsParameter("name", ", ", [Punct(',')]);
    ReadsParameter("data", ") {\n", [Punct(')'), Punct('{')]);
    assert "std::string &" + ("data" + ") {\n") == "std::string &data) {\n";
    ReadsConcat(a, t, "std::string &" + ("name" + ", "), STD_STRING + [Punct('&')] + ([Ident("name")] + [Punct(',')]));
    assert a + ("std::string &" + ("name" + ", ")) == "const std::string &name, ";
    assert t + (STD_STRING + [Punct('&')] + ([Ident("name")] + [Punct(',')])) == NAME_PARAMETER;
    assert STD_STRING + [Punct('&')] + ([Ident("data")] + [Punct(')'), Punct('{')]) == DATA_PARAMETER;
  }

  lemma {:induction false} ReadsSignature()
    ensures Reads("static bool find_embedded_file(" + "const std::string &name, " + "std::string &data) {\n",
                  FUNCTION_NAME + NAME_PARAMETER + DATA_PARAMETER)
  {
    hide Reads, FUNCTION_NAME, NAME_PARAMETER, DATA_PARAMETER;
    ReadsFunctionName();
    ReadsParameters();
    var a, b, c := "static bool find_embedded_file(", "const std::string &name, ", "std::string &data) {\n";
    ReadsConcat(a, FUNCTION_NAME, b, NAME_PARAMETER);
    ReadsConcat(a + b, FUNCTION_NAME + NAME_PARAMETER, c, DATA_PARAMETER);
  }

  lemma {:induction false} PointerText()
    ensures "  const struct " + ("embedded_file" + " *") + ("p" + ";\n") == "  const struct embedded_file *p;\n"
  {
  }

  lemma {:induction false} ReadsPointer()
    ensures Reads("  const struct embedded_file *p;\n", CURSOR)
  {
    hide Reads, IsWord, IsMark;
    Words();
    Names();
    Blanks();
    Marks();
    Separators();
    ReadsMark("  ", []);
    var a, t := Extend("  ", [], "const", " ", []);
    a, t := Extend(a, t, "struct", " ", []);
    assert a == "  const struct " && t == [Ident("const"), Ident("struct")];
    a, t := Extend(a, t, "embedded_file", " *", [Punct('*')]);
    a, t := Extend(a, t, "p", ";\n", [Punct(';')]);
    PointerText();
    assert t == CURSOR;
  }

  lemma {:induction false} ReadsLoopStart()
    ensures Reads("  for (p = embedded_files; ", LOOP_START)
  {
    hide Reads, IsWord, IsMark;
    Words();
    Names();
    Keywords();
    Blanks();
    Marks();
    Separators();
    Operators();
    ReadsMark("  ", []);
    var a, t := Extend("  ", [], "for", " (", [Punct('(')]);
    a, t := Extend(a, t, "p", " = ", [Punct('=')]);
    assert a == "  for (p = ";
    a, t := Extend(a, t, "embedded_files", "; ", [Punct(';')]);
    assert a == "  for (p = embedded_files; " && t == LOOP_START;
  }

  lemma {:induction false} ReadsLoopGuard()
    ensures Reads("p->name != NULL; p++) {\n", LOOP_GUARD)
  {
    hide Reads, IsWord, IsMark;
    Words();
    Keywords();
    Marks();
    Separators();
    Operators();
    LongOperators();
    LongMarks();
    ReadsNothing();
    var a, t := Extend("", [], "p", "->", [Punct('-'), Punct('>')]);
    a, t := Extend(a, t, "name", " != ", [Punct('!'), Punct('=')]);
    assert a == "p->name != ";
    a, t := Extend(a, t, "NULL", "; ", [Punct(';')]);
    a, t := Extend(a, t, "p", "++) {\n", [Punct('+'), Punct('+'), Punct(')'), Punct('{')]);
    assert a == "p->name != NULL; p++) {\n" && t == LOOP_GUARD;
  }

  lemma {:induction false} ReadsLoop()
    ensures Reads("  const struct embedded_file *p;\n" + "  for (p = embedded_files; " + "p->name != NULL; p++) {\n",
                  CURSOR + LOOP_START + LOOP_GUARD)
  {
    hide Reads, CURSOR, LOOP_START, LOOP_GUARD;
    ReadsPointer();
    ReadsLoopStart();
    ReadsLoopGuard();
    var a, b, c := "  const struct embedded_file *p;\n", "  for (p = embedded_files; ", "p->name != NULL; p++) {\n";
    ReadsConcat(a, CURSOR, b, LOOP_START);
    ReadsConcat(a + b, CURSOR + LOOP_START, c, LOOP_GUARD);
  }

  lemma {:induction false} ReadsComparison()
    ensures Reads("    if (*p->name == name) {\n", COMPARISON)
  {
    hide Reads, IsWord, IsMark;
    Words();
    Keywords();
    Blanks();
    Operators();
    LongOperators();
    Braces();
    ReadsMark("    ", []);
    var a, t := Extend("    ", [], "if", " (*", [Punct('('), Punct('*')]);
    a, t := Extend(a, t, "p", "->", [Punct('-'), Punct('>')]);
    a, t := Extend(a, t, "name", " == ", [Punct('='), Punct('=')]);
    assert a == "    if (*p->name == ";
    a, t := Extend(a, t, "name", ") {\n", [Punct(')'), Punct('{')]);
    assert a == "    if (*p->name == name) {\n" && t == COMPARISON;
  }

  lemma {:induction false} ReadsAssignment()
    ensures Reads("      data = *p->data;\n", ASSIGNMENT)
  {
    hide Reads, IsWord, IsMark;
    Words();
    Blanks();
    Marks();
    Separators();
    Operators();
    LongOperators();
    ReadsMark("      ", []);
    var a, t := Extend("      ", [], "data", " = *", [Punct('='), Punct('*')]);
    a, t := Extend(a, t, "p", "->", [Punct('-'), Punct('>')]);
    a, t := Extend(a, t, "data", ";\n", [Punct(';')]);
    assert a == "      data = *p->data;\n" && t == ASSIGNMENT;
  }

  /** `return`, followed by a word. */
  lemma {:induction false} ReadsReturn(blanks: string, word: string)
    requires IsMark(blanks, []) && IsWord(word)
    ensures Reads(blanks + ("return" + " ") + (word + ";\n"), [Ident("return"), Ident(word), Punct(';')])
  {
    hide Reads, IsWord, IsMark;
    Keywords();
    Blanks();
    Marks();
    Separators();
    ReadsMark(blanks, []);
    var a, t := Extend(blanks, [], "return", " ", []);
    a, t := Extend(a, t, word, ";\n", [Punct(';')]);
    assert t == [Ident("return"), Ident(word), Punct(';')];
  }

  lemma {:induction false} ReadsTest()
    ensures Reads("    if (*p->name == name) {\n" + "      data = *p->data;\n" + "      return true;\n",
                  COMPARISON + ASSIGNMENT + RETURN_TRUE)
  {
    hide Reads, IsWord, IsMark, COMPARISON, ASSIGNMENT;
    var a, b, c := "    if (*p->name == name) {\n", "      data = *p->data;\n", "      return true;\n";
    ReadsComparison();
    ReadsAssignment();
    Blanks();
    Keywords();
    ReadsReturn("      ", "true");
    assert "      " + ("return" + " ") + ("true" + ";\n") == c;
    ReadsConcat(a, COMPARISON, b, ASSIGNMENT);
    ReadsConcat(a + b, COMPARISON + ASSIGNMENT, c, RETURN_TRUE);
  }

  lemma {:induction false} ReadsEnd()
    ensures Reads("    }\n" + "  }\n" + "  return false;\n" + "}\n", END)
  {
    hide Reads, IsWord, IsMark;
    Blanks();
    Braces();
    LongMarks();
    Keywords();
    var close, last := [Punct('}')], [Ident("return"), Ident("false"), Punct(';')];
    ReadsMark("    }\n", close);
    ReadsMark("  }\n", close);
    ReadsMark("}\n", close);
    ReadsReturn("  ", "false");
    assert "  " + ("return" + " ") + ("false" + ";\n") == "  return false;\n";
    ReadsConcat("    }\n", close, "  }\n", close);
    ReadsConcat("    }\n" + "  }\n", close + close, "  return false;\n", last);
    ReadsConcat("    }\n" + "  }\n" + "  return false;\n", close + close + last, "}\n", close);
    assert close + close + last + close == END;
  }

  const CODE := (FUNCTION_NAME + NAME_PARAMETER + DATA_PARAMETER) + (CURSOR + LOOP_START + LOOP_GUARD)
                + (COMPARISON + ASSIGNMENT + RETURN_TRUE) + END

  lemma {:induction false} ReadsCode()
    ensures Reads(H.CODE + "\n", CODE)
  {
    hide Reads;
    var a := "static bool find_embedded_file(" + "const std::string &name, " + "std::string &data) {\n";
    var b := "  const struct embedded_file *p;\n" + "  for (p = embedded_files; " + "p->name != NULL; p++) {\n";
    var c := "    if (*p->name == name) {\n" + "      data = *p->data;\n" + "      return true;\n";
    var d := "    }\n" + "  }\n" + "  return false;\n" + "}\n";
    ReadsSignature();
    ReadsLoop();
    ReadsTest();
    ReadsEnd();
    ReadsGapAs("\n", []);
    hide FUNCTION_NAME, NAME_PARAMETER, DATA_PARAMETER, CURSOR, LOOP_START, LOOP_GUARD, COMPARISON, ASSIGNMENT, END;
    hide RETURN_TRUE;
    var s, l, t := FUNCTION_NAME + NAME_PARAMETER + DATA_PARAMETER, CURSOR + LOOP_START + LOOP_GUARD,
        COMPARISON + ASSIGNMENT + RETURN_TRUE;
    ReadsConcat(a, s, b, l);
    ReadsConcat(a + b, s + l, c, t);
    ReadsConcat(a + b + c, s + l + t, d, END);
    ReadsConcat(H.CODE, CODE, "\n", []);
    assert CODE + [] == CODE;
  }

  // ---------------------------------------------------------------- texts without special characters

  lemma {:induction false} StructIsMild()
    ensures IsMildText("embedded_file {\n")
  {
  }

  lemma {:induction false} NameMemberIsMild()
    ensures IsMildText("  const std::string *name;\n")
  {
  }

  lemma {:induction false} FirstMemberIsMild()
    ensures IsMildText("embedded_file {\n" + "  const std::string *name;\n")
  {
    hide IsMildText;
    StructIsMild();
    NameMemberIsMild();
    MildConcat("embedded_file {\n", "  const std::string *name;\n");
  }

  lemma {:induction false} DataMemberIsMild()
    ensures IsMildText("  const std::string *data;\n")
  {
  }

  lemma {:induction false} ArrayIsMild()
    ensures IsMildText("} embedded_files[] = {\n")
  {
  }

  lemma {:induction false} SecondMemberIsMild()
    ensures IsMildText("  const std::string *data;\n" + "} embedded_files[] = {\n")
  {
    hide IsMildText;
    DataMemberIsMild();
    ArrayIsMild();
    MildConcat("  const std::string *data;\n", "} embedded_files[] = {\n");
  }

  lemma {:induction false} TableBodyIsMild()
    ensures IsMildText(H.TABLE_BODY)
  {
    hide IsMildText;
    var a := "embedded_file {\n" + "  const std::string *name;\n";
    var b := "  const std::string *data;\n" + "} embedded_files[] = {\n";
    FirstMemberIsMild();
    SecondMemberIsMild();
    MildConcat(a, b);
  }

  lemma {:induction false} LookupNameIsMild()
    ensures IsMildText("static bool find_embedded_file(")
  {
  }

  lemma {:induction false} NameParameterIsMild()
    ensures IsMildText("const std::string &name, ")
  {
  }

  lemma {:induction false} DataParameterIsMild()
    ensures IsMildText("std::string &data) {\n")
  {
  }

  lemma {:induction false} SignatureIsMild()
    ensures IsMildText("static bool find_embedded_file(" + "const std::string &name, " + "std::string &data) {\n")
  {
    hide IsMildText;
    LookupNameIsMild();
    NameParameterIsMild();
    DataParameterIsMild();
    MildConcat("static bool find_embedded_file(", "const std::string &name, ");
    MildConcat("static bool find_embedded_file(" + "const std::string &name, ", "std::string &data) {\n");
  }

  lemma {:induction false} PointerIsMild()
    ensures IsMildText("  const struct embedded_file *p;\n")
  {
  }

  lemma {:induction false} LoopStartIsMild()
    ensures IsMildText("  for (p = embedded_files; ")
  {
  }

  lemma {:induction false} LoopGuardIsMild()
    ensures IsMildText("p->name != NULL; p++) {\n")
  {
  }

  lemma {:induction false} LoopIsMild()
    ensures IsMildText("  const struct embedded_file *p;\n" + "  for (p = embedded_files; " +
                       "p->name != NULL; p++) {\n")
  {
    hide IsMildText;
    PointerIsMild();
    LoopStartIsMild();
    LoopGuardIsMild();
    MildConcat("  const struct embedded_file *p;\n", "  for (p = embedded_files; ");
    MildConcat("  const struct embedded_file *p;\n" + "  for (p = embedded_files; ", "p->name != NULL; p++) {\n");
  }

  lemma {:induction false} ComparisonIsMild()
    ensures IsMildText("    if (*p->name == name) {\n")
  {
  }

  lemma {:induction false} AssignmentIsMild()
    ensures IsMildText("      data = *p->data;\n")
  {
  }

  lemma {:induction false} ReturnIsMild()
    ensures IsMildText("      return true;\n")
  {
  }

  lemma {:induction false} TestIsMild()
    ensures IsMildText("    if (*p->name == name) {\n" + "      data = *p->data;\n" + "      return true;\n")
  {
    hide IsMildText;
    ComparisonIsMild();
    AssignmentIsMild();
    ReturnIsMild();
    MildConcat("    if (*p->name == name) {\n", "      data = *p->data;\n");
    MildConcat("    if (*p->name == name) {\n" + "      data = *p->data;\n", "      return true;\n");
  }

  lemma {:induction false} EndIsMild()
    ensures IsMildText("    }\n" + "  }\n" + "  return false;\n" + "}\n")
  {
  }

  lemma {:induction false} CodeIsMild()
    ensures IsMildText(H.CODE)
  {
    hide IsMildText;
    var a := "static bool find_embedded_file(" + "const std::string &name, " + "std::string &data) {\n";
    var b := "  const struct embedded_file *p;\n" + "  for (p = embedded_files; " + "p->name != NULL; p++) {\n";
    var c := "    if (*p->name == name) {\n" + "      data = *p->data;\n" + "      return true;\n";
    var d := "    }\n" + "  }\n" + "  return false;\n" + "}\n";
    SignatureIsMild();
    LoopIsMild();
    TestIsMild();
    EndIsMild();
    MildConcat(a, b);
    MildConcat(a + b, c);
    MildConcat(a + b + c, d);
  }
}
