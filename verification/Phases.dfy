/**
 Phases 1 and 2 over a generated header: everything but the raw names is left alone,
 and a name is transformed on its own. Neither phase ever lengthens a text.
 */
module Phases {
  import opened Formatting
  import opened Lexer
  import opened Header
  import Reading
  import RH = ReadingHeader
  import Reader

  // ---------------------------------------------------------------- phases and concatenation

  predicate IsTame(c: char) {
    c != '?' && c != '\\'
  }

  predicate Tame(s: string) {
    forall i | 0 <= i < |s| :: IsTame(s[i])
  }

  predicate InertAt(s: string, i: nat)
    requires i < |s|
  {
    s[i] != '?' && (s[i] == '\\' ==> i + 1 < |s| && s[i + 1] != '\n')
  }

  /** No question mark, and no backslash before a newline or at the end. */
  predicate Inert(s: string) {
    forall i: nat | i < |s| :: InertAt(s, i)
  }

  lemma {:induction false} InertConcat(a: string, b: string)
    requires Inert(a) && Inert(b)
    ensures Inert(a + b)
  {
    forall i: nat | i < |a + b| ensures InertAt(a + b, i) {
      if i < |a| { assert InertAt(a, i); } else { assert InertAt(b, i - |a|); }
    }
  }

  lemma {:induction false} InertTail(a: string)
    requires a != "" && Inert(a)
    ensures Inert(a[1..])
  {
    forall i: nat | i < |a[1..]| ensures InertAt(a[1..], i) {
      assert InertAt(a, i + 1);
    }
  }

  lemma {:induction false} TrigraphsInert(a: string, b: string)
    requires Inert(a)
    ensures Trigraphs(a + b) == a + Trigraphs(b)
    decreases a
  {
    if a == "" {
      assert a + b == b;
    } else {
      assert InertAt(a, 0);
      assert (a + b)[1..] == a[1..] + b;
      InertTail(a);
      TrigraphsInert(a[1..], b);
    }
  }

  lemma {:induction false} SpliceInert(a: string, b: string)
    requires Inert(a)
    ensures Splice(a + b) == a + Splice(b)
    decreases a
  {
    if a == "" {
      assert a + b == b;
    } else {
      assert InertAt(a, 0);
      assert (a + b)[1..] == a[1..] + b;
      InertTail(a);
      SpliceInert(a[1..], b);
    }
  }

  lemma {:induction false} PrepareInert(a: string, b: string)
    requires Inert(a)
    ensures Prepare(a + b) == a + Prepare(b)
  {
    TrigraphsInert(a, b);
    SpliceInert(a, Trigraphs(b));
  }

  /** A quote takes part in no trigraph. */
  lemma {:induction false} NoTrigraphOverQuote(a: string, b: string)
    requires a != "" && b != "" && b[0] == '"'
    ensures TrigraphAt(a + b, 0) <==> TrigraphAt(a, 0)
  {
    assert (a + b)[|a|] == '"';
  }

  lemma {:induction false} TrigraphsQuote(a: string, b: string)
    requires b != "" && b[0] == '"'
    ensures Trigraphs(a + b) == Trigraphs(a) + Trigraphs(b)
    decreases |a|
  {
    if a == "" {
      assert a + b == b;
    } else {
      NoTrigraphOverQuote(a, b);
      hide TrigraphAt;
      if TrigraphAt(a, 0) {
        assert |a| >= 3 by { TrigraphIsThree(a); }
        assert (a + b)[3..] == a[3..] + b;
        TrigraphsQuote(a[3..], b);
      } else {
        assert (a + b)[1..] == a[1..] + b;
        TrigraphsQuote(a[1..], b);
      }
    }
  }

  lemma {:induction false} TrigraphIsThree(a: string)
    requires TrigraphAt(a, 0)
    ensures |a| >= 3
  {
  }

  lemma {:induction false} SpliceQuote(a: string, b: string)
    requires b != "" && b[0] == '"'
    ensures Splice(a + b) == Splice(a) + Splice(b)
    decreases |a|
  {
    if a == "" {
      assert a + b == b;
    } else if |a| > 1 && a[0] == '\\' && a[1] == '\n' {
      assert (a + b)[2..] == a[2..] + b;
      SpliceQuote(a[2..], b);
    } else {
      assert |a| == 1 ==> (a + b)[1] == '"';
      assert (a + b)[1..] == a[1..] + b;
      SpliceQuote(a[1..], b);
      assert [a[0]] + (Splice(a[1..]) + Splice(b)) == [a[0]] + Splice(a[1..]) + Splice(b);
    }
  }

  lemma {:induction false} PrepareQuote(name: string, b: string)
    ensures Prepare(name + "\"" + b) == Prepare(name) + "\"" + Prepare(b)
  {
    hide Trigraphs, Splice;
    assert name + "\"" + b == name + ("\"" + b);
    TrigraphsQuote(name, "\"" + b);
    TrigraphsInert("\"", b);
    SpliceQuote(Trigraphs(name), "\"" + Trigraphs(b));
    SpliceInert("\"", Trigraphs(b));
  }

  // ---------------------------------------------------------------- phases shorten

  lemma {:induction false} TrigraphsLength(s: string)
    ensures |Trigraphs(s)| <= |s|
    ensures |Trigraphs(s)| == |s| <==> forall i: nat | i < |s| :: !TrigraphAt(s, i)
    ensures |Trigraphs(s)| == |s| ==> Trigraphs(s) == s
    decreases |s|
  {
    if s != "" {
      if TrigraphAt(s, 0) {
        TrigraphsLength(s[3..]);
      } else {
        TrigraphsLength(s[1..]);
        assert forall i: nat | i < |s| - 1 :: TrigraphAt(s[1..], i) == TrigraphAt(s, i + 1);
        assert forall i: nat | 0 < i < |s| :: TrigraphAt(s, i) == TrigraphAt(s[1..], i - 1);
      }
    }
  }

  lemma {:induction false} SpliceLength(s: string)
    ensures |Splice(s)| <= |s|
    ensures |Splice(s)| == |s| ==> Splice(s) == s
    ensures '\n' !in s ==> Splice(s) == s
    decreases |s|
  {
    if s != "" {
      if |s| > 1 && s[0] == '\\' && s[1] == '\n' {
        SpliceLength(s[2..]);
      } else {
        SpliceLength(s[1..]);
      }
    }
  }

  lemma {:induction false} PrepareLength(s: string)
    ensures |Prepare(s)| <= |s|
    ensures |Prepare(s)| == |s| ==> Prepare(s) == s && forall i: nat | i < |s| :: !TrigraphAt(s, i)
  {
    TrigraphsLength(s);
    SpliceLength(Trigraphs(s));
  }

  // ---------------------------------------------------------------- the parts of a header

  lemma {:induction false} TameIsInert(s: string)
    requires Tame(s)
    ensures Inert(s)
  {
    forall i: nat | i < |s| ensures InertAt(s, i) {
      assert IsTame(s[i]);
    }
  }

  lemma {:induction false} MildIsInert(s: string)
    requires Reading.IsMildText(s)
    ensures Inert(s)
  {
    forall i: nat | i < |s| ensures InertAt(s, i) {
      assert Reading.IsMild(s[i]);
    }
  }

  lemma {:induction false} VariablesAreInert(i: nat)
    ensures Inert(NameVariable(i)) && Inert(DataVariable(i))
  {
    RH.VariablesAreWords(i);
    WordIsInert(NameVariable(i));
    WordIsInert(DataVariable(i));
  }

  lemma {:induction false} WordIsInert(w: string)
    requires Reading.IsWord(w)
    ensures Inert(w)
  {
    forall i: nat | i < |w| ensures InertAt(w, i) {
      assert IsWordChar(w[i]);
    }
  }

  lemma {:induction false} DefineIsInert(x: string)
    requires Inert(x)
    ensures Inert(Define(x))
  {
    TameIsInert(STRING_VARIABLE);
    TameIsInert(" = ");
    InertConcat(x, " = ");
    InertConcat(STRING_VARIABLE, x + " = ");
  }

  lemma {:induction false} EscapesAreInert(chunk: Bytes)
    ensures Inert(Escapes(chunk))
    decreases |chunk|
  {
    if chunk != "" {
      var n := |chunk| - 1;
      var before, hex := Escapes(chunk[..n]), HexByte(chunk[n]);
      EscapesAreInert(chunk[..n]);
      assert Inert("\\x");
      InertConcat(before, "\\x");
      TameIsInert(hex);
      InertConcat(before + "\\x", hex);
    }
  }

  lemma {:induction false} LinesAreInert(chunks: seq<Bytes>)
    ensures Inert(Lines(chunks))
    decreases |chunks|
  {
    if chunks != [] {
      var n := |chunks| - 1;
      LinesAreInert(chunks[..n]);
      EscapesAreInert(chunks[n]);
      TameIsInert("\n  \"");
      TameIsInert("\"");
      InertConcat("\n  \"", Escapes(chunks[n]));
      InertConcat("\n  \"" + Escapes(chunks[n]), "\"");
      InertConcat(Lines(chunks[..n]), Quoted(chunks[n]));
    }
  }

  lemma {:induction false} DataBlockIsInert(contents: Bytes)
    ensures Inert(DataBlock(contents))
  {
    TameIsInert("\"");
    LinesAreInert(Chunks(contents));
  }

  lemma {:induction false} DataDeclIsInert(i: nat, contents: Bytes)
    ensures Inert(DataDecl(i, contents))
  {
    hide DataBlock, Define, Decimal;
    var x, block, count := DataVariable(i), DataBlock(contents), Decimal(|contents|);
    VariablesAreInert(i);
    DefineIsInert(x);
    DataBlockIsInert(contents);
    forall k: nat | k < |count| ensures InertAt(count, k) {
      assert '0' <= count[k] <= '9';
    }
    TameIsInert("std::string(");
    TameIsInert(",\n  ");
    TameIsInert(")");
    TameIsInert(";\n\n");
    hide Inert;
    InertConcat(Define(x), "std::string(");
    InertConcat(Define(x) + "std::string(", block);
    InertConcat(Define(x) + "std::string(" + block, ",\n  ");
    InertConcat(count, ")");
    InertConcat(Define(x) + "std::string(" + block + ",\n  ", count + ")");
    InertConcat(Define(x) + "std::string(" + block + ",\n  " + (count + ")"), ";\n\n");
  }

  lemma {:induction false} TableRowsAreInert(n: nat)
    ensures Inert(TableRows(n))
  {
    if n > 0 {
      var x, y := NameVariable(n), DataVariable(n);
      TableRowsAreInert(n - 1);
      VariablesAreInert(n);
      TameIsInert("  {&");
      TameIsInert(", &");
      TameIsInert("},\n");
      hide Inert, NameVariable, DataVariable;
      InertConcat(x, ", &");
      InertConcat("  {&", x + ", &");
      InertConcat(y, "},\n");
      InertConcat("  {&" + (x + ", &"), y + "},\n");
      InertConcat(TableRows(n - 1), TableRow(n));
    }
  }

  lemma {:induction false} TableTextIsInert(n: nat)
    ensures Inert(Reader.TableText(n) + (ENDIF + "\n"))
  {
    hide TableRows, Inert, TABLE_BODY, CODE;
    RH.TableBodyIsMild();
    RH.CodeIsMild();
    MildIsInert(TABLE_BODY);
    MildIsInert(CODE);
    FixedTextIsInert();
    GuardIsInert();
    InertConcat("static const " + "struct ", TABLE_BODY);
    TableRowsAreInert(n);
    InertConcat(TABLE_HEAD, TableRows(n));
    InertConcat(TABLE_HEAD + TableRows(n), TABLE_END);
    InertConcat(CODE, "\n");
    InertConcat(TABLE_HEAD + TableRows(n) + TABLE_END, CODE + "\n");
    InertConcat(Reader.TableText(n), ENDIF + "\n");
  }

  lemma {:induction false} FixedTextIsInert()
    ensures Inert("static const " + "struct ") && Inert(TABLE_END) && Inert("\n")
  {
    TameIsInert("static const " + "struct ");
    TameIsInert(TABLE_END);
    TameIsInert("\n");
  }

  lemma {:induction false} GuardIsInert()
    ensures Inert(ENDIF + "\n") && Inert(PREAMBLE)
  {
    var a, b, c := "#ifndef " + GUARD, "#define " + GUARD, "#include <string>" + "\n";
    TameIsInert(a);
    TameIsInert(b);
    TameIsInert(c);
    TameIsInert("\n");
    TameIsInert(ENDIF + "\n");
    hide Inert, GUARD;
    InertConcat(a, "\n");
    InertConcat(b, "\n");
    InertConcat(a + "\n", b + "\n");
    InertConcat(a + "\n" + (b + "\n"), "\n");
    InertConcat(a + "\n" + (b + "\n") + "\n", c);
    InertConcat(a + "\n" + (b + "\n") + "\n" + c, "\n");
  }

  // ---------------------------------------------------------------- the whole header

  function PrepareFile(file: File): File {
    file.(name := Prepare(file.name))
  }

  function PrepareFiles(files: seq<File>): (r: seq<File>)
    ensures |r| == |files| && forall i | 0 <= i < |files| :: r[i] == PrepareFile(files[i])
  {
    seq(|files|, i requires 0 <= i < |files| => PrepareFile(files[i]))
  }

  lemma {:induction false} PrepareNameDecl(i: nat, name: string, rest: string)
    ensures Prepare(NameDecl(i, name) + rest) == NameDecl(i, Prepare(name)) + Prepare(rest)
  {
    hide Prepare, Define, Inert;
    var x := NameVariable(i);
    VariablesAreInert(i);
    DefineIsInert(x);
    TameIsInert("\"");
    TameIsInert(";\n");
    assert NameDecl(i, name) + rest == Define(x) + ("\"" + (name + "\"" + (";\n" + rest)));
    PrepareInert(Define(x), "\"" + (name + "\"" + (";\n" + rest)));
    PrepareInert("\"", name + "\"" + (";\n" + rest));
    PrepareQuote(name, ";\n" + rest);
    PrepareInert(";\n", rest);
    assert Define(x) + ("\"" + (Prepare(name) + "\"" + (";\n" + Prepare(rest)))) ==
           NameDecl(i, Prepare(name)) + Prepare(rest);
  }

  lemma {:induction false} PrepareDeclarations(files: seq<File>, rest: string)
    ensures Prepare(Declarations(files) + rest) == Declarations(PrepareFiles(files)) + Prepare(rest)
    decreases |files|
  {
    hide Prepare, NameDecl, DataDecl, Inert;
    if files == [] {
      assert Declarations(files) + rest == rest;
    } else {
      var n := |files|;
      var front, file := files[..n - 1], files[n - 1];
      var name, data := NameDecl(n, file.name), DataDecl(n, file.contents);
      assert Declarations(files) + rest == Declarations(front) + (name + (data + rest));
      PrepareDeclarations(front, name + (data + rest));
      PrepareNameDecl(n, file.name, data + rest);
      DataDeclIsInert(n, file.contents);
      PrepareInert(data, rest);
      assert PrepareFiles(files)[..n - 1] == PrepareFiles(front);
    }
  }

  /** Preparing the header of some files gives the header of the same files under prepared names. */
  lemma {:induction false} PrepareHeader(files: seq<File>)
    ensures Prepare(HeaderText(files)) == HeaderText(PrepareFiles(files))
  {
    hide Prepare, Declarations, PREAMBLE, TABLE_HEAD, TableRows, TABLE_END, CODE, ENDIF, Inert;
    var n := |files|;
    var rest := Reader.TableText(n) + (ENDIF + "\n");
    assert forall fs: seq<File> | |fs| == n :: HeaderText(fs) == PREAMBLE + (Declarations(fs) + rest);
    GuardIsInert();
    PrepareInert(PREAMBLE, Declarations(files) + rest);
    PrepareDeclarations(files, rest);
    TableTextIsInert(n);
    assert rest + "" == rest;
    PrepareInert(rest, "");
    PrepareEmpty();
  }

  lemma {:induction false} PrepareEmpty()
    ensures Prepare("") == ""
  {
  }
}
