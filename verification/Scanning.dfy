/**
 The reader over the declarations of a generated header: exactly, when the names hold
 no special character and the files are not empty, and in general.
 */
module Scanning {
  import opened Formatting
  import opened Lexer
  import opened Parser
  import opened Header
  import Reading
  import RH = ReadingHeader
  import PH = ParsingHeader
  import opened RawNames

  // ---------------------------------------------------------------- the include guard

  lemma {:induction false} ScanPreamble()
    ensures Lexer.Run(START, PREAMBLE) == Lexing(Gap(true), PH.PREAMBLE)
    ensures ParseOf(PH.PREAMBLE) == Parsing([], Item)
  {
    hide Lexer.Run, Parser.Run;
    var a, b, c := "#ifndef " + GUARD, "#define " + GUARD, "#include <string>";
    GuardIsOneLine();
    Reading.RunConcat(START, a + "\n" + (b + "\n") + "\n" + (c + "\n"), "\n");
    Reading.RunConcat(START, a + "\n" + (b + "\n") + "\n", c + "\n");
    Reading.RunConcat(START, a + "\n" + (b + "\n"), "\n");
    Reading.RunConcat(START, a + "\n", b + "\n");
    Reading.LexDirective([], a);
    Reading.LexDirective([Directive(a)], b);
    BlankLine([Directive(a), Directive(b)]);
    Reading.LexDirective([Directive(a), Directive(b)], c);
    BlankLine(PH.PREAMBLE);
    assert [] + [Directive(a)] == [Directive(a)];
    assert [Directive(a)] + [Directive(b)] == [Directive(a), Directive(b)];
    assert [Directive(a), Directive(b)] + [Directive(c)] == PH.PREAMBLE;
    PH.ParsePreamble();
  }

  lemma {:induction false} GuardIsOneLine()
    ensures '\n' !in "#ifndef " + GUARD && '\n' !in "#define " + GUARD && '\n' !in "#include <string>"
  {
  }

  lemma {:induction false} BlankLine(ts: seq<Token>)
    ensures Lexer.Run(Lexing(Gap(true), ts), "\n") == Lexing(Gap(true), ts)
  {
    assert "\n"[1..] == "";
  }

  // ---------------------------------------------------------------- one declaration of each kind

  lemma {:induction false} ScanNameDecl(ts: seq<Token>, i: nat, name: string)
    ensures Lexer.Run(Lexing(Gap(true), ts), NameDecl(i, name)) ==
            Lexer.Run(Lexing(Lit(""), ts + RH.DefineTokens(NameVariable(i))), name + "\";\n")
  {
    hide NameVariable, Define, RH.DefineTokens;
    var st, x := Lexing(Gap(true), ts), NameVariable(i);
    var ts' := ts + RH.DefineTokens(x);
    RH.VariablesAreWords(i);
    RH.ReadsDefine(x);
    assert Reading.Lands(st, Define(x), ts');
    assert "\"" + name + "\"" + ";\n" == "\"" + (name + "\";\n");
    Reading.RunConcat(st, Define(x), "\"" + (name + "\";\n"));
    Reading.RunConcat(Lexer.Run(st, Define(x)), "\"", name + "\";\n");
    assert "\""[1..] == "";
  }

  lemma {:induction false} ScanDataDecl(ts: seq<Token>, i: nat, contents: Bytes)
    requires contents != ""
    ensures Lexer.Run(Lexing(Gap(true), ts), DataDecl(i, contents)) ==
            Lexing(Gap(true), ts + RH.DataTokens(i, contents))
  {
    hide Lexer.Run, Define, DataBlock, Decimal, RH.DataTokens;
    var st := Lexing(Gap(true), ts);
    RH.ReadsDataDecl(i, contents);
    assert Reading.Lands(st, DataDecl(i, contents), ts + RH.DataTokens(i, contents));
    var body := Define(DataVariable(i)) + "std::string(" + DataBlock(contents) + ",\n  " + (Decimal(|contents|) + ")");
    assert DataDecl(i, contents) == body + ";\n" + "\n";
    Reading.EndsLine(st, body + ";\n", ts + RH.DataTokens(i, contents));
  }

  /** A literal that the end of the line cuts off. */
  lemma {:induction false} LoneQuote(open: State, rest: string)
    requires open.Lexing? && open.mode.Gap?
    ensures Lexer.Run(open, "\",\n" + rest) == State.Error
  {
    Reading.RunConcat(open, "\",\n", rest);
    RunThree(open, '"', ',', '\n');
    Reading.RunError(rest);
  }

  /** For an empty file a lone quote is printed, and no header with it can be read. */
  lemma {:induction false} ScanEmptyFile(ts: seq<Token>, i: nat)
    ensures Lexer.Run(Lexing(Gap(true), ts), DataDecl(i, "")) == State.Error
  {
    hide Lexer.Run, Reading.Reads, Define, Decimal, RH.DefineTokens, DataVariable;
    var st, x, call := Lexing(Gap(true), ts), DataVariable(i), STD_STRING + [Punct('(')];
    RH.VariablesAreWords(i);
    RH.ReadsDefine(x);
    RH.ReadsStdString();
    Reading.ReadsConcat(Define(x), RH.DefineTokens(x), "std::string(", call);
    var before, rest := Define(x) + "std::string(", "  " + (Decimal(0) + ")") + ";\n\n";
    assert DataDecl(i, "") == before + ("\",\n" + rest);
    Reading.RunConcat(st, before, "\",\n" + rest);
    assert Reading.Lands(st, before, ts + (RH.DefineTokens(x) + call)) by {
      ReadsFrom(true, ts, before, RH.DefineTokens(x) + call);
    }
    LoneQuote(Lexer.Run(st, before), rest);
  }

  lemma {:induction false} ReadsFrom(lineStart: bool, ts: seq<Token>, text: string, tokens: seq<Token>)
    requires Reading.Reads(text, tokens)
    ensures Reading.Lands(Lexing(Gap(lineStart), ts), text, ts + tokens)
  {
  }

  // ---------------------------------------------------------------- all declarations, arbitrary names

  /** Declaration d binds the name variable of file i to that name, or, if it is not plain, to something shorter. */
  predicate BindsName(d: Decl, i: nat, name: string) {
    && d.variable == NameVariable(i) && d.init.Literal?
    && if RH.Plain(name) then d.init.text == name else |d.init.text| < |name|
  }

  predicate RecordsName(ds: seq<Decl>, i: nat, name: string) {
    exists k | 0 <= k < |ds| :: BindsName(ds[k], i, name)
  }

  function DataOf(i: nat, contents: Bytes): Decl {
    Decl(DataVariable(i), Counted(contents, |contents|))
  }

  predicate Records(ds: seq<Decl>, i: nat, file: File) {
    file.contents != "" && RecordsName(ds, i, file.name) && DataOf(i, file.contents) in ds
  }

  predicate RecordsAll(ds: seq<Decl>, files: seq<File>) {
    forall i | 0 <= i < |files| :: Records(ds, i + 1, files[i])
  }

  /** Where the reader can stand after the declarations of some files. */
  predicate Stands(st: State, files: seq<File>) {
    st.Lexing? ==>
      && st.mode == Gap(true)
      && var p := ParseOf(st.tokens);
         p.Failed? || (p.Parsing? && p.at.Item? && RecordsAll(p.decls, files))
  }

  lemma {:induction false} NewlineLands(st: State)
    ensures Lexer.Step(st, '\n').Lexing? ==> Lexer.Step(st, '\n').mode == Gap(true)
  {
  }

  lemma {:induction false} TokensGrow(st: State, s: string)
    requires st.Lexing? && Lexer.Run(st, s).Lexing?
    ensures st.tokens <= Lexer.Run(st, s).tokens
    decreases s
  {
    if s != "" {
      if Lexer.Step(st, s[0]).Error? { Reading.RunError(s[1..]); }
      assert st.tokens <= Lexer.Step(st, s[0]).tokens;
      TokensGrow(Lexer.Step(st, s[0]), s[1..]);
    }
  }

  /** A parse that failed stays failed, whatever text follows. */
  lemma {:induction false} FailureStays(st: State, s: string)
    requires st.Lexing? && ParseOf(st.tokens).Failed? && Lexer.Run(st, s).Lexing?
    ensures ParseOf(Lexer.Run(st, s).tokens).Failed?
  {
    var after := Lexer.Run(st, s).tokens;
    TokensGrow(st, s);
    var more := after[|st.tokens|..];
    assert after == st.tokens + more;
    PH.RunConcat(Opening, st.tokens, more);
    PH.RunFailed(more);
  }

  lemma {:induction false} NameDeclLands(ts: seq<Token>, i: nat, name: string)
    ensures var st := Lexer.Run(Lexing(Gap(true), ts), NameDecl(i, name)); st.Lexing? ==> st.mode == Gap(true)
  {
    hide Lexer.Step, Define;
    var st := Lexing(Gap(true), ts);
    var text := Define(NameVariable(i)) + ("\"" + name + "\"" + ";");
    assert NameDecl(i, name) == text + "\n";
    Reading.RunConcat(st, text, "\n");
    assert "\n"[1..] == "";
    NewlineLands(Lexer.Run(st, text));
  }

  /** The name declaration of file i, met between two declarations. */
  lemma {:induction false} ScanName(ts: seq<Token>, ds: seq<Decl>, i: nat, name: string)
    requires ParseOf(ts) == Parsing(ds, Item)
    ensures Closed(Lexer.Run(Lexing(Gap(true), ts), NameDecl(i, name)), name, ds, NameVariable(i))
    ensures RH.Plain(name) ==>
              var st := Lexer.Run(Lexing(Gap(true), ts), NameDecl(i, name));
              st.Lexing? && ParseOf(st.tokens) == Parsing(ds + [Decl(NameVariable(i), Literal(name))], Item)
  {
    hide Lexer.Run, Parser.Run, NameVariable, RH.DefineTokens, NameDecl, Closed;
    var x := NameVariable(i);
    var ts' := ts + RH.DefineTokens(x);
    ScanNameDecl(ts, i, name);
    PH.RunConcat(Opening, ts, RH.DefineTokens(x));
    PH.ParseDefine(ds, x);
    ReadRawName(name, ts', ds, x);
    if RH.Plain(name) {
      ParseAppend(ts', Str(name));
      ParseAppend(ts' + [Str(name)], Punct(';'));
    }
  }

  lemma {:induction false} ParseDataAfter(ts: seq<Token>, i: nat, contents: Bytes)
    requires contents != ""
    ensures ParseOf(ts).Failed? || (ParseOf(ts).Parsing? && ParseOf(ts).at.Done?) ==>
              ParseOf(ts + RH.DataTokens(i, contents)).Failed?
    ensures ParseOf(ts).Parsing? && ParseOf(ts).at.Item? ==>
              ParseOf(ts + RH.DataTokens(i, contents)) == Parsing(ParseOf(ts).decls + [DataOf(i, contents)], Item)
  {
    hide DataVariable;
    var more := RH.DataTokens(i, contents);
    PH.RunConcat(Opening, ts, more);
    if ParseOf(ts).Parsing? && ParseOf(ts).at.Item? {
      PH.ParseData(ParseOf(ts).decls, i, contents);
    } else if ParseOf(ts).Failed? {
      PH.RunFailed(more);
    } else if ParseOf(ts).Parsing? && ParseOf(ts).at.Done? {
      PH.RunFailed(more[1..]);
    }
  }

  lemma {:induction false} RecordsMore(ds: seq<Decl>, ds': seq<Decl>, files: seq<File>)
    requires RecordsAll(ds, files) && ds <= ds'
    ensures RecordsAll(ds', files)
  {
    forall i | 0 <= i < |files| ensures Records(ds', i + 1, files[i]) {
      assert Records(ds, i + 1, files[i]);
      var k :| 0 <= k < |ds| && BindsName(ds[k], i + 1, files[i].name);
      assert ds'[k] == ds[k];
      var j :| 0 <= j < |ds| && ds[j] == DataOf(i + 1, files[i].contents);
      assert ds'[j] == ds[j];
    }
  }

  lemma {:induction false} RecordsOneMore(ds: seq<Decl>, ds': seq<Decl>, files: seq<File>, file: File)
    requires RecordsAll(ds, files) && |ds| < |ds'| && ds == ds'[..|ds|]
    requires BindsName(ds'[|ds|], |files| + 1, file.name) && file.contents != ""
    ensures RecordsAll(ds' + [DataOf(|files| + 1, file.contents)], files + [file])
  {
    var n, all := |files| + 1, ds' + [DataOf(|files| + 1, file.contents)];
    RecordsMore(ds, all, files);
    assert all[|ds|] == ds'[|ds|];
    assert Records(all, n, file) by {
      assert BindsName(all[|ds|], n, file.name);
      assert all[|ds'|] == DataOf(n, file.contents);
    }
    forall i | 0 <= i < n ensures Records(all, i + 1, (files + [file])[i]) {
      if i < |files| { assert Records(all, i + 1, files[i]); }
    }
  }

  /** From the stand after a name declaration to the stand after the file. */
  lemma {:induction false} StandsAfterData(st: State, ds: seq<Decl>, files: seq<File>, file: File)
    requires Closed(st, file.name, ds, NameVariable(|files| + 1)) && RecordsAll(ds, files)
    ensures Stands(Lexer.Run(st, DataDecl(|files| + 1, file.contents)), files + [file])
  {
    hide Lexer.Run, Parser.Run, ParseOf, NameVariable, DataVariable, RH.DataTokens, RecordsAll, DataDecl, RH.Plain;
    var n, c := |files| + 1, file.contents;
    if st.Error? {
      Reading.RunError(DataDecl(n, c));
    } else if c == "" {
      ScanEmptyFile(st.tokens, n);
    } else {
      ScanDataDecl(st.tokens, n, c);
      ParseDataAfter(st.tokens, n, c);
      var p := ParseOf(st.tokens);
      if p.Parsing? && p.at.Item? {
        RecordsOneMore(ds, p.decls, files, file);
      }
    }
  }

  lemma {:induction false} StandsAfterFile(st: State, files: seq<File>, file: File)
    requires Stands(st, files)
    ensures Stands(Lexer.Run(Lexer.Run(st, NameDecl(|files| + 1, file.name)), DataDecl(|files| + 1, file.contents)),
                   files + [file])
  {
    hide Lexer.Run, Parser.Run, ParseOf, NameVariable, RecordsAll, NameDecl, DataDecl, Closed;
    var n := |files| + 1;
    var mid := Lexer.Run(st, NameDecl(n, file.name));
    if st.Error? {
      Reading.RunError(NameDecl(n, file.name));
      Reading.RunError(DataDecl(n, file.contents));
    } else if ParseOf(st.tokens).Failed? {
      if mid.Lexing? {
        NameDeclLands(st.tokens, n, file.name);
        FailureStays(st, NameDecl(n, file.name));
        if file.contents == "" {
          ScanEmptyFile(mid.tokens, n);
        } else {
          ScanDataDecl(mid.tokens, n, file.contents);
          ParseDataAfter(mid.tokens, n, file.contents);
        }
      } else {
        Reading.RunError(DataDecl(n, file.contents));
      }
    } else {
      var ds := ParseOf(st.tokens).decls;
      ScanName(st.tokens, ds, n, file.name);
      StandsAfterData(mid, ds, files, file);
    }
  }

  function Scan(files: seq<File>): State {
    Lexer.Run(START, PREAMBLE + Declarations(files))
  }

  lemma {:induction false} ScanLast(files: seq<File>)
    requires files != []
    ensures var n := |files|;
            Scan(files) == Lexer.Run(Lexer.Run(Scan(files[..n - 1]), NameDecl(n, files[n - 1].name)),
                                     DataDecl(n, files[n - 1].contents))
  {
    hide Lexer.Run, NameDecl, DataDecl;
    var n := |files|;
    var name, data := NameDecl(n, files[n - 1].name), DataDecl(n, files[n - 1].contents);
    var before := PREAMBLE + Declarations(files[..n - 1]);
    assert PREAMBLE + Declarations(files) == before + name + data;
    Reading.RunConcat(START, before + name, data);
    Reading.RunConcat(START, before, name);
  }

  /** For every list of files, whatever their names and contents. */
  lemma {:induction false} ScanAll(files: seq<File>)
    ensures Stands(Scan(files), files)
    decreases |files|
  {
    hide Lexer.Run, Parser.Run, NameDecl, DataDecl, Records;
    if files == [] {
      assert PREAMBLE + Declarations(files) == PREAMBLE;
      ScanPreamble();
    } else {
      var n := |files|;
      hide Stands, Scan;
      ScanAll(files[..n - 1]);
      ScanLast(files);
      StandsAfterFile(Scan(files[..n - 1]), files[..n - 1], files[n - 1]);
      assert files[..n - 1] + [files[n - 1]] == files;
    }
  }

  // ---------------------------------------------------------------- all declarations, plain names

  predicate Readable(file: File) {
    RH.Plain(file.name) && file.contents != ""
  }

  function DeclsOf(files: seq<File>): seq<Decl> {
    if files == [] then []
    else
      var n := |files|;
      DeclsOf(files[..n - 1]) + [Decl(NameVariable(n), Literal(files[n - 1].name))] + [DataOf(n, files[n - 1].contents)]
  }

  lemma {:induction false} ScanReadable(files: seq<File>)
    requires forall i | 0 <= i < |files| :: Readable(files[i])
    ensures Scan(files).Lexing? && Scan(files).mode == Gap(true)
    ensures ParseOf(Scan(files).tokens) == Parsing(DeclsOf(files), Item)
    decreases |files|
  {
    hide Lexer.Run, Parser.Run, ParseOf, NameDecl, DataDecl, NameVariable, DataVariable, RH.DataTokens;
    if files == [] {
      assert PREAMBLE + Declarations(files) == PREAMBLE;
      ScanPreamble();
    } else {
      var n := |files|;
      var file, st := files[n - 1], Scan(files[..n - 1]);
      hide Scan;
      ScanReadable(files[..n - 1]);
      ScanLast(files);
      assert Readable(file);
      var mid := Lexer.Run(st, NameDecl(n, file.name));
      ScanName(st.tokens, DeclsOf(files[..n - 1]), n, file.name);
      NameDeclLands(st.tokens, n, file.name);
      ScanDataDecl(mid.tokens, n, file.contents);
      ParseDataAfter(mid.tokens, n, file.contents);
    }
  }
}
