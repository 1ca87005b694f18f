/** The reader over the whole of a generated header, after phases 1 and 2. */
module Reader {
  import opened Lexer
  import opened Parser
  import opened Header
  import Reading
  import RH = ReadingHeader
  import PH = ParsingHeader
  import opened RawNames
  import opened Scanning

  function TableTokens(n: nat): seq<Token> {
    RH.TABLE_HEAD + RH.RowsTokens(n) + RH.LAST_ROW + RH.CODE
  }

  function TableText(n: nat): string {
    Header.TABLE_HEAD + TableRows(n) + TABLE_END + (Header.CODE + "\n")
  }

  lemma {:induction false} ReadsTable(n: nat)
    ensures Reading.Reads(TableText(n), TableTokens(n))
  {
    hide Reading.Reads, TableRows, RH.RowsTokens;
    RH.ReadsTableHead();
    RH.ReadsRows(n);
    RH.ReadsTableEnd();
    RH.ReadsCode();
    hide Header.CODE, Header.TABLE_HEAD, RH.TABLE_HEAD, TABLE_END, RH.LAST_ROW, RH.CODE;
    Reading.ReadsConcat(Header.TABLE_HEAD, RH.TABLE_HEAD, TableRows(n), RH.RowsTokens(n));
    Reading.ReadsConcat(Header.TABLE_HEAD + TableRows(n), RH.TABLE_HEAD + RH.RowsTokens(n), TABLE_END, RH.LAST_ROW);
    Reading.ReadsConcat(Header.TABLE_HEAD + TableRows(n) + TABLE_END,
                        RH.TABLE_HEAD + RH.RowsTokens(n) + RH.LAST_ROW, Header.CODE + "\n", RH.CODE);
  }

  lemma {:induction false} ParseTable(decls: seq<Decl>, n: nat)
    ensures Parser.Run(Parsing(decls, Item), TableTokens(n)) ==
            Parsing(decls, Code(PH.SHAPE, PH.RowsOf(n) + [PH.NULL_ROW], RH.CODE))
  {
    hide Parser.Run, RH.RowsTokens, PH.RowsOf, PH.SHAPE, RH.TABLE_HEAD, RH.LAST_ROW, RH.CODE;
    var p := Parsing(decls, Item);
    PH.RunConcat(p, RH.TABLE_HEAD + RH.RowsTokens(n) + RH.LAST_ROW, RH.CODE);
    PH.RunConcat(p, RH.TABLE_HEAD + RH.RowsTokens(n), RH.LAST_ROW);
    PH.RunConcat(p, RH.TABLE_HEAD, RH.RowsTokens(n));
    PH.ParseTableHead(decls);
    PH.ParseRows(decls, PH.SHAPE, n);
    PH.ParseTableEnd(decls, PH.SHAPE, PH.RowsOf(n));
    PH.CodeIsFixed();
    PH.ParseCode(decls, PH.SHAPE, PH.RowsOf(n) + [PH.NULL_ROW], [], RH.CODE);
    assert [] + RH.CODE == RH.CODE;
  }

  /** From the end of the declarations to the end of the header. */
  lemma {:induction false} ScanTable(ts: seq<Token>, n: nat)
    ensures Lexer.Run(Lexing(Gap(true), ts), TableText(n) + (ENDIF + "\n")) ==
            Lexing(Gap(true), ts + TableTokens(n) + [Directive(ENDIF)])
  {
    hide Lexer.Run, TableTokens;
    var st := Lexing(Gap(true), ts);
    ReadsTable(n);
    var text := Header.TABLE_HEAD + TableRows(n) + TABLE_END + Header.CODE;
    assert Reading.Lands(st, TableText(n), ts + TableTokens(n)) by {
      ReadsFrom(true, ts, TableText(n), TableTokens(n));
    }
    hide Header.TABLE_HEAD, Header.CODE, TABLE_END, TableRows;
    assert TableText(n) == text + "\n";
    Reading.EndsLine(st, text, ts + TableTokens(n));
    Reading.RunConcat(st, TableText(n), ENDIF + "\n");
    EndifIsOneLine();
    Reading.LexDirective(ts + TableTokens(n), ENDIF);
  }

  lemma {:induction false} EndifIsOneLine()
    ensures '\n' !in ENDIF
  {
  }

  /** The state of the reader at the end of a header, from its state after the declarations. */
  lemma {:induction false} ReadHeader(files: seq<File>)
    ensures var n, before, end := |files|, Scan(files), Lexer.Run(START, HeaderText(files));
            && (before.Error? ==> end.Error?)
            && (before.Lexing? && before.mode == Gap(true) ==>
                && end == Lexing(Gap(true), before.tokens + TableTokens(n) + [Directive(ENDIF)])
                && var p := ParseOf(before.tokens);
                   && (p.Failed? ==> ParseOf(end.tokens).Failed?)
                   && (p.Parsing? && p.at.Item? ==>
                         ParseOf(end.tokens) ==
                         Parsing(p.decls, Done(PH.SHAPE, PH.RowsOf(n) + [PH.NULL_ROW], RH.CODE))))
  {
    hide Lexer.Run, Parser.Run, TableTokens, PREAMBLE, Declarations, PH.RowsOf;
    hide Header.TABLE_HEAD, Header.CODE, ENDIF, TABLE_END, TableRows, PH.SHAPE, RH.CODE;
    var n, before := |files|, Scan(files);
    var rest := TableText(n) + (ENDIF + "\n");
    assert HeaderText(files) == PREAMBLE + Declarations(files) + rest;
    Reading.RunConcat(START, PREAMBLE + Declarations(files), rest);
    if before.Error? {
      Reading.RunError(rest);
    } else if before.mode == Gap(true) {
      ScanTable(before.tokens, n);
      var p, more := ParseOf(before.tokens), TableTokens(n) + [Directive(ENDIF)];
      assert before.tokens + TableTokens(n) + [Directive(ENDIF)] == before.tokens + more;
      PH.RunConcat(Opening, before.tokens, more);
      PH.RunConcat(p, TableTokens(n), [Directive(ENDIF)]);
      if p.Failed? {
        PH.RunFailed(more);
      } else if p.Parsing? && p.at.Item? {
        ParseTable(p.decls, n);
        PH.ParseEndif(p.decls, PH.SHAPE, PH.RowsOf(n) + [PH.NULL_ROW], RH.CODE);
      }
    }
  }
}
