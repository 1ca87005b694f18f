/** The data block of one file: its layout, its size, and what a reader gets back from it. */
module DataBlocks {
  import opened Formatting
  import opened Header
  import Lexer
  import Linker
  import Parser
  import Reading
  import RH = ReadingHeader
  import PH = ParsingHeader

  // ---------------------------------------------------------------- layout

  /** Every line but the last holds sixteen bytes, the last at least one, and together they hold the file. */
  lemma {:induction false} ChunkShape(contents: Bytes)
    ensures PH.Joined(Chunks(contents)) == contents
    ensures |Chunks(contents)| == (|contents| + 15) / 16
    ensures forall i | 0 <= i < |Chunks(contents)| :: 0 < |Chunks(contents)[i]| <= 16
    ensures forall i | 0 <= i < |Chunks(contents)| - 1 :: |Chunks(contents)[i]| == 16
    decreases |contents|
  {
    PH.JoinedChunks(contents);
    if |contents| > LINE {
      var rest := contents[LINE..];
      ChunkShape(rest);
      assert (|contents| + 15) / 16 == (|rest| + 15) / 16 + 1;
      assert forall i | 0 < i < |Chunks(contents)| :: Chunks(contents)[i] == Chunks(rest)[i - 1];
    }
  }

  lemma {:induction false} EscapesSize(chunk: Bytes)
    ensures |Escapes(chunk)| == 4 * |chunk|
    decreases |chunk|
  {
    if chunk != "" { EscapesSize(chunk[..|chunk| - 1]); }
  }

  lemma {:induction false} LinesSize(chunks: seq<Bytes>)
    ensures |Lines(chunks)| == 4 * |PH.Joined(chunks)| + 5 * |chunks|
    decreases |chunks|
  {
    if chunks != [] {
      LinesSize(chunks[..|chunks| - 1]);
      EscapesSize(chunks[|chunks| - 1]);
    }
  }

  /** Four characters for every byte and five for every line. */
  lemma {:induction false} DataBlockSize(contents: Bytes)
    requires contents != ""
    ensures |DataBlock(contents)| == 4 * |contents| + 5 * ((|contents| + 15) / 16)
  {
    hide Chunks, Lines;
    ChunkShape(contents);
    LinesSize(Chunks(contents));
  }

  // ---------------------------------------------------------------- quotes

  function Quotes(s: string): nat {
    if s == "" then 0 else Quotes(s[..|s| - 1]) + (if s[|s| - 1] == '"' then 1 else 0)
  }

  lemma {:induction false} QuotesConcat(a: string, b: string)
    ensures Quotes(a + b) == Quotes(a) + Quotes(b)
    decreases |b|
  {
    if b == "" {
      assert a + b == a;
    } else {
      assert (a + b)[..|a + b| - 1] == a + b[..|b| - 1];
      QuotesConcat(a, b[..|b| - 1]);
    }
  }

  lemma {:induction false} EscapesHoldNoQuote(chunk: Bytes)
    ensures Quotes(Escapes(chunk)) == 0
    decreases |chunk|
  {
    if chunk != "" {
      var n := |chunk| - 1;
      var hex := HexByte(chunk[n]);
      EscapesHoldNoQuote(chunk[..n]);
      QuotesConcat(Escapes(chunk[..n]) + "\\x", hex);
      QuotesConcat(Escapes(chunk[..n]), "\\x");
      assert Quotes("\\x") == 0 by { assert "\\x"[..1] == "\\" && "\\"[..0] == ""; }
      assert Quotes(hex) == 0 by { assert hex[..1] == [hex[0]] && [hex[0]][..0] == ""; }
    }
  }

  lemma {:induction false} QuotesOfLines(chunks: seq<Bytes>)
    ensures Quotes(Lines(chunks)) == 2 * |chunks|
    decreases |chunks|
  {
    if chunks != [] {
      var n := |chunks| - 1;
      QuotesOfLines(chunks[..n]);
      EscapesHoldNoQuote(chunks[n]);
      QuotesConcat(Lines(chunks[..n]), Quoted(chunks[n]));
      QuotesConcat("\n  \"" + Escapes(chunks[n]), "\"");
      QuotesConcat("\n  \"", Escapes(chunks[n]));
      QuotesOfMarks();
    }
  }

  lemma {:induction false} QuotesOfMarks()
    ensures Quotes("\"") == 1 && Quotes("\n  \"") == 1
  {
    assert "\""[..0] == "";
    var s := "\n  \"";
    assert s == "\n" + " " + " " + "\"";
    QuotesConcat("\n" + " " + " ", "\"");
    QuotesConcat("\n" + " ", " ");
    QuotesConcat("\n", " ");
    assert "\n"[..0] == "" && " "[..0] == "";
  }

  /** The quotes of a data block pair up exactly when the file is not empty. */
  lemma {:induction false} QuotesBalance(contents: Bytes)
    ensures Quotes(DataBlock(contents)) % 2 == 0 <==> contents != ""
  {
    QuotesOfMarks();
    QuotesOfLines(Chunks(contents));
  }

  // ---------------------------------------------------------------- escapes

  /** At position k stands `\x` with two hexadecimal digits, and no third one follows. */
  predicate EscapeAt(s: string, k: nat) {
    && k + 4 < |s| && s[k] == '\\' && s[k + 1] == 'x'
    && Lexer.IsHexDigit(s[k + 2]) && Lexer.IsHexDigit(s[k + 3])
    && (s[k + 4] == '\\' || s[k + 4] == '"')
  }

  predicate ExactEscapes(s: string) {
    forall k: nat | k < |s| && s[k] == '\\' :: EscapeAt(s, k)
  }

  lemma {:induction false} ExactConcat(a: string, b: string)
    requires ExactEscapes(a) && ExactEscapes(b)
    ensures ExactEscapes(a + b)
  {
    forall k: nat | k < |a + b| && (a + b)[k] == '\\' ensures EscapeAt(a + b, k) {
      if k < |a| { assert EscapeAt(a, k); } else { assert EscapeAt(b, k - |a|); }
    }
  }

  lemma {:induction false} EscapesAreExact(chunk: Bytes, end: string)
    requires end != "" && (end[0] == '"' || end[0] == '\\') && ExactEscapes(end)
    ensures ExactEscapes(Escapes(chunk) + end)
    decreases |chunk|
  {
    if chunk == "" {
      assert Escapes(chunk) + end == end;
    } else {
      var n := |chunk| - 1;
      var hex := HexByte(chunk[n]);
      var more := "\\x" + hex + end;
      forall k: nat | k < |more| && more[k] == '\\' ensures EscapeAt(more, k) {
        if k >= 4 { assert EscapeAt(end, k - 4); }
      }
      EscapesAreExact(chunk[..n], more);
      assert Escapes(chunk) + end == Escapes(chunk[..n]) + more;
    }
  }

  lemma {:induction false} LinesAreExact(chunks: seq<Bytes>)
    ensures ExactEscapes(Lines(chunks))
    decreases |chunks|
  {
    if chunks != [] {
      var n := |chunks| - 1;
      LinesAreExact(chunks[..n]);
      EscapesAreExact(chunks[n], "\"");
      ExactConcat("\n  \"", Escapes(chunks[n]) + "\"");
      assert Quoted(chunks[n]) == "\n  \"" + (Escapes(chunks[n]) + "\"");
      ExactConcat(Lines(chunks[..n]), Quoted(chunks[n]));
    }
  }

  /** A tokenizer that takes as many digits as it can takes two, everywhere in a data block. */
  lemma {:induction false} GreedyEscapesStop(contents: Bytes)
    ensures ExactEscapes(DataBlock(contents))
  {
    LinesAreExact(Chunks(contents));
  }

  // ---------------------------------------------------------------- reading back

  /** A text that consists of whole tokens. */
  ghost predicate Lexes(text: string) {
    var st := Lexer.Run(Lexer.Lexing(Lexer.Gap(false), []), text);
    st.Lexing? && st.mode.Gap?
  }

  lemma {:induction false} LexesIffNotEmpty(contents: Bytes)
    ensures Lexes(DataBlock(contents)) <==> contents != ""
  {
    if contents == "" {
      assert DataBlock(contents) == "\"" && "\""[1..] == "";
    } else {
      RH.ChunksNonEmpty(contents);
      RH.ReadsLines(Chunks(contents));
      assert Reading.Lands(Lexer.Lexing(Lexer.Gap(false), []), DataBlock(contents), [] + RH.Strs(Chunks(contents)));
    }
  }

  /**
   The literals of a data block, joined, are the bytes of the file, so that the counted
   constructor, given the printed length, reads neither past them nor short of them.
   */
  lemma {:induction false} DataRoundTrip(contents: Bytes)
    requires contents != ""
    ensures Reading.Reads(DataBlock(contents), RH.Strs(Chunks(contents)))
    ensures forall x, decls ::
              Parser.Run(Parser.Parsing(decls, Parser.Argument(x)), RH.Strs(Chunks(contents))) ==
              Parser.Parsing(decls, Parser.Arguments(x, contents))
    ensures Linker.Evaluate(Parser.Counted(contents, |contents|)) == Linker.Ok(contents)
  {
    hide Chunks, Lines, Reading.Reads, RH.Strs, Parser.Run;
    RH.ChunksNonEmpty(contents);
    RH.ReadsLines(Chunks(contents));
    ChunkShape(contents);
    assert contents[..|contents|] == contents;
    forall x, decls
      ensures Parser.Run(Parser.Parsing(decls, Parser.Argument(x)), RH.Strs(Chunks(contents))) ==
              Parser.Parsing(decls, Parser.Arguments(x, contents))
    {
      PH.ParseStrs(decls, x, Chunks(contents));
    }
  }
}
