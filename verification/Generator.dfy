/**
 The generator itself: it opens each argument in turn and appends to one output file,
 character by character, while `Header` says what the finished text looks like.
 */
module Generator {
  import opened Formatting
  import opened Header

  const INT_MAX := 0x7fff_ffff

  /** C's `int`; leaving its range has no defined meaning. */
  newtype CInt = x: int | -INT_MAX - 1 <= x <= INT_MAX

  /** A C string: it cannot hold a NUL. */
  type Argument = s: string | '\0' !in s

  const EOF: int := -1

  class OutputFile {
    var text: string

    constructor ()
      ensures text == ""
    {
      text := "";
    }

    method Print(s: string)
      modifies this
      ensures text == old(text) + s
    {
      text := text + s;
    }
  }

  class InputFile {
    const contents: Bytes
    var position: nat

    ghost predicate Valid()
      reads this
    {
      position <= |contents|
    }

    constructor (contents: Bytes)
      ensures Valid() && this.contents == contents && position == 0
    {
      this.contents := contents;
      position := 0;
    }

    /** `fgetc`: the next byte as a number, or `EOF`. */
    method GetChar() returns (ch: int)
      requires Valid()
      modifies this
      ensures Valid()
      ensures if old(position) < |contents|
              then position == old(position) + 1 && ch == contents[old(position)] as int
              else position == old(position) && ch == EOF
    {
      if position < |contents| {
        ch := contents[position] as int;
        position := position + 1;
      } else {
        ch := EOF;
      }
    }
  }

  // ---------------------------------------------------------------- the byte loop

  /** The data block while its last literal is still open. */
  function OpenBlock(contents: Bytes): string {
    var block := DataBlock(contents);
    if contents == "" || block == "" then "" else block[..|block| - 1]
  }

  lemma {:induction false} LinesEndInQuote(chunks: seq<Bytes>)
    requires chunks != []
    ensures var n := |chunks| - 1;
            && |Lines(chunks)| > 0
            && Lines(chunks) == Lines(chunks)[..|Lines(chunks)| - 1] + "\""
            && Lines(chunks)[..|Lines(chunks)| - 1] == Lines(chunks[..n]) + ("\n  \"" + Escapes(chunks[n]))
  {
  }

  lemma {:induction false} ChunksExist(contents: Bytes)
    ensures Chunks(contents) == [] <==> contents == ""
  {
  }

  /** One more byte starts a chunk of its own after every sixteenth byte, and lengthens the last chunk otherwise. */
  lemma {:induction false} ChunksAppend(b: Bytes, c: char)
    requires IsByte(c)
    ensures |b| % LINE == 0 ==> Chunks(b + [c]) == Chunks(b) + [[c]]
    ensures |b| % LINE != 0 ==>
              && Chunks(b) != []
              && var n := |Chunks(b)| - 1;
                 Chunks(b + [c]) == Chunks(b)[..n] + [Chunks(b)[n] + [c]]
    decreases |b|
  {
    if |b| > LINE {
      var head, rest := b[..LINE], b[LINE..];
      assert (b + [c])[..LINE] == head && (b + [c])[LINE..] == rest + [c];
      ChunksAppend(rest, c);
      assert |rest| % LINE == |b| % LINE;
      var tail := Chunks(rest);
      if |b| % LINE == 0 {
        assert [head] + (tail + [[c]]) == [head] + tail + [[c]];
      } else {
        var n := |tail| - 1;
        assert ([head] + tail)[..n + 1] == [head] + tail[..n];
        assert [head] + (tail[..n] + [tail[n] + [c]]) == [head] + tail[..n] + [tail[n] + [c]];
      }
    } else if |b| == LINE {
      assert (b + [c])[..LINE] == b && (b + [c])[LINE..] == [c];
      assert Chunks([c]) == [[c]];
      assert Chunks(b) == [b];
    } else {
      assert Chunks(b + [c]) == [b + [c]];
      if b != "" {
        assert Chunks(b) == [b];
        assert Chunks(b)[..0] + [b + [c]] == [b + [c]];
      } else {
        assert b + [c] == [c];
      }
    }
  }

  /** What the loop prints before byte number j. */
  function Separator(j: nat): string {
    if j % LINE == 0 then (if j > 0 then "\"" else "") + "\n  \"" else ""
  }

  lemma {:induction false} OpenBlockShape(contents: Bytes)
    requires contents != ""
    ensures Chunks(contents) != []
    ensures var chunks := Chunks(contents);
            var n := |chunks| - 1;
            OpenBlock(contents) == Lines(chunks[..n]) + ("\n  \"" + Escapes(chunks[n]))
  {
    ChunksExist(contents);
    LinesEndInQuote(Chunks(contents));
  }

  lemma {:induction false} OpenBlockAppend(b: Bytes, c: char)
    requires IsByte(c)
    ensures OpenBlock(b + [c]) == OpenBlock(b) + Separator(|b|) + ("\\x" + HexByte(c))
  {
    hide Chunks, Lines, HexByte, OpenBlock, DataBlock, Escapes;
    var all, before, byte := Chunks(b + [c]), Chunks(b), "\\x" + HexByte(c);
    var n := |all| - 1;
    OpenBlockShape(b + [c]);
    ChunksAppend(b, c);
    if |b| % LINE == 0 {
      assert all[..n] == before && all[n] == [c];
      assert Escapes([c]) == byte by {
        EscapesAppend("", c);
        LinesEmpty();
        assert "" + [c] == [c];
        assert "" + byte == byte;
      }
      assert OpenBlock(b + [c]) == Lines(before) + ("\n  \"" + byte);
      assert Lines(before) == OpenBlock(b) + (if |b| > 0 then "\"" else "") by { LinesOfOpenBlock(b); }
    } else {
      assert all[..n] == before[..n] && all[n] == before[n] + [c];
      EscapesAppend(before[n], c);
      OpenBlockShape(b);
      assert OpenBlock(b) + Separator(|b|) == OpenBlock(b);
    }
  }

  lemma {:induction false} OpenBlockNext(contents: Bytes, j: nat, before: string)
    requires j < |contents|
    ensures before + OpenBlock(contents[..j + 1]) ==
            before + OpenBlock(contents[..j]) + Separator(j) + ("\\x" + HexByte(contents[j]))
  {
    hide OpenBlock, Separator, HexByte;
    OpenBlockAppend(contents[..j], contents[j]);
    assert contents[..j] + [contents[j]] == contents[..j + 1];
  }

  lemma {:induction false} LinesOfOpenBlock(b: Bytes)
    ensures Lines(Chunks(b)) == OpenBlock(b) + (if |b| > 0 then "\"" else "")
  {
    ChunksExist(b);
    if b != "" { OpenBlockCloses(b); }
  }

  lemma {:induction false} LinesEmpty()
    ensures Lines([]) == "" && Escapes("") == ""
  {
  }

  lemma {:induction false} EscapesAppend(b: Bytes, c: char)
    requires IsByte(c)
    ensures Escapes(b + [c]) == Escapes(b) + ("\\x" + HexByte(c))
  {
    assert (b + [c])[..|b|] == b;
  }

  /** Lines 56 to 65 of the generator: the bytes of one open file, and the end of its declaration. */
  method EmitData(fp: InputFile, out: OutputFile)
    requires fp.Valid() && fp.position == 0 && |fp.contents| <= INT_MAX
    modifies fp, out
    ensures out.text == old(out.text) + DataBlock(fp.contents) + ",\n  " + (Decimal(|fp.contents|) + ")") + ";\n\n"
  {
    hide HexByte, Decimal, DataBlock, OpenBlock, Escapes;
    ghost var before, contents := out.text, fp.contents;
    var j: CInt := 0;
    OpenBlockEmpty();
    var ch := fp.GetChar();
    while ch != EOF
      invariant 0 <= j as int <= |contents| && fp.Valid()
      invariant if j as int < |contents| then fp.position == j as int + 1 && ch == contents[j] as int
                else fp.position == |contents| && ch == EOF
      invariant out.text == before + OpenBlock(contents[..j])
      decreases |contents| - j as int
    {
      ghost var written := out.text;
      if j % 16 == 0 {
        if j > 0 {
          out.Print("\"");
        }
        out.Print("\n  \"");
      }
      assert out.text == written + Separator(j as int);
      out.Print("\\x" + HexByte(ch as char));
      OpenBlockNext(contents, j as int, before);
      j := j + 1;
      ch := fp.GetChar();
    }
    assert contents[..j] == contents;
    OpenBlockCloses(contents);
    var end := ",\n  " + (Decimal(j as int) + ")") + ";\n\n";
    out.Print("\"" + end);
    assert out.text == before + (OpenBlock(contents) + "\"") + end;
  }

  lemma {:induction false} OpenBlockEmpty()
    ensures OpenBlock("") == ""
  {
  }

  /** The closing quote completes the block; after an empty file it stands alone. */
  lemma {:induction false} OpenBlockCloses(contents: Bytes)
    ensures OpenBlock(contents) + "\"" == DataBlock(contents)
  {
    if contents != "" {
      ChunksExist(contents);
      LinesEndInQuote(Chunks(contents));
    }
  }

  // ---------------------------------------------------------------- the whole run

  type Disk = map<string, Bytes>

  datatype Status = Success | Failure

  /** What is left under the name of the output file. */
  datatype Output = Unopened | Written(text: string)

  /** The arguments proper: all but the program's own name. */
  function Arguments(argv: seq<Argument>): (args: seq<Argument>)
    ensures argv != [] ==> argv == [argv[0]] + args
    ensures argv == [] ==> args == []
  {
    if argv == [] then [] else argv[1..]
  }

  /** How many arguments can be opened before the first that cannot. */
  function Opened(args: seq<Argument>, disk: Disk): (k: nat)
    ensures k <= |args|
    ensures forall i | 0 <= i < k :: args[i] in disk
    ensures k < |args| ==> args[k] !in disk
  {
    if args == [] || args[0] !in disk then 0 else 1 + Opened(args[1..], disk)
  }

  function FilesOf(args: seq<Argument>, disk: Disk): (files: seq<File>)
    requires forall i | 0 <= i < |args| :: args[i] in disk
    ensures |files| == |args|
    ensures forall i | 0 <= i < |args| :: files[i] == File(args[i], disk[args[i]])
  {
    seq(|args|, i requires 0 <= i < |args| => File(args[i], disk[args[i]]))
  }

  /** The text written: a header, or its beginning when an argument cannot be opened. */
  function Text(args: seq<Argument>, disk: Disk): string {
    var k := Opened(args, disk);
    var files := FilesOf(args[..k], disk);
    if k == |args| then HeaderText(files) else PREAMBLE + Declarations(files)
  }

  /** The lengths of the files that get read are within C's `int`. */
  predicate LengthsFit(args: seq<Argument>, disk: Disk) {
    forall i | 0 <= i < Opened(args, disk) :: |disk[args[i]]| <= INT_MAX
  }

  method EmitFile(i: nat, name: Argument, contents: Bytes, out: OutputFile)
    requires |contents| <= INT_MAX
    modifies out
    ensures out.text == old(out.text) + NameDecl(i, name) + DataDecl(i, contents)
  {
    hide DataBlock, Decimal, NameVariable, DataVariable;
    var fp := new InputFile(contents);
    out.Print(Define(NameVariable(i)) + "\"" + name + "\"" + ";\n");
    out.Print(Define(DataVariable(i)) + "std::string(");
    EmitData(fp, out);
  }

  /** The first loop: every argument, until one cannot be opened. */
  method EmitFiles(argv: seq<Argument>, disk: Disk, out: OutputFile) returns (complete: bool)
    requires LengthsFit(Arguments(argv), disk)
    modifies out
    ensures complete <==> Opened(Arguments(argv), disk) == |Arguments(argv)|
    ensures var args := Arguments(argv);
            out.text == old(out.text) + Declarations(FilesOf(args[..Opened(args, disk)], disk))
  {
    hide NameDecl, DataDecl, Declarations;
    ghost var args, before := Arguments(argv), out.text;
    var argc := |argv|;
    var i := 1;
    DeclarationsNone(args, disk);
    assert before + "" == before;
    while i < argc
      invariant 1 <= i && i - 1 <= Opened(args, disk) && i <= |args| + 1
      invariant out.text == before + Declarations(FilesOf(args[..i - 1], disk))
    {
      assert argv[i] == args[i - 1];
      if argv[i] !in disk {
        return false;
      }
      DeclarationsAppend(args, disk, i - 1);
      EmitFile(i, argv[i], disk[argv[i]], out);
      i := i + 1;
    }
    return true;
  }

  /** The second loop, and the fixed text around it. */
  method EmitTable(argc: nat, out: OutputFile)
    modifies out
    ensures out.text == old(out.text) + TABLE_HEAD + TableRows(if argc == 0 then 0 else argc - 1) + TAIL
  {
    hide TABLE_HEAD, TableRow, TAIL;
    out.Print(TABLE_HEAD);
    var i := 1;
    while i < argc
      invariant 1 <= i && (i <= argc || i == 1)
      invariant out.text == old(out.text) + TABLE_HEAD + TableRows(i - 1)
    {
      out.Print(TableRow(i));
      i := i + 1;
    }
    out.Print(TAIL);
  }

  /**
   `main`: `writable` says whether the output file can be opened. The run stops at the
   first argument that cannot be opened, and keeps what was written up to there.
   */
  method GenerateHeader(argv: seq<Argument>, disk: Disk, writable: bool) returns (status: Status, output: Output)
    requires LengthsFit(Arguments(argv), disk)
    ensures !writable ==> status == Failure && output == Unopened
    ensures writable ==> output == Written(Text(Arguments(argv), disk))
    ensures writable ==> (status == Success <==> forall i | 1 <= i < |argv| :: argv[i] in disk)
  {
    hide Declarations, PREAMBLE, TABLE_HEAD, TableRows, TAIL;
    if !writable {
      return Failure, Unopened;
    }
    var out := new OutputFile();
    out.Print(PREAMBLE);
    var complete := EmitFiles(argv, disk, out);
    assert "" + PREAMBLE == PREAMBLE;
    if complete {
      EmitTable(|argv|, out);
    }
    ghost var args := Arguments(argv);
    assert forall i | 1 <= i < |argv| :: argv[i] == args[i - 1];
    assert forall i | 0 <= i < |args| :: args[i] == argv[i + 1];
    return if complete then Success else Failure, Written(out.text);
  }

  lemma {:induction false} DeclarationsNone(args: seq<Argument>, disk: Disk)
    ensures Declarations(FilesOf(args[..0], disk)) == ""
  {
  }

  lemma {:induction false} DeclarationsAppend(args: seq<Argument>, disk: Disk, k: nat)
    requires k < Opened(args, disk)
    ensures Declarations(FilesOf(args[..k + 1], disk)) ==
            Declarations(FilesOf(args[..k], disk)) + NameDecl(k + 1, args[k]) + DataDecl(k + 1, disk[args[k]])
  {
    hide NameDecl, DataDecl;
    var files := FilesOf(args[..k + 1], disk);
    assert files[..k] == FilesOf(args[..k], disk);
  }
}
