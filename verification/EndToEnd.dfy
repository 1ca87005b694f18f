/** Whole runs: the generator, the reader and the lookup, one after the other. */
module EndToEnd {
  import opened Header
  import opened Generator
  import opened Linker
  import opened Runtime
  import opened Correctness
  import opened Phases
  import Lexer
  import Parser
  import Scanning

  // ---------------------------------------------------------------- the text determines the files

  /** The same files under names that are at least as long make a text that is at least as long. */
  lemma {:induction false} LongerNames(fs: seq<File>, gs: seq<File>)
    requires |fs| == |gs|
    requires forall i | 0 <= i < |fs| :: fs[i].contents == gs[i].contents && |fs[i].name| <= |gs[i].name|
    ensures |Declarations(fs)| <= |Declarations(gs)|
    ensures |Declarations(fs)| == |Declarations(gs)| ==> forall i | 0 <= i < |fs| :: |fs[i].name| == |gs[i].name|
    decreases |fs|
  {
    hide DataDecl, Define;
    if fs != [] {
      var n := |fs| - 1;
      LongerNames(fs[..n], gs[..n]);
    }
  }

  /** No other list of files, embeddable or not, leads to the header of embeddable files. */
  lemma {:induction false} HeaderInjective(fs: seq<File>, gs: seq<File>)
    requires AllEmbeddable(fs) && HeaderText(fs) == HeaderText(gs)
    ensures fs == gs
  {
    hide Compile, Listing, Walkable, SafeName, Declarations, TABLE_HEAD, TableRows, TAIL, PREAMBLE;
    EmbeddableIsFaithful(fs);
    CompiledHeader(gs);
    var listing := Listing(Compile(HeaderText(fs)).value);
    forall i | 0 <= i < |fs|
      ensures fs[i].contents == gs[i].contents && |fs[i].name| <= |gs[i].name|
      ensures |fs[i].name| == |gs[i].name| ==> fs[i] == gs[i]
    {
      assert Lists(listing[i], gs[i]);
      assert listing[i] == Entries(fs)[i];
    }
    LongerNames(fs, gs);
  }

  // ---------------------------------------------------------------- runs that stop early

  lemma {:induction false} PartialTextFails(files: seq<File>)
    ensures Compile(PREAMBLE + Declarations(files)).Error?
  {
    hide Lexer.Run, Parser.Run, Declarations, PREAMBLE, Scanning.RecordsAll, Lexer.Prepare;
    var fs := PrepareFiles(files);
    GuardIsInert();
    PrepareInert(PREAMBLE, Declarations(files));
    PrepareDeclarations(files, "");
    PrepareEmpty();
    assert Declarations(files) + "" == Declarations(files);
    assert Declarations(fs) + "" == Declarations(fs);
    Scanning.ScanAll(fs);
  }

  /**
   When an argument cannot be opened, the text written is a proper beginning of the one
   that is written where every argument can be; it holds the declarations of exactly the
   files before that argument, and it never compiles.
   */
  lemma {:induction false} AbortedRun(args: seq<Argument>, disk: Disk, full: Disk)
    requires Opened(args, disk) < |args| && Opened(args, full) == |args|
    requires forall i | 0 <= i < Opened(args, disk) :: args[i] in full && full[args[i]] == disk[args[i]]
    ensures var k := Opened(args, disk);
            && Text(args, disk) == PREAMBLE + Declarations(FilesOf(args, full)[..k])
            && Text(args, disk) < Text(args, full)
            && Compile(Text(args, disk)).Error?
  {
    hide Declarations, PREAMBLE, TABLE_HEAD, TableRows, TAIL, Compile;
    var k, all := Opened(args, disk), FilesOf(args, full);
    assert args[..|args|] == args;
    assert FilesOf(args[..k], disk) == all[..k];
    PartialTextFails(all[..k]);
    DeclarationsPrefix(all, k);
    assert |TAIL| > 0 by { TailIsNotEmpty(); }
    var rest := Declarations(all)[|Declarations(all[..k])|..] + TABLE_HEAD + TableRows(|all|) + TAIL;
    assert Text(args, full) == Text(args, disk) + rest;
  }

  lemma {:induction false} TailIsNotEmpty()
    ensures |TAIL| > 0
  {
  }

  lemma {:induction false} DeclarationsPrefix(files: seq<File>, k: nat)
    requires k <= |files|
    ensures Declarations(files[..k]) <= Declarations(files)
    decreases |files|
  {
    hide NameDecl, DataDecl;
    var n := |files| - 1;
    if k == |files| {
      assert files[..k] == files;
    } else {
      DeclarationsPrefix(files[..n], k);
      assert files[..n][..k] == files[..k];
    }
  }

  // ---------------------------------------------------------------- complete runs

  lemma {:induction false} LookupOnDisk(args: seq<Argument>, disk: Disk, name: string, data: string)
    requires forall i | 0 <= i < |args| :: args[i] in disk
    ensures Lookup(Entries(FilesOf(args, disk)), name, data) ==
            if name in args then Answer(true, disk[name]) else Answer(false, data)
  {
  }

  lemma {:induction false} CompleteRun(argv: seq<Argument>, disk: Disk)
    requires forall i | 1 <= i < |argv| :: argv[i] in disk && SafeName(argv[i]) && disk[argv[i]] != ""
    ensures var args := Arguments(argv);
            && (forall i | 0 <= i < |args| :: args[i] in disk)
            && Text(args, disk) == HeaderText(FilesOf(args, disk))
            && AllEmbeddable(FilesOf(args, disk))
  {
    hide HeaderText, SafeName;
    var args := Arguments(argv);
    assert forall i | 0 <= i < |args| :: args[i] == argv[i + 1];
    assert Opened(args, disk) == |args| && args[..|args|] == args;
  }

  /** Generate and compile: the image lists the arguments with their bytes on disk. */
  method Embed(argv: seq<Argument>, disk: Disk) returns (image: Image)
    requires LengthsFit(Arguments(argv), disk)
    requires forall i | 1 <= i < |argv| :: argv[i] in disk && SafeName(argv[i]) && disk[argv[i]] != ""
    ensures forall i | 0 <= i < |Arguments(argv)| :: Arguments(argv)[i] in disk
    ensures Searches(image) && Listing(image) == Entries(FilesOf(Arguments(argv), disk))
  {
    hide HeaderText, Compile, SafeName, Listing, Walkable, Searches, Behaves;
    var status, output := GenerateHeader(argv, disk, true);
    CompleteRun(argv, disk);
    EmbeddableIsFaithful(FilesOf(Arguments(argv), disk));
    CompiledSearches(FilesOf(Arguments(argv), disk));
    image := Compile(output.text).value;
  }

  /**
   Generate, compile, look up: the bytes that come back are those on disk under the name
   asked for, if it was an argument, and otherwise the caller's string is left alone.
   */
  method EmbedAndFind(argv: seq<Argument>, disk: Disk, name: string, data0: string) returns (found: bool, data: string)
    requires LengthsFit(Arguments(argv), disk)
    requires forall i | 1 <= i < |argv| :: argv[i] in disk && SafeName(argv[i]) && disk[argv[i]] != ""
    ensures found <==> name in Arguments(argv)
    ensures found ==> data == disk[name]
    ensures !found ==> data == data0
  {
    hide SafeName, Lookup, Listing;
    var image := Embed(argv, disk);
    found, data := FindEmbeddedFile(image, name, data0);
    LookupOnDisk(Arguments(argv), disk, name, data0);
  }
}
