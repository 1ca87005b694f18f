/**
 Translation correctness: what running the emitted function answers, after the header has
 been tokenized, parsed, bound and linked, against the files that went in.
 */
module Correctness {
  import opened Lexer
  import opened Parser
  import opened Syntax
  import opened Linker
  import opened Header
  import opened Runtime
  import opened RawNames
  import opened Scanning
  import opened Linking
  import opened Phases
  import PH = ParsingHeader
  import RH = ReadingHeader
  import Reader
  import LC = LookupCode

  /**
   A name that can be printed raw between quotes: no quote, no backslash, no newline, no
   trigraph, and, as in every C string, no NUL.
   */
  predicate SafeName(name: string) {
    && RH.Plain(name)
    && '\0' !in name
    && forall i: nat | i < |name| :: !TrigraphAt(name, i)
  }

  predicate Embeddable(file: File) {
    SafeName(file.name) && file.contents != ""
  }

  predicate AllEmbeddable(files: seq<File>) {
    forall i | 0 <= i < |files| :: Embeddable(files[i])
  }

  function Entries(files: seq<File>): (entries: seq<Entry>)
    ensures |entries| == |files|
    ensures forall i | 0 <= i < |files| :: entries[i] == Entry(files[i].name, files[i].contents)
  {
    seq(|files|, i requires 0 <= i < |files| => Entry(files[i].name, files[i].contents))
  }

  // ---------------------------------------------------------------- from text to image

  lemma {:induction false} CStringLength(s: string)
    ensures |CString(s)| <= |s|
    ensures |CString(s)| == |s| ==> CString(s) == s && '\0' !in s
    ensures '\0' !in s ==> CString(s) == s
    decreases |s|
  {
    if s != "" { CStringLength(s[1..]); }
  }

  /** The tokens of a header are those of the header with prepared names. */
  lemma {:induction false} TokenizeHeader(files: seq<File>)
    ensures var end := Lexer.Run(START, HeaderText(PrepareFiles(files)));
            Tokenize(HeaderText(files)) == if end.Lexing? && end.mode == Gap(true) then Tokens(end.tokens) else NoTokens
  {
    hide Lexer.Run, Prepare, HeaderText;
    PrepareHeader(files);
  }

  lemma {:induction false} SafeNameIsPrepared(name: string)
    requires RH.Plain(name) && forall i: nat | i < |name| :: !TrigraphAt(name, i)
    ensures Prepare(name) == name
  {
    TrigraphsLength(name);
    assert '\n' !in name;
    SpliceLength(name);
  }

  /** What a name variable is bound to, in terms of the name before phases 1 and 2. */
  lemma {:induction false} NameValue(name: string, text: string)
    requires if RH.Plain(Prepare(name)) then text == Prepare(name) else |text| < |Prepare(name)|
    ensures if SafeName(name) then CString(text) == name else |CString(text)| < |name|
  {
    hide Prepare, CString;
    CStringLength(text);
    if SafeName(name) {
      SafeNameIsPrepared(name);
    } else {
      PrepareLength(name);
    }
  }

  /** The parse of a header that compiles, from the declarations it records. */
  lemma {:induction false} ParseOfHeader(files: seq<File>, ts: seq<Token>)
    requires Tokenize(HeaderText(files)) == Tokens(ts)
    ensures ParseOf(ts).Failed? ||
            exists ds :: RecordsAll(ds, PrepareFiles(files)) &&
                         ParseOf(ts) == Parsing(ds, Done(PH.SHAPE, PH.RowsOf(|files|) + [PH.NULL_ROW], RH.CODE))
  {
    hide Lexer.Run, Parser.Run, ParseOf, HeaderText, Prepare, RecordsAll, PH.RowsOf, Scan, PH.SHAPE, RH.CODE;
    var fs := PrepareFiles(files);
    TokenizeHeader(files);
    ScanAll(fs);
    Reader.ReadHeader(fs);
    var p := ParseOf(Scan(fs).tokens);
    if !p.Failed? {
      assert RecordsAll(p.decls, fs);
    }
  }

  /** The i-th line of the table, once linked. */
  ghost predicate Lists(entry: Entry, file: File) {
    && file.contents != "" && entry.data == file.contents
    && if SafeName(file.name) then entry.name == file.name else |entry.name| < |file.name|
  }

  ghost predicate ListsAll(entries: seq<Entry>, files: seq<File>) {
    |entries| == |files| && forall i | 0 <= i < |files| :: Lists(entries[i], files[i])
  }

  lemma {:induction false} SentinelIsLast(n: nat)
    ensures Sentinel(PH.RowsOf(n) + [PH.NULL_ROW]) == n
  {
    var rows := PH.RowsOf(n) + [PH.NULL_ROW];
    assert rows[n].first.Null?;
    assert forall j | 0 <= j < n :: rows[j] == PH.RowOf(j + 1);
  }

  lemma {:induction false} LinkFile(ds: seq<Decl>, i: nat, file: File)
    requires Bind(ds).Ok? && Records(ds, i, PrepareFile(file))
    ensures NameVariable(i) in Bind(ds).value && DataVariable(i) in Bind(ds).value
    ensures Lists(Entry(Bind(ds).value[NameVariable(i)], Bind(ds).value[DataVariable(i)]), file)
  {
    hide Prepare, Bind, NameVariable, DataVariable, CString, SafeName, RH.Plain;
    var k :| 0 <= k < |ds| && BindsName(ds[k], i, Prepare(file.name));
    BindHolds(ds, k);
    NameValue(file.name, ds[k].init.text);
    var j :| 0 <= j < |ds| && ds[j] == DataOf(i, file.contents);
    BindHolds(ds, j);
  }

  /**
   Whatever the files are, a header that compiles has one row for each of them, then one
   NULL row, and lists each under its name or, if that is not safe, under a shorter one.
   No empty file is among them. The structure and the function are always the same.
   */
  lemma {:induction false} CompiledHeader(files: seq<File>)
    requires Compile(HeaderText(files)).Ok?
    ensures Walkable(Compile(HeaderText(files)).value)
    ensures Compile(HeaderText(files)).value.rows == PH.RowsOf(|files|) + [PH.NULL_ROW]
    ensures Compile(HeaderText(files)).value.shape == PH.SHAPE
    ensures Compile(HeaderText(files)).value.lookup == LC.LOOKUP
    ensures ListsAll(Listing(Compile(HeaderText(files)).value), files)
  {
    hide HeaderText, Tokenize, Parser.Run, Bind, Records, Prepare, NameVariable, DataVariable, Lists;
    hide RH.CODE, LC.LOOKUP, ParseFunction;
    LC.CodeParses();
    var image, n := Compile(HeaderText(files)).value, |files|;
    var ts := Tokenize(HeaderText(files)).tokens;
    ParseOfHeader(files, ts);
    var ds := ParseOf(ts).decls;
    assert RecordsAll(ds, PrepareFiles(files));
    SentinelIsLast(n);
    forall i | 0 <= i < n
      ensures NameVariable(i + 1) in image.env && DataVariable(i + 1) in image.env
      ensures Lists(Entry(image.env[NameVariable(i + 1)], image.env[DataVariable(i + 1)]), files[i])
    {
      assert Records(ds, i + 1, PrepareFiles(files)[i]);
      LinkFile(ds, i + 1, files[i]);
    }
    assert forall i | 0 <= i < n :: image.rows[i] == PH.RowOf(i + 1);
  }

  lemma {:induction false} HeaderCompiles(files: seq<File>)
    requires AllEmbeddable(files)
    ensures Compile(HeaderText(files)).Ok?
  {
    hide HeaderText, Lexer.Run, Parser.Run, Bind, Prepare, NameVariable, DataVariable, Scan, DeclsOf;
    hide RH.CODE, ParseFunction;
    LC.CodeParses();
    var fs := PrepareFiles(files);
    forall i | 0 <= i < |files| ensures fs[i] == files[i] && Readable(fs[i]) {
      assert Embeddable(files[i]);
      SafeNameIsPrepared(files[i].name);
    }
    assert fs == files;
    TokenizeHeader(files);
    ScanReadable(files);
    Reader.ReadHeader(files);
    BindDecls(files);
    AllRowsResolve(files);
  }

  lemma {:induction false} AllRowsResolve(files: seq<File>)
    requires AllEmbeddable(files)
    requires Bind(DeclsOf(files)).Ok?
    ensures AllResolve(PH.RowsOf(|files|) + [PH.NULL_ROW], Bind(DeclsOf(files)).value)
  {
    hide Bind, NameVariable, DataVariable;
    var rows, env := PH.RowsOf(|files|) + [PH.NULL_ROW], Bind(DeclsOf(files)).value;
    forall i | 0 <= i < |rows| ensures Resolves(rows[i].first, env) && Resolves(rows[i].second, env) {
      if i < |files| {
        assert rows[i] == PH.RowOf(i + 1);
        DeclsOfHas(files, i);
      }
    }
  }

  lemma {:induction false} DeclsOfHas(files: seq<File>, i: nat)
    requires i < |files| && Bind(DeclsOf(files)).Ok?
    ensures NameVariable(i + 1) in Bind(DeclsOf(files)).value && DataVariable(i + 1) in Bind(DeclsOf(files)).value
    decreases |files|
  {
    hide NameVariable, DataVariable;
    var ds := DeclsOf(files);
    var k := DeclIndex(files, i);
    BindHolds(ds, k);
    BindHolds(ds, k + 1);
  }

  lemma {:induction false} DeclIndex(files: seq<File>, i: nat) returns (k: nat)
    requires i < |files|
    ensures k + 1 < |DeclsOf(files)|
    ensures DeclsOf(files)[k].variable == NameVariable(i + 1)
    ensures DeclsOf(files)[k + 1].variable == DataVariable(i + 1)
    decreases |files|
  {
    hide NameVariable, DataVariable;
    var n := |files|;
    if i == n - 1 {
      k := |DeclsOf(files)| - 2;
    } else {
      k := DeclIndex(files[..n - 1], i);
    }
  }

  // ---------------------------------------------------------------- the main results

  /** The evaluated table is the list of files, in order. */
  ghost predicate Faithful(files: seq<File>) {
    && Compile(HeaderText(files)).Ok?
    && Walkable(Compile(HeaderText(files)).value)
    && Listing(Compile(HeaderText(files)).value) == Entries(files)
  }

  /** The function of the header, run, ends and answers every question as a search through the files would. */
  ghost predicate Behaves(files: seq<File>) {
    && Compile(HeaderText(files)).Ok?
    && forall name, data ::
         Call(Compile(HeaderText(files)).value, name, data) == Answered(Lookup(Entries(files), name, data))
  }

  /** Whatever the files are, the function of a header that compiles is a search through its table. */
  lemma {:induction false} CompiledSearches(files: seq<File>)
    requires Compile(HeaderText(files)).Ok?
    ensures Searches(Compile(HeaderText(files)).value)
  {
    hide Compile, HeaderText, Searches, Walkable, Listing;
    CompiledHeader(files);
    LC.CallIsLookup(Compile(HeaderText(files)).value);
  }

  lemma {:induction false} EmbeddableIsFaithful(files: seq<File>)
    requires AllEmbeddable(files)
    ensures Faithful(files) && Behaves(files)
  {
    hide Compile, HeaderText, SafeName, Listing, Walkable, Lookup, Call;
    HeaderCompiles(files);
    CompiledHeader(files);
    CompiledSearches(files);
    var listing := Listing(Compile(HeaderText(files)).value);
    forall i | 0 <= i < |files| ensures listing[i] == Entries(files)[i] {
      assert Lists(listing[i], files[i]);
      assert Embeddable(files[i]);
    }
  }

  /** Among the names that are not safe there is a longest one. */
  lemma {:induction false} LongestUnsafe(files: seq<File>, bound: nat) returns (m: nat)
    requires bound <= |files| && exists i | 0 <= i < bound :: !SafeName(files[i].name)
    ensures m < |files| && !SafeName(files[m].name)
    ensures forall i | 0 <= i < bound :: !SafeName(files[i].name) ==> |files[i].name| <= |files[m].name|
  {
    hide SafeName;
    var last := bound - 1;
    if exists i | 0 <= i < last :: !SafeName(files[i].name) {
      m := LongestUnsafe(files, last);
      if !SafeName(files[last].name) && |files[m].name| < |files[last].name| { m := last; }
    } else {
      m := last;
    }
  }

  /** The longest unsafe name is listed nowhere, so a lookup of it fails. */
  lemma {:induction false} UnsafeNameIsLost(files: seq<File>, listing: seq<Entry>) returns (name: string)
    requires ListsAll(listing, files) && exists i | 0 <= i < |files| :: !SafeName(files[i].name)
    ensures Lookup(Entries(files), name, "").found && !Lookup(listing, name, "").found
  {
    hide SafeName, Lookup;
    var m := LongestUnsafe(files, |files|);
    name := files[m].name;
    assert Entries(files)[m].name == name;
    LookupFinds(Entries(files), name, "");
    LookupFinds(listing, name, "");
    forall i | 0 <= i < |listing| ensures listing[i].name != name {
      assert Lists(listing[i], files[i]);
    }
  }

  lemma {:induction false} LookupFinds(entries: seq<Entry>, name: string, data: string)
    ensures Lookup(entries, name, data).found <==> exists i | 0 <= i < |entries| :: entries[i].name == name
  {
  }

  lemma {:induction false} BehavesOnlyIfEmbeddable(files: seq<File>)
    requires Behaves(files)
    ensures AllEmbeddable(files)
  {
    hide Compile, HeaderText, SafeName, Listing, Walkable, Lookup, Call;
    CompiledHeader(files);
    CompiledSearches(files);
    var listing := Listing(Compile(HeaderText(files)).value);
    if exists i | 0 <= i < |files| :: !SafeName(files[i].name) {
      var name := UnsafeNameIsLost(files, listing);
      assert false;
    }
    forall i | 0 <= i < |files| ensures Embeddable(files[i]) {
      assert Lists(listing[i], files[i]);
    }
  }

  /**
   Translation correctness: the function of the generated header, compiled and run, ends and
   answers every lookup with the bytes of the first file of that name, and fails for every
   other name, exactly when no file is empty and every name can be printed raw.
   */
  lemma {:induction false} TranslationCorrect(files: seq<File>)
    ensures Behaves(files) <==> AllEmbeddable(files)
    ensures Faithful(files) <==> AllEmbeddable(files)
  {
    hide Compile, HeaderText, Listing, Walkable, Lookup, AllEmbeddable, Call;
    if AllEmbeddable(files) { EmbeddableIsFaithful(files); }
    if Faithful(files) { CompiledSearches(files); }
    if Behaves(files) { BehavesOnlyIfEmbeddable(files); }
  }

  /** No header with an empty file in it compiles. */
  lemma {:induction false} NoEmptyFile(files: seq<File>, i: nat)
    requires i < |files| && Compile(HeaderText(files)).Ok?
    ensures files[i].contents != ""
  {
    hide Compile, HeaderText, Listing, Walkable;
    CompiledHeader(files);
    assert Lists(Listing(Compile(HeaderText(files)).value)[i], files[i]);
  }

  /** An empty file, and a name with a quote in it, each spoil the header. */
  lemma {:induction false} SpoiledHeaders()
    ensures Compile(HeaderText([File("a.qm", "")])).Error?
    ensures !Behaves([File("a\"b", "x")])
  {
    hide Compile, HeaderText, Behaves;
    var empty, quoted := [File("a.qm", "")], [File("a\"b", "x")];
    if Compile(HeaderText(empty)).Ok? { NoEmptyFile(empty, 0); }
    TranslationCorrect(quoted);
    assert !Embeddable(quoted[0]) by { assert !RH.IsPlain("a\"b"[1]); }
  }
}
