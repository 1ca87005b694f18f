/** Which sequences of bytes the loader accepts: exactly the files that `QmFiles` builds. */
module QmAcceptance {
  import opened Formatting
  import opened Qm
  import opened QmFiles

  lemma {:induction false} WordOfBytes(data: Bytes, i: nat)
    requires i + 4 <= |data|
    ensures Word4(Be32(data, i)) == data[i..i + 4]
  {
    var n := Be32(data, i);
    assert IsByte(data[i]) && IsByte(data[i + 1]) && IsByte(data[i + 2]) && IsByte(data[i + 3]);
    assert n / 0x1000000 == data[i] as int;
    assert n / 0x10000 == data[i] as int * 0x100 + data[i + 1] as int;
    assert n / 0x100 == data[i] as int * 0x10000 + data[i + 1] as int * 0x100 + data[i + 2] as int;
  }

  lemma {:induction false} Cut(s: string, i: nat, j: nat, k: nat, l: nat)
    requires i <= j <= k <= l <= |s|
    ensures s[i..l] == s[i..j] + s[j..k] + s[k..l]
  {
  }

  /** Any five bytes start a chunk, if as many bytes follow as they say. */
  lemma {:induction false} ChunkFrom(data: Bytes, i: nat) returns (c: Chunk)
    requires i + 5 <= |data| && i + 5 + Be32(data, i + 1) <= |data|
    ensures c.tag == data[i] && |c.body| == Be32(data, i + 1)
    ensures c.body == data[i + 5..i + 5 + |c.body|] && data[i..i + 5 + |c.body|] == ChunkBytes(c)
  {
    hide Be32, Word4;
    var end := i + 5 + Be32(data, i + 1);
    assert IsByte(data[i]);
    c := AnyChunk(data[i], data[i + 5..end]);
    WordOfBytes(data, i + 1);
    Cut(data, i, i + 1, i + 5, end);
    assert data[i..i + 1] == [c.tag];
  }

  lemma {:induction false} ListAppend(cs: seq<Chunk>, c: Chunk)
    ensures ListBytes(cs + [c]) == ListBytes(cs) + ChunkBytes(c)
  {
    hide ChunkBytes;
    assert (cs + [c])[..|cs|] == cs;
  }

  // ---------------------------------------------------------------- the chunk list

  lemma {:induction false} ScanStep(data: Bytes, i: nat, dir: Directory)
    requires IndexFits(data, dir) && i < |data| && ScanChunks(data, i, dir).Some?
    ensures i + 5 <= |data| && i + 5 + Be32(data, i + 1) <= |data|
    ensures var size := Be32(data, i + 1);
            var next := Note(dir, data[i], i + 5, size);
            IndexFits(data, next) && ScanChunks(data, i + 5 + size, next).Some?
  {
    hide Be32;
  }

  lemma {:induction false} ScanBack(data: Bytes, before: seq<Chunk>, dir: Directory) returns (cs: seq<Chunk>)
    requires IndexFits(data, dir) && FileBytes(before) <= data
    requires ScanChunks(data, |FileBytes(before)|, dir).Some?
    ensures data == FileBytes(cs)
    decreases |data| - |FileBytes(before)|
  {
    hide Be32, ChunkBytes, Magic, ListBytes, ScanChunks, IndexFits;
    var i := |FileBytes(before)|;
    if i == |data| {
      cs := before;
    } else {
      ScanStep(data, i, dir);
      var c := ChunkFrom(data, i);
      ListAppend(before, c);
      assert FileBytes(before + [c]) == FileBytes(before) + ChunkBytes(c);
      assert data[..i + 5 + |c.body|] == data[..i] + data[i..i + 5 + |c.body|];
      cs := ScanBack(data, before + [c], Note(dir, c.tag, i + 5, |c.body|));
    }
  }

  /** Behind the magic number, exactly the lists of chunks are scanned to the end. */
  lemma {:induction false} ScansIff(data: Bytes)
    requires |data| < WORD && MAGIC <= data
    ensures ScanChunks(data, |MAGIC|, NO_DIRECTORY).Some? <==> exists cs: seq<Chunk> :: data == FileBytes(cs)
  {
    assert FileBytes([]) == MAGIC;
    hide ScanChunks, FileBytes;
    if ScanChunks(data, |MAGIC|, NO_DIRECTORY).Some? {
      var cs := ScanBack(data, [], NO_DIRECTORY);
    }
    if cs: seq<Chunk> :| data == FileBytes(cs) {
      ScanFile(cs);
    }
  }

  // ---------------------------------------------------------------- one record

  /** A record with at least four bytes behind it. */
  predicate FullRecord(data: Bytes, at: nat, subs: seq<Sub>) {
    RecordAt(data, at, subs) && at + |RecordBytes(subs)| + 4 <= |data|
  }

  lemma {:induction false} ReadStep(data: Bytes, i: nat, r: Record)
    requires ReadRecord(data, i, r).Some?
    ensures i + 5 <= |data|
    ensures data[i] != TAG_END ==>
              var size := Be32(data, i + 1);
              && i + 5 + size <= |data|
              && ReadRecord(data, i + 5 + size, Take(r, data[i], data[i + 5..i + 5 + size])).Some?
  {
    hide Be32, Take;
  }

  lemma {:induction false} ReadBack(data: Bytes, at: nat, before: seq<Sub>, r: Record) returns (subs: seq<Sub>)
    requires at + |ListBytes(before)| <= |data| && data[at..at + |ListBytes(before)|] == ListBytes(before)
    requires ReadRecord(data, at + |ListBytes(before)|, r).Some?
    ensures FullRecord(data, at, subs)
    decreases |data| - |ListBytes(before)|
  {
    hide Be32, ChunkBytes, ListBytes, ReadRecord, Take;
    var i := at + |ListBytes(before)|;
    ReadStep(data, i, r);
    if data[i] == TAG_END {
      subs := before;
      assert data[at..i + 1] == data[at..i] + [TAG_END];
    } else {
      var c := ChunkFrom(data, i);
      ListAppend(before, c);
      assert data[at..i + 5 + |c.body|] == data[at..i] + data[i..i + 5 + |c.body|];
      subs := ReadBack(data, at, before + [c], Take(r, c.tag, c.body));
    }
  }

  /** Exactly the places where some record starts, with four bytes behind it, are read as one. */
  lemma {:induction false} ReadsIff(data: Bytes, at: nat)
    requires |data| < WORD
    ensures ReadRecord(data, at, NO_RECORD).Some? <==> exists subs :: FullRecord(data, at, subs)
  {
    hide ReadRecord, RecordBytes;
    if ReadRecord(data, at, NO_RECORD).Some? {
      ReadStep(data, at, NO_RECORD);
      var subs := ReadBack(data, at, [], NO_RECORD);
    }
    if subs :| FullRecord(data, at, subs) {
      var end := at + |RecordBytes(subs)|;
      assert data == data[..at] + data[at..end] + data[end..];
      ReadMessage(data, data[..at], subs, data[end..]);
    }
  }

  // ---------------------------------------------------------------- the whole file

  lemma {:induction false} RecordsBack(data: Bytes, dir: Directory, m: nat, entries: Dictionary)
    returns (parts: seq<seq<Sub>>)
    requires dir.offsets + 8 * m <= |data| && LoadMessages(data, dir, m, entries).ok
    ensures |parts| == m
    ensures forall i | 0 <= i < m ::
              FullRecord(data, Be32(data, dir.offsets + 8 * i + 4) + dir.messages, parts[i])
    decreases m
  {
    hide Be32, ReadRecord, FullRecord, Enter;
    if m == 0 {
      parts := [];
    } else {
      var before := RecordsBack(data, dir, m - 1, entries);
      var at := Be32(data, dir.offsets + 8 * (m - 1) + 4) + dir.messages;
      ReadStep(data, at, NO_RECORD);
      var subs := ReadBack(data, at, [], NO_RECORD);
      parts := before + [subs];
    }
  }

  lemma {:induction false} IndexBack(body: Bytes, parts: seq<seq<Sub>>) returns (refs: seq<Ref>)
    requires 8 * |parts| <= |body|
    ensures |refs| == |parts| && IndexBytes(refs) == body[..8 * |parts|]
    ensures forall i | 0 <= i < |refs| :: refs[i].offset == Be32(body, 8 * i + 4) && refs[i].subs == parts[i]
    decreases |parts|
  {
    hide Be32, Word4;
    if parts == [] {
      refs := [];
    } else {
      var n := |parts| - 1;
      var before := IndexBack(body, parts[..n]);
      var r := Ref(Be32(body, 8 * n), Be32(body, 8 * n + 4), parts[n]);
      refs := before + [r];
      assert refs[..n] == before;
      WordOfBytes(body, 8 * n);
      WordOfBytes(body, 8 * n + 4);
      Cut(body, 0, 8 * n, 8 * n + 4, 8 * n + 8);
    }
  }

  /** A list with a chunk of some kind has a last one. */
  lemma {:induction false} LastOf(cs: seq<Chunk>, tag: char) returns (k: nat)
    requires exists i | 0 <= i < |cs| :: cs[i].tag == tag
    ensures IsLast(cs, k) && cs[k].tag == tag
    decreases |cs|
  {
    var n := |cs| - 1;
    if cs[n].tag == tag {
      k := n;
    } else {
      k := LastOf(cs[..n], tag);
    }
  }

  lemma {:induction false} SameWord(data: Bytes, start: nat, size: nat, i: nat)
    requires start + size <= |data| && i + 4 <= size
    ensures Be32(data[start..start + size], i) == Be32(data, start + i)
  {
  }

  /** The index and the messages of a list of chunks in which both are found. */
  lemma {:induction false} Found(cs: seq<Chunk>) returns (k: nat, m: nat)
    requires |FileBytes(cs)| < UNSET
    requires var dir := NoteAll(NO_DIRECTORY, |MAGIC|, cs); dir.offsets != UNSET && dir.messages != UNSET
    ensures k < |cs| && IsLast(cs, k) && cs[k].tag == TAG_OFFSETS
    ensures m < |cs| && IsLast(cs, m) && cs[m].tag == TAG_MESSAGES
    ensures NoteAll(NO_DIRECTORY, |MAGIC|, cs) == Directory(StartOf(cs, k), |cs[k].body| / 8, StartOf(cs, m))
  {
    hide NoteAll, FileBytes, StartOf;
    if forall i | 0 <= i < |cs| :: cs[i].tag != TAG_OFFSETS { NoteNone(cs, TAG_OFFSETS); }
    if forall i | 0 <= i < |cs| :: cs[i].tag != TAG_MESSAGES { NoteNone(cs, TAG_MESSAGES); }
    k := LastOf(cs, TAG_OFFSETS);
    m := LastOf(cs, TAG_MESSAGES);
    NoteLast(cs, k);
    NoteLast(cs, m);
    BodyFits(cs, k);
    BodyFits(cs, m);
  }

  /** A well-formed file, with four bytes behind every record its index refers to. */
  predicate Describes(f: Layout, data: Bytes) {
    WellFormed(f) && FileBytes(f.chunks) == data && Entered(f) == f.refs
  }

  lemma {:induction false} LayoutFrom(cs: seq<Chunk>, k: nat, m: nat, parts: seq<seq<Sub>>) returns (f: Layout)
    requires IsLast(cs, k) && cs[k].tag == TAG_OFFSETS && IsLast(cs, m) && cs[m].tag == TAG_MESSAGES
    requires |FileBytes(cs)| < UNSET && |parts| == |cs[k].body| / 8
    requires StartOf(cs, k) + |cs[k].body| <= |FileBytes(cs)|
    requires forall i | 0 <= i < |parts| ::
               FullRecord(FileBytes(cs), Be32(FileBytes(cs), StartOf(cs, k) + 8 * i + 4) + StartOf(cs, m), parts[i])
    ensures Describes(f, FileBytes(cs))
  {
    hide FileBytes, StartOf, Be32, IndexBytes, RecordBytes;
    var data, body := FileBytes(cs), cs[k].body;
    var refs := IndexBack(body, parts);
    var post := BodyInFile(cs, k);
    f := Layout(cs, k, m, refs, body[8 * |refs|..]);
    forall i | 0 <= i < |refs|
      ensures refs[i].offset < WORD && FullRecord(data, PlaceOf(f, refs[i]), refs[i].subs)
    {
      SameWord(data, StartOf(cs, k), |body|, 8 * i + 4);
    }
    assert forall i | 0 <= i < |refs| :: Followed(f, refs[i]);
    assert refs[..|refs|] == refs;
  }

  lemma {:induction false} LoadSteps(data: Bytes, entries: Dictionary) returns (cs: seq<Chunk>)
    requires |data| < UNSET && Load(data, entries).ok
    ensures data == FileBytes(cs)
    ensures var dir := NoteAll(NO_DIRECTORY, |MAGIC|, cs);
            && dir.offsets != UNSET && dir.messages != UNSET && dir.offsets + 8 * dir.count <= |data|
            && LoadMessages(data, dir, dir.count, entries).ok
  {
    assert FileBytes([]) == MAGIC;
    hide ScanChunks, FileBytes, NoteAll, LoadMessages, MAGIC;
    cs := ScanBack(data, [], NO_DIRECTORY);
    ScanFile(cs);
  }

  lemma {:induction false} LayoutOf(data: Bytes, entries: Dictionary) returns (f: Layout)
    requires |data| < UNSET && Load(data, entries).ok
    ensures Describes(f, data)
  {
    hide Load, FileBytes, NoteAll, LoadMessages, StartOf, Be32, FullRecord, Describes, IsLast;
    var cs := LoadSteps(data, entries);
    var k, m := Found(cs);
    var dir := NoteAll(NO_DIRECTORY, |MAGIC|, cs);
    var parts := RecordsBack(data, dir, dir.count, entries);
    BodyFits(cs, k);
    f := LayoutFrom(cs, k, m, parts);
  }

  /** Exactly the bytes that such a file describes load; `QmFiles.LoadFile` says what they enter. */
  lemma {:induction false} LoadsIff(data: Bytes, entries: Dictionary)
    requires |data| < UNSET
    ensures Load(data, entries).ok <==> exists f :: Describes(f, data)
  {
    hide Load;
    if Load(data, entries).ok {
      var f := LayoutOf(data, entries);
    }
    if f :| Describes(f, data) {
      LoadFile(f, entries);
    }
  }
}
