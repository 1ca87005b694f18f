/**
 Translation files given by what they hold: any list of chunks, in which an index refers
 to records, each any list of subchunks. What the loader makes of their bytes.
 */
module QmFiles {
  import opened Formatting
  import opened Utf
  import opened Qm

  // ---------------------------------------------------------------- building a file

  datatype AnyChunk = AnyChunk(tag: char, body: Bytes)

  type Chunk = c: AnyChunk | IsByte(c.tag) witness AnyChunk('\0', "")

  /** A part of a record; the end marker is not one. */
  type Sub = c: Chunk | c.tag != TAG_END witness AnyChunk('\0', "")

  function Word4(n: nat): (s: Bytes)
    requires n < WORD
    ensures |s| == 4
  {
    [Byte(n / 0x1000000), Byte(n / 0x10000 % 0x100), Byte(n / 0x100 % 0x100), Byte(n % 0x100)]
  }

  /** Numbers are cut to 32 bits; `WellFormed` below says that none is. */
  function ChunkBytes(c: Chunk): (s: Bytes)
    ensures |s| == 5 + |c.body|
  {
    [c.tag] + Word4(|c.body| % WORD) + c.body
  }

  function ListBytes(cs: seq<Chunk>): Bytes {
    if cs == [] then "" else ListBytes(cs[..|cs| - 1]) + ChunkBytes(cs[|cs| - 1])
  }

  lemma {:induction false} ListLast(cs: seq<Chunk>)
    requires cs != []
    ensures ListBytes(cs) == ListBytes(cs[..|cs| - 1]) + ChunkBytes(cs[|cs| - 1])
  {
  }

  function RecordBytes(subs: seq<Sub>): Bytes {
    ListBytes(subs) + [TAG_END]
  }

  function Magic(): (s: Bytes)
    ensures |s| == 16
  {
    assert forall i | 0 <= i < |MAGIC| :: IsByte(MAGIC[i]);
    MAGIC
  }

  function FileBytes(cs: seq<Chunk>): Bytes {
    Magic() + ListBytes(cs)
  }

  /** An entry of the index: a hash, which the loader ignores, and the place of a record among the messages. */
  datatype Ref = Ref(hash: nat, offset: nat, subs: seq<Sub>)

  function IndexBytes(refs: seq<Ref>): (s: Bytes)
    ensures |s| == 8 * |refs|
  {
    if refs == [] then ""
    else
      var n := |refs| - 1;
      IndexBytes(refs[..n]) + Word4(refs[n].hash % WORD) + Word4(refs[n].offset % WORD)
  }

  /** A file with the chunk that is its index, the chunk that holds its messages, and what the index refers to. */
  datatype Layout = Layout(chunks: seq<Chunk>, indexAt: nat, messagesAt: nat, refs: seq<Ref>, padding: Bytes)

  /** Chunk k is the last one with its tag. */
  predicate IsLast(cs: seq<Chunk>, k: nat) {
    k < |cs| && forall j | k < j < |cs| :: cs[j].tag != cs[k].tag
  }

  predicate RecordAt(data: Bytes, at: nat, subs: seq<Sub>) {
    var record := RecordBytes(subs);
    at + |record| <= |data| && data[at..at + |record|] == record
  }

  /** Where the contents of chunk k start. */
  function StartOf(cs: seq<Chunk>, k: nat): nat
    requires k < |cs|
  {
    |MAGIC| + |ListBytes(cs[..k])| + 5
  }

  /** Where the record of an entry of the index starts. */
  function PlaceOf(f: Layout, r: Ref): nat
    requires f.messagesAt < |f.chunks|
  {
    StartOf(f.chunks, f.messagesAt) + r.offset
  }

  /**
   The index and the messages are the last chunks of their kinds, in either order and
   among any others; every entry of the index refers to a record, in any order, with any
   gaps and overlaps, and not necessarily inside the chunk of the messages; numbers are
   within 32 bits.
   */
  predicate WellFormed(f: Layout) {
    && f.indexAt < |f.chunks| && f.messagesAt < |f.chunks|
    && IsLast(f.chunks, f.indexAt) && f.chunks[f.indexAt].tag == TAG_OFFSETS
    && f.chunks[f.indexAt].body == IndexBytes(f.refs) + f.padding && |f.padding| < 8
    && IsLast(f.chunks, f.messagesAt) && f.chunks[f.messagesAt].tag == TAG_MESSAGES
    && (forall i | 0 <= i < |f.refs| ::
          f.refs[i].offset < WORD && RecordAt(FileBytes(f.chunks), PlaceOf(f, f.refs[i]), f.refs[i].subs))
    && |FileBytes(f.chunks)| < UNSET
  }

  // ---------------------------------------------------------------- reading numbers back

  lemma {:induction false} WordParts(n: nat)
    requires n < WORD
    ensures n / 0x1000000 * 0x1000000 + n / 0x10000 % 0x100 * 0x10000 + n / 0x100 % 0x100 * 0x100 + n % 0x100 == n
  {
    assert n / 0x100 / 0x100 == n / 0x10000;
    assert n / 0x10000 / 0x100 == n / 0x1000000;
  }

  lemma {:induction false} WordRoundTrip(data: Bytes, i: nat, n: nat)
    requires n < WORD && i + 4 <= |data| && data[i..i + 4] == Word4(n)
    ensures Be32(data, i) == n
  {
    var w := data[i..i + 4];
    assert data[i] == w[0] && data[i + 1] == w[1] && data[i + 2] == w[2] && data[i + 3] == w[3];
    WordParts(n);
  }

  lemma {:induction false} Slice(a: string, b: string, c: string)
    ensures (a + b + c)[|a|..|a| + |b|] == b
  {
  }

  lemma {:induction false} SubSlice(data: string, start: nat, size: nat, i: nat, j: nat)
    requires i <= j <= size && start + size <= |data|
    ensures data[start..start + size][i..j] == data[start + i..start + j]
  {
    var part := data[start..start + size];
    assert |part[i..j]| == j - i;
    assert forall k | 0 <= k < j - i :: part[i..j][k] == part[i + k] == data[start + i..start + j][k];
  }

  /** The parts of a chunk, found in the middle of a file. */
  lemma {:induction false} ChunkAt(data: Bytes, pre: Bytes, c: Chunk, post: Bytes)
    requires |data| < WORD && data == pre + ChunkBytes(c) + post
    ensures |pre| + 5 + |c.body| <= |data| && data[|pre|] == c.tag
    ensures Be32(data, |pre| + 1) == |c.body|
    ensures data[|pre| + 5..|pre| + 5 + |c.body|] == c.body
  {
    hide Be32, Word4;
    var word := Word4(|c.body|);
    Slice(pre + [c.tag], word, c.body + post);
    Slice(pre + [c.tag] + word, c.body, post);
    assert data == pre + [c.tag] + word + (c.body + post) == pre + [c.tag] + word + c.body + post;
    assert data[|pre|] == c.tag;
    WordRoundTrip(data, |pre| + 1, |c.body|);
  }

  // ---------------------------------------------------------------- the chunk list

  /** What is noted of a list of chunks that starts at a position. */
  function NoteAll(dir: Directory, position: nat, cs: seq<Chunk>): Directory {
    if cs == [] then dir
    else
      var n := |cs| - 1;
      Note(NoteAll(dir, position, cs[..n]), cs[n].tag, position + |ListBytes(cs[..n])| + 5, |cs[n].body|)
  }

  lemma {:induction false} ScanOne(data: Bytes, pre: Bytes, c: Chunk, post: Bytes, dir: Directory)
    requires |data| < WORD && data == pre + ChunkBytes(c) + post && |pre| > 0 && IndexFits(data, dir)
    ensures IndexFits(data, Note(dir, c.tag, |pre| + 5, |c.body|))
    ensures ScanChunks(data, |pre|, dir) ==
            ScanChunks(data, |pre| + 5 + |c.body|, Note(dir, c.tag, |pre| + 5, |c.body|))
  {
    hide Be32, ChunkBytes;
    ChunkAt(data, pre, c, post);
  }

  lemma {:induction false} ScanList(data: Bytes, pre: Bytes, cs: seq<Chunk>, post: Bytes, dir: Directory)
    requires |data| < WORD && data == pre + ListBytes(cs) + post && |pre| > 0 && IndexFits(data, dir)
    ensures IndexFits(data, NoteAll(dir, |pre|, cs))
    ensures ScanChunks(data, |pre|, dir) == ScanChunks(data, |pre| + |ListBytes(cs)|, NoteAll(dir, |pre|, cs))
    decreases |cs|
  {
    hide ChunkBytes, ScanChunks, Note, IndexFits;
    if cs != [] {
      hide ListBytes;
      var n := |cs| - 1;
      var before, chunk := ListBytes(cs[..n]), ChunkBytes(cs[n]);
      ListLast(cs);
      assert data == pre + before + (chunk + post);
      ScanList(data, pre, cs[..n], chunk + post, dir);
      assert data == (pre + before) + chunk + post;
      ScanOne(data, pre + before, cs[n], post, NoteAll(dir, |pre|, cs[..n]));
    }
  }

  /** Every list of chunks is scanned to its end. */
  lemma {:induction false} ScanFile(cs: seq<Chunk>)
    requires |FileBytes(cs)| < WORD
    ensures ScanChunks(FileBytes(cs), |MAGIC|, NO_DIRECTORY) == Some(NoteAll(NO_DIRECTORY, |MAGIC|, cs))
  {
    hide Magic, ListBytes, ScanChunks, NoteAll;
    var data := FileBytes(cs);
    assert data == Magic() + ListBytes(cs) + "";
    ScanList(data, Magic(), cs, "", NO_DIRECTORY);
    ScanEnd(data, NoteAll(NO_DIRECTORY, |MAGIC|, cs));
  }

  lemma {:induction false} ScanEnd(data: Bytes, dir: Directory)
    requires IndexFits(data, dir)
    ensures ScanChunks(data, |data|, dir) == Some(dir)
  {
  }

  /** The last chunk of a kind is the one that counts. */
  lemma {:induction false} NoteLast(cs: seq<Chunk>, k: nat)
    requires IsLast(cs, k)
    ensures var dir := NoteAll(NO_DIRECTORY, |MAGIC|, cs);
            && (cs[k].tag == TAG_OFFSETS ==> dir.offsets == StartOf(cs, k) % WORD && dir.count == |cs[k].body| / 8)
            && (cs[k].tag == TAG_MESSAGES ==> dir.messages == StartOf(cs, k) % WORD)
    decreases |cs|
  {
    hide ListBytes;
    var n := |cs| - 1;
    if k < n {
      NoteLast(cs[..n], k);
      assert cs[..n][..k] == cs[..k];
    }
  }

  /** A file without an index, or without messages, is rejected, and nothing is entered. */
  lemma {:induction false} MissingChunkFails(cs: seq<Chunk>, tag: char, entries: Dictionary)
    requires tag == TAG_OFFSETS || tag == TAG_MESSAGES
    requires |FileBytes(cs)| < WORD && forall i | 0 <= i < |cs| :: cs[i].tag != tag
    ensures Load(FileBytes(cs), entries) == Loaded(false, entries)
  {
    hide ScanChunks, NoteAll, FileBytes;
    ScanFile(cs);
    NoteNone(cs, tag);
  }

  lemma {:induction false} NoteNone(cs: seq<Chunk>, tag: char)
    requires forall i | 0 <= i < |cs| :: cs[i].tag != tag
    ensures var dir := NoteAll(NO_DIRECTORY, |MAGIC|, cs);
            (tag == TAG_OFFSETS ==> dir.offsets == UNSET) && (tag == TAG_MESSAGES ==> dir.messages == UNSET)
    decreases |cs|
  {
    if cs != [] { NoteNone(cs[..|cs| - 1], tag); }
  }

  // ---------------------------------------------------------------- one record

  function TakeAll(r: Record, subs: seq<Sub>): Record {
    if subs == [] then r
    else var n := |subs| - 1; Take(TakeAll(r, subs[..n]), subs[n].tag, subs[n].body)
  }

  function RecordOf(subs: seq<Sub>): Record {
    TakeAll(NO_RECORD, subs)
  }

  lemma {:induction false} ReadOne(data: Bytes, pre: Bytes, c: Sub, post: Bytes, r: Record)
    requires |data| < WORD && data == pre + ChunkBytes(c) + post
    ensures ReadRecord(data, |pre|, r) == ReadRecord(data, |pre| + 5 + |c.body|, Take(r, c.tag, c.body))
  {
    hide Be32, ChunkBytes, Take;
    ChunkAt(data, pre, c, post);
  }

  lemma {:induction false} ReadSubs(data: Bytes, pre: Bytes, subs: seq<Sub>, post: Bytes, r: Record)
    requires |data| < WORD && data == pre + ListBytes(subs) + post
    ensures ReadRecord(data, |pre|, r) == ReadRecord(data, |pre| + |ListBytes(subs)|, TakeAll(r, subs))
    decreases |subs|
  {
    hide ChunkBytes, ReadRecord, Take;
    if subs != [] {
      hide ListBytes;
      var n := |subs| - 1;
      var before, chunk := ListBytes(subs[..n]), ChunkBytes(subs[n]);
      ListLast(subs);
      assert data == pre + before + (chunk + post);
      ReadSubs(data, pre, subs[..n], chunk + post, r);
      assert data == (pre + before) + chunk + post;
      ReadOne(data, pre + before, subs[n], post, TakeAll(r, subs[..n]));
      assert |pre + before| + 5 + |subs[n].body| == |pre| + |ListBytes(subs)|;
    }
  }

  lemma {:induction false} ReadEnd(data: Bytes, pre: Bytes, post: Bytes, r: Record)
    requires data == pre + ([TAG_END] + post)
    ensures ReadRecord(data, |pre|, r) == if |post| >= 4 then Some(r) else None
  {
    assert data[|pre|] == TAG_END;
  }

  /** A record of any subchunks is read, exactly when at least four bytes follow its end marker. */
  lemma {:induction false} ReadMessage(data: Bytes, pre: Bytes, subs: seq<Sub>, post: Bytes)
    requires |data| < WORD && data == pre + RecordBytes(subs) + post
    ensures ReadRecord(data, |pre|, NO_RECORD) == if |post| >= 4 then Some(RecordOf(subs)) else None
  {
    hide ReadRecord, ListBytes, TakeAll;
    assert data == pre + ListBytes(subs) + ([TAG_END] + post);
    ReadSubs(data, pre, subs, [TAG_END] + post, NO_RECORD);
    assert data == (pre + ListBytes(subs)) + ([TAG_END] + post);
    ReadEnd(data, pre + ListBytes(subs), post, RecordOf(subs));
  }

  /** The body of the last subchunk with a tag; empty if there is none. */
  function LastBody(subs: seq<Sub>, tag: char): Bytes {
    if subs == [] then ""
    else if subs[|subs| - 1].tag == tag then subs[|subs| - 1].body
    else LastBody(subs[..|subs| - 1], tag)
  }

  lemma {:induction false} LastBodyIsLast(subs: seq<Sub>, k: nat)
    requires IsLast(subs, k)
    ensures LastBody(subs, subs[k].tag) == subs[k].body
    decreases |subs|
  {
    var n := |subs| - 1;
    if k < n {
      LastBodyIsLast(subs[..n], k);
    }
  }

  lemma {:induction false} NoBody(subs: seq<Sub>, tag: char)
    requires forall i | 0 <= i < |subs| :: subs[i].tag != tag
    ensures LastBody(subs, tag) == ""
    decreases |subs|
  {
    if subs != [] {
      NoBody(subs[..|subs| - 1], tag);
    }
  }

  /** Whatever the order, and whatever else a record holds, the last subchunk of each kind decides. */
  lemma {:induction false} RecordParts(subs: seq<Sub>)
    ensures RecordOf(subs) ==
            Record(LastBody(subs, TAG_CONTEXT), LastBody(subs, TAG_SOURCE),
                   Transcode(LastBody(subs, TAG_TRANSLATION), CODED_BOUND))
    decreases |subs|
  {
    if subs != [] { RecordParts(subs[..|subs| - 1]); }
  }

  // ---------------------------------------------------------------- the whole file

  /** At least four bytes follow the record of an entry in the file. */
  predicate Followed(f: Layout, r: Ref)
    requires f.messagesAt < |f.chunks|
  {
    PlaceOf(f, r) + |RecordBytes(r.subs)| + 4 <= |FileBytes(f.chunks)|
  }

  lemma {:induction false} IndexAt(refs: seq<Ref>, k: nat)
    requires k < |refs|
    ensures IndexBytes(refs)[8 * k + 4..8 * k + 8] == Word4(refs[k].offset % WORD)
    decreases |refs|
  {
    hide Word4;
    var n := |refs| - 1;
    var before := IndexBytes(refs[..n]);
    if k < n {
      IndexAt(refs[..n], k);
      assert IndexBytes(refs)[8 * k + 4..8 * k + 8] == before[8 * k + 4..8 * k + 8];
    }
  }

  /** A chunk of a list, with the bytes on both sides of it. */
  lemma {:induction false} ListSplit(cs: seq<Chunk>, k: nat) returns (post: Bytes)
    requires k < |cs|
    ensures ListBytes(cs) == ListBytes(cs[..k]) + ChunkBytes(cs[k]) + post
    ensures if k + 1 == |cs| then post == "" else |post| >= 5
    decreases |cs|
  {
    hide ChunkBytes;
    var n := |cs| - 1;
    if k == n {
      post := "";
    } else {
      var before := ListSplit(cs[..n], k);
      post := before + ChunkBytes(cs[n]);
      assert cs[..n][..k] == cs[..k];
    }
  }

  /** The contents of chunk k, in the file. */
  lemma {:induction false} BodyInFile(cs: seq<Chunk>, k: nat) returns (post: Bytes)
    requires k < |cs| && |FileBytes(cs)| < WORD
    ensures var start, body := StartOf(cs, k), cs[k].body;
            && start + |body| + |post| == |FileBytes(cs)|
            && FileBytes(cs)[start..start + |body|] == body && FileBytes(cs)[start + |body|..] == post
    ensures if k + 1 == |cs| then post == "" else |post| >= 5
  {
    hide Magic, ListBytes, Be32;
    post := ListSplit(cs, k);
    var pre := Magic() + ListBytes(cs[..k]);
    assert FileBytes(cs) == pre + ChunkBytes(cs[k]) + post;
    ChunkAt(FileBytes(cs), pre, cs[k], post);
    assert FileBytes(cs)[|pre + ChunkBytes(cs[k])|..] == post;
  }

  function DirectoryOf(f: Layout): Directory
    requires f.indexAt < |f.chunks| && f.messagesAt < |f.chunks|
  {
    Directory(StartOf(f.chunks, f.indexAt), |f.refs|, StartOf(f.chunks, f.messagesAt))
  }

  lemma {:induction false} ScanLayout(f: Layout)
    requires WellFormed(f)
    ensures ScanChunks(FileBytes(f.chunks), |MAGIC|, NO_DIRECTORY) == Some(DirectoryOf(f))
    ensures DirectoryOf(f).offsets < UNSET && DirectoryOf(f).messages < UNSET
    ensures DirectoryOf(f).offsets + 8 * |f.refs| <= |FileBytes(f.chunks)|
  {
    hide ScanChunks, NoteAll, FileBytes, StartOf, IndexBytes, RecordAt, IsLast, Note;
    ScanFile(f.chunks);
    NoteLast(f.chunks, f.indexAt);
    NoteLast(f.chunks, f.messagesAt);
    BodyFits(f.chunks, f.indexAt);
    BodyFits(f.chunks, f.messagesAt);
  }

  lemma {:induction false} BodyFits(cs: seq<Chunk>, k: nat)
    requires k < |cs| && |FileBytes(cs)| < WORD
    ensures StartOf(cs, k) + |cs[k].body| <= |FileBytes(cs)|
  {
    hide FileBytes, StartOf;
    var post := BodyInFile(cs, k);
  }

  lemma {:induction false} IndexInFile(f: Layout, k: nat)
    requires WellFormed(f) && k < |f.refs|
    ensures DirectoryOf(f).offsets + 8 * k + 8 <= |FileBytes(f.chunks)|
    ensures Be32(FileBytes(f.chunks), DirectoryOf(f).offsets + 8 * k + 4) == f.refs[k].offset
  {
    hide Be32, FileBytes, StartOf, Word4, IndexBytes, RecordAt, IsLast;
    var data, start, body := FileBytes(f.chunks), StartOf(f.chunks, f.indexAt), f.chunks[f.indexAt].body;
    var post := BodyInFile(f.chunks, f.indexAt);
    IndexAt(f.refs, k);
    var i, j := 8 * k + 4, 8 * k + 8;
    assert body[i..j] == IndexBytes(f.refs)[i..j];
    SubSlice(data, start, |body|, i, j);
    WordRoundTrip(data, start + i, f.refs[k].offset);
  }

  lemma {:induction false} RecordInFile(f: Layout, k: nat)
    requires WellFormed(f) && k < |f.refs|
    ensures ReadRecord(FileBytes(f.chunks), DirectoryOf(f).messages + f.refs[k].offset, NO_RECORD) ==
            if Followed(f, f.refs[k]) then Some(RecordOf(f.refs[k].subs)) else None
  {
    hide FileBytes, StartOf, RecordBytes, RecordOf, ReadRecord, IndexBytes, IsLast;
    var data, subs, at := FileBytes(f.chunks), f.refs[k].subs, PlaceOf(f, f.refs[k]);
    var end := at + |RecordBytes(subs)|;
    assert RecordAt(data, at, subs);
    assert data == data[..at] + data[at..end] + data[end..];
    ReadMessage(data, data[..at], subs, data[end..]);
  }

  /** The entries after some references; a later record replaces an earlier one under the same key. */
  function EnterAll(entries: Dictionary, refs: seq<Ref>): Dictionary {
    if refs == [] then entries
    else Enter(EnterAll(entries, refs[..|refs| - 1]), RecordOf(refs[|refs| - 1].subs))
  }

  lemma {:induction false} LoadFirst(f: Layout, m: nat, entries: Dictionary)
    requires WellFormed(f) && m <= |f.refs| && forall i | 0 <= i < m :: Followed(f, f.refs[i])
    ensures DirectoryOf(f).offsets + 8 * m <= |FileBytes(f.chunks)|
    ensures LoadMessages(FileBytes(f.chunks), DirectoryOf(f), m, entries) ==
            Loaded(true, EnterAll(entries, f.refs[..m]))
    decreases m
  {
    hide FileBytes, StartOf, ReadRecord, Be32, RecordOf, Enter, Followed, WellFormed;
    ScanLayout(f);
    if m > 0 {
      var k := m - 1;
      LoadFirst(f, k, entries);
      IndexInFile(f, k);
      RecordInFile(f, k);
      assert f.refs[..m][..k] == f.refs[..k];
    }
  }

  /** How many entries of the index come before the first whose record is not followed by four bytes. */
  function Complete(f: Layout, m: nat): (k: nat)
    requires f.messagesAt < |f.chunks| && m <= |f.refs|
    ensures k <= m
    ensures forall i | 0 <= i < k :: Followed(f, f.refs[i])
    ensures k < m ==> !Followed(f, f.refs[k])
  {
    if m == 0 then 0
    else
      var k := Complete(f, m - 1);
      if k == m - 1 && Followed(f, f.refs[m - 1]) then m else k
  }

  /** What a load enters: all that the index refers to, or what comes before the first such record. */
  function Entered(f: Layout): seq<Ref>
    requires f.messagesAt < |f.chunks|
  {
    f.refs[..Complete(f, |f.refs|)]
  }

  lemma {:induction false} LoadNext(f: Layout, k: nat, entries: Dictionary)
    requires WellFormed(f) && k < |f.refs| && !Followed(f, f.refs[k])
    requires forall i | 0 <= i < k :: Followed(f, f.refs[i])
    ensures DirectoryOf(f).offsets + 8 * (k + 1) <= |FileBytes(f.chunks)|
    ensures LoadMessages(FileBytes(f.chunks), DirectoryOf(f), k + 1, entries) ==
            Loaded(false, EnterAll(entries, f.refs[..k]))
  {
    hide FileBytes, StartOf, ReadRecord, Be32, RecordOf, EnterAll, Followed, WellFormed;
    LoadFirst(f, k, entries);
    IndexInFile(f, k);
    RecordInFile(f, k);
  }

  lemma {:induction false} LoadIndex(f: Layout, k: nat, entries: Dictionary)
    requires WellFormed(f) && k <= |f.refs| && forall i | 0 <= i < k :: Followed(f, f.refs[i])
    requires k < |f.refs| ==> !Followed(f, f.refs[k])
    ensures DirectoryOf(f).offsets + 8 * |f.refs| <= |FileBytes(f.chunks)|
    ensures LoadMessages(FileBytes(f.chunks), DirectoryOf(f), |f.refs|, entries) ==
            Loaded(k == |f.refs|, EnterAll(entries, f.refs[..k]))
  {
    var dir := DirectoryOf(f);
    hide FileBytes, ScanChunks, LoadMessages, EnterAll, DirectoryOf, WellFormed, Followed;
    ScanLayout(f);
    LoadFirst(f, k, entries);
    if k < |f.refs| {
      LoadNext(f, k, entries);
      FailureStays(FileBytes(f.chunks), dir, k + 1, |f.refs|, entries);
    }
  }

  /**
   A well-formed file loads exactly when four bytes follow every record that its index
   refers to. Otherwise what comes before the first such record is entered, and the load
   fails.
   */
  lemma {:induction false} LoadFile(f: Layout, entries: Dictionary)
    requires WellFormed(f)
    ensures Load(FileBytes(f.chunks), entries) == Loaded(Entered(f) == f.refs, EnterAll(entries, Entered(f)))
  {
    var k := Complete(f, |f.refs|);
    assert Entered(f) == f.refs <==> k == |f.refs| by { assert f.refs[..|f.refs|] == f.refs; }
    assert DirectoryOf(f).count == |f.refs|;
    hide FileBytes, ScanChunks, LoadMessages, EnterAll, DirectoryOf, WellFormed, Complete, Followed, MAGIC;
    StartsWithMagic(f.chunks);
    ScanLayout(f);
    LoadIndex(f, k, entries);
  }

  lemma {:induction false} StartsWithMagic(cs: seq<Chunk>)
    ensures MAGIC <= FileBytes(cs)
  {
  }

  /** One record, empty, at the very end of the file, is enough to be rejected. */
  lemma {:induction false} LastMarkerFails(entries: Dictionary)
    ensures var index := AnyChunk(TAG_OFFSETS, Word4(0) + Word4(0));
            Load(FileBytes([index, AnyChunk(TAG_MESSAGES, [TAG_END])]), entries) == Loaded(false, entries)
  {
    hide Load, Word4;
    var refs := [Ref(0, 0, [])];
    var index, messages := AnyChunk(TAG_OFFSETS, Word4(0) + Word4(0)), AnyChunk(TAG_MESSAGES, [TAG_END]);
    var f := Layout([index, messages], 0, 1, refs, "");
    assert IndexBytes(refs) == Word4(0) + Word4(0) by { assert refs[..0] == []; }
    assert RecordBytes([]) == [TAG_END];
    assert |FileBytes(f.chunks)| == 16 + 13 + 6 by {
      ListLast(f.chunks);
      ListLast([index]);
      assert f.chunks[..1] == [index] && [index][..0] == [];
    }
    LoadFile(f, entries);
    assert refs[..0] == [];
  }

  /** A file that breaks off in the middle of a chunk, whatever came before, is rejected, and nothing is entered. */
  lemma {:induction false} CutFileFails(before: seq<Chunk>, c: Chunk, cut: Bytes, entries: Dictionary)
    requires |c.body| < WORD && cut != "" && cut < ChunkBytes(c)
    requires |FileBytes(before) + cut| < WORD
    ensures Load(FileBytes(before) + cut, entries) == Loaded(false, entries)
  {
    hide ListBytes, ScanChunks, Magic, NoteAll, ChunkBytes;
    var data := FileBytes(before) + cut;
    StartsWithMagic(before);
    ScanList(data, Magic(), before, cut, NO_DIRECTORY);
    ScanCut(data, FileBytes(before), c, cut, NoteAll(NO_DIRECTORY, |MAGIC|, before));
  }

  lemma {:induction false} ScanCut(data: Bytes, pre: Bytes, c: Chunk, cut: Bytes, dir: Directory)
    requires |c.body| < WORD && cut != "" && cut < ChunkBytes(c)
    requires data == pre + cut && IndexFits(data, dir)
    ensures ScanChunks(data, |pre|, dir).None?
  {
    hide Be32, Word4;
    if |cut| >= 5 {
      var word := Word4(|c.body|);
      Slice([c.tag], word, c.body);
      assert data[|pre| + 1..|pre| + 5] == cut[1..5] == ChunkBytes(c)[1..5] == word;
      WordRoundTrip(data, |pre| + 1, |c.body|);
    }
  }

  // ---------------------------------------------------------------- looking translations up

  /** Where neither holds a NUL, no other context and source, with or without one, have the same key. */
  lemma {:induction false} KeyInjective(c: string, s: string, context: string, source: string)
    requires '\0' !in context && '\0' !in source && Key(c, s) == Key(context, source)
    ensures c == context && s == source
  {
    var key := Key(context, source);
    assert forall i | 0 <= i < |context| :: key[i] == context[i];
    assert forall i | |context| < i < |key| :: key[i] == source[i - |context| - 1];
    assert key[|c|] == '\0';
    assert Key(c, s)[..|c|] == c && key[..|context|] == context;
    assert Key(c, s)[|c| + 1..] == s && key[|context| + 1..] == source;
  }

  /** A key determines its context and source exactly where neither holds a NUL. */
  lemma {:induction false} KeyDetermines(context: string, source: string)
    ensures (forall c, s | Key(c, s) == Key(context, source) :: c == context && s == source)
            <==> '\0' !in context && '\0' !in source
  {
    hide Key;
    if '\0' in context {
      var i :| 0 <= i < |context| && context[i] == '\0';
      KeyMoves(context[..i], context[i + 1..], source);
      assert context == context[..i] + "\0" + context[i + 1..];
      assert Key(context[..i], context[i + 1..] + "\0" + source) == Key(context, source);
    } else if '\0' in source {
      var i :| 0 <= i < |source| && source[i] == '\0';
      KeyMoves(context, source[..i], source[i + 1..]);
      assert source == source[..i] + "\0" + source[i + 1..];
      assert Key(context + "\0" + source[..i], source[i + 1..]) == Key(context, source);
    } else {
      forall c, s | Key(c, s) == Key(context, source) ensures c == context && s == source {
        KeyInjective(c, s, context, source);
      }
    }
  }

  /** A NUL in the middle can be taken for the one between context and source. */
  lemma {:induction false} KeyMoves(a: string, b: string, c: string)
    ensures Key(a, b + "\0" + c) == Key(a + "\0" + b, c)
  {
    assert a + "\0" + (b + "\0" + c) == a + "\0" + b + "\0" + c;
  }

  predicate Matches(r: Ref, context: string, source: string) {
    LastBody(r.subs, TAG_CONTEXT) == context && LastBody(r.subs, TAG_SOURCE) == source
  }

  predicate HasKey(r: Ref, key: string) {
    Key(LastBody(r.subs, TAG_CONTEXT), LastBody(r.subs, TAG_SOURCE)) == key
  }

  /** The number of the last record with this key, counted from 1; 0 if there is none. */
  function LastMatch(refs: seq<Ref>, key: string): (k: nat)
    ensures k <= |refs|
    ensures k > 0 ==> HasKey(refs[k - 1], key)
    ensures forall i | k <= i < |refs| :: !HasKey(refs[i], key)
  {
    if refs == [] then 0
    else if HasKey(refs[|refs| - 1], key) then |refs|
    else LastMatch(refs[..|refs| - 1], key)
  }

  /** Where neither holds a NUL, the last record with the key is the last with that context and source. */
  lemma {:induction false} LastMatchIsLast(refs: seq<Ref>, context: string, source: string)
    requires '\0' !in context && '\0' !in source
    ensures var k := LastMatch(refs, Key(context, source));
            && (k > 0 ==> Matches(refs[k - 1], context, source))
            && (forall i | k <= i < |refs| :: !Matches(refs[i], context, source))
  {
    hide LastBody, Key, LastMatch;
    var k := LastMatch(refs, Key(context, source));
    if k > 0 {
      var c, s := LastBody(refs[k - 1].subs, TAG_CONTEXT), LastBody(refs[k - 1].subs, TAG_SOURCE);
      KeyInjective(c, s, context, source);
    }
  }

  /** What is kept under a key. */
  function Kept(entries: Dictionary, key: string): Option<string> {
    if key in entries then Some(entries[key]) else None
  }

  /** The last record with a key decides; without one, what was kept before stays. */
  lemma {:induction false} EntryOfLast(prior: Dictionary, refs: seq<Ref>, key: string)
    ensures var k := LastMatch(refs, key);
            Kept(EnterAll(prior, refs), key) ==
            if k == 0 then Kept(prior, key)
            else Some(Transcode(LastBody(refs[k - 1].subs, TAG_TRANSLATION), CODED_BOUND))
    decreases |refs|
  {
    hide Key, RecordOf, LastBody, Transcode;
    if refs != [] {
      var n := |refs| - 1;
      EntryOfLast(prior, refs[..n], key);
      RecordParts(refs[n].subs);
    }
  }

  // ---------------------------------------------------------------- one load after another

  /** Loading any bytes lays what they hold over what was there before, and nothing else is changed. */
  lemma {:induction false} LoadMerges(data: Bytes, entries: Dictionary)
    ensures var alone := Load(data, map[]);
            Load(data, entries) == Loaded(alone.ok, entries + alone.entries)
  {
    hide ScanChunks, LoadMessages;
    var dir := ScanChunks(data, |MAGIC|, NO_DIRECTORY);
    if MAGIC <= data && dir.Some? && dir.value.offsets != UNSET {
      MessagesMerge(data, dir.value, dir.value.count, entries);
    }
  }

  lemma {:induction false} MessagesMerge(data: Bytes, dir: Directory, m: nat, entries: Dictionary)
    requires dir.offsets + 8 * m <= |data|
    ensures var alone := LoadMessages(data, dir, m, map[]);
            LoadMessages(data, dir, m, entries) == Loaded(alone.ok, entries + alone.entries)
    decreases m
  {
    hide ReadRecord, Be32, Key;
    if m > 0 { MessagesMerge(data, dir, m - 1, entries); }
  }

  /**
   After a second load, of any bytes, a key is unknown exactly when neither load enters it,
   and it has what the second alone would give exactly when that enters it or the first does
   not.
   */
  lemma {:induction false} SecondLoad(first: Bytes, second: Bytes, key: string)
    ensures var one, two := Kept(Load(first, map[]).entries, key), Kept(Load(second, map[]).entries, key);
            var both := Kept(Load(second, Load(first, map[]).entries).entries, key);
            && (both.None? <==> one.None? && two.None?)
            && (both == two <==> two.Some? || one.None?)
            && (two.None? ==> both == one)
  {
    hide Load;
    LoadMerges(second, Load(first, map[]).entries);
  }

  /** The same by the records of two well-formed files. */
  lemma {:induction false} SecondFile(f: Layout, g: Layout, key: string)
    requires WellFormed(f) && WellFormed(g)
    ensures var first, second := LastMatch(Entered(f), key), LastMatch(Entered(g), key);
            var alone := Kept(Load(FileBytes(g.chunks), map[]).entries, key);
            var both := Kept(Load(FileBytes(g.chunks), Load(FileBytes(f.chunks), map[]).entries).entries, key);
            && (both.None? <==> first == 0 && second == 0)
            && (both == alone <==> second > 0 || first == 0)
  {
    var fs, gs := Entered(f), Entered(g);
    hide FileBytes, Load, EnterAll, Entered, WellFormed, LastMatch, Transcode, LastBody;
    LoadFile(f, map[]);
    LoadFile(g, map[]);
    SecondLoad(FileBytes(f.chunks), FileBytes(g.chunks), key);
    EntryOfLast(map[], fs, key);
    EntryOfLast(map[], gs, key);
  }

  /** A file with messages, of which the index refers to those at the start. */
  function SmallFile(messages: Bytes, refs: seq<Ref>): Layout {
    Layout([AnyChunk(TAG_MESSAGES, messages), AnyChunk(TAG_OFFSETS, IndexBytes(refs))], 1, 0, refs, "")
  }

  lemma {:induction false} SmallFileSize(messages: Bytes, refs: seq<Ref>)
    ensures var cs := SmallFile(messages, refs).chunks;
            |FileBytes(cs)| == 26 + |messages| + 8 * |refs| && StartOf(cs, 0) == 21
  {
    hide ChunkBytes, IndexBytes;
    var cs := SmallFile(messages, refs).chunks;
    ListLast(cs);
    ListLast(cs[..1]);
    assert cs[..1] == [cs[0]] && cs[..1][..0] == cs[..0] == [];
  }

  lemma {:induction false} OneRecord(subs: seq<Sub>)
    requires |RecordBytes(subs)| < 100
    ensures var f := SmallFile(RecordBytes(subs), [Ref(0, 0, subs)]); WellFormed(f) && Entered(f) == f.refs
  {
    hide RecordBytes, FileBytes, IndexBytes, StartOf;
    var refs := [Ref(0, 0, subs)];
    var f := SmallFile(RecordBytes(subs), refs);
    SmallFileSize(RecordBytes(subs), refs);
    var post := BodyInFile(f.chunks, 0);
    assert Followed(f, refs[0]) && Complete(f, 1) == 1;
  }

  lemma {:induction false} NoRecord()
    ensures var f := SmallFile("", []); WellFormed(f) && Entered(f) == f.refs
  {
    hide FileBytes, StartOf;
    SmallFileSize("", []);
  }

  /** Nothing is cleared between two loads: an empty second file leaves the first one's translation in place. */
  lemma {:induction false} FirstLoadStays()
    ensures var subs := [AnyChunk(TAG_SOURCE, "s"), AnyChunk(TAG_TRANSLATION, "\0t")];
            var first := FileBytes(SmallFile(RecordBytes(subs), [Ref(0, 0, subs)]).chunks);
            var second, key := FileBytes(SmallFile("", []).chunks), Key("", "s");
            && Load(second, map[]) == Loaded(true, map[])
            && Kept(Load(second, Load(first, map[]).entries).entries, key) == Some("t")
  {
    var subs := [AnyChunk(TAG_SOURCE, "s"), AnyChunk(TAG_TRANSLATION, "\0t")];
    var refs := [Ref(0, 0, subs)];
    var f, g, key := SmallFile(RecordBytes(subs), refs), SmallFile("", []), Key("", "s");
    assert LastBody(subs, TAG_TRANSLATION) == "\0t" && HasKey(refs[0], key) by {
      LastBodyIsLast(subs, 0);
      LastBodyIsLast(subs, 1);
      NoBody(subs, TAG_CONTEXT);
    }
    assert |RecordBytes(subs)| < 100 by {
      ListLast(subs);
      ListLast(subs[..1]);
    }
    assert Transcode("\0t", CODED_BOUND) == "t";
    hide FileBytes, Load, Transcode, RecordBytes, IndexBytes, LastBody, WellFormed, Entered;
    OneRecord(subs);
    NoRecord();
    LoadFile(f, map[]);
    LoadFile(g, map[]);
    EntryOfLast(map[], refs, key);
    SecondLoad(FileBytes(f.chunks), FileBytes(g.chunks), key);
  }
}
