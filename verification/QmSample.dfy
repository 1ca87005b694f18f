/** One whole translation file, byte by byte: what the loader makes of it, and what is then shown. */
module QmSample {
  import opened Formatting
  import opened Utf
  import opened Qm
  import opened QmFiles
  import I18n

  const HEAD: Bytes := [
    0x3c as char, 0xb8 as char, 0x64 as char, 0x18 as char, 0xca as char, 0xef as char, 0x9c as char, 0x95 as char,
    0xcd as char, 0x21 as char, 0x1c as char, 0xbf as char, 0x60 as char, 0xa1 as char, 0xbd as char, 0xdd as char]

  /** The context, the source and the translation of one record, and its end. */
  const CONTEXT: Bytes := [0x07 as char, 0 as char, 0 as char, 0 as char, 3 as char, 'c', 't', 'x']
  const SOURCE: Bytes := [0x06 as char, 0 as char, 0 as char, 0 as char, 3 as char, 's', 'r', 'c']
  const TRANSLATION: Bytes := [0x03 as char, 0 as char, 0 as char, 0 as char, 2 as char, 0 as char, 't']
  const RECORD: Bytes := CONTEXT + SOURCE + TRANSLATION + [0x01 as char]

  /** A byte that belongs to no record, and the record behind it. */
  const MESSAGES: Bytes := [0x69 as char, 0 as char, 0 as char, 0 as char, 25 as char] + ([0xff as char] + RECORD)

  /** A hash, and the place of the record. */
  const INDEX: Bytes := [0x42 as char, 0 as char, 0 as char, 0 as char, 8 as char] +
                 ([0x12 as char, 0x34 as char, 0x56 as char, 0x78 as char] +
                  [0 as char, 0 as char, 0 as char, 1 as char])

  const SAMPLE: Bytes := HEAD + MESSAGES + INDEX

  // ---------------------------------------------------------------- the same file by its parts

  const PARTS: seq<Sub> := [AnyChunk(TAG_CONTEXT, "ctx"), AnyChunk(TAG_SOURCE, "src"), AnyChunk(TAG_TRANSLATION, "\0t")]
  const REFS := [Ref(0x12345678, 1, PARTS)]

  lemma {:induction false} Words()
    ensures Word4(3) == [0 as char, 0 as char, 0 as char, 3 as char]
    ensures Word4(2) == [0 as char, 0 as char, 0 as char, 2 as char]
    ensures Word4(25) == [0 as char, 0 as char, 0 as char, 25 as char]
    ensures Word4(8) == [0 as char, 0 as char, 0 as char, 8 as char]
    ensures Word4(1) == [0 as char, 0 as char, 0 as char, 1 as char]
    ensures Word4(0x12345678) == [0x12 as char, 0x34 as char, 0x56 as char, 0x78 as char]
  {
  }

  lemma {:induction false} Chunks()
    ensures ChunkBytes(PARTS[0]) == CONTEXT && ChunkBytes(PARTS[1]) == SOURCE && ChunkBytes(PARTS[2]) == TRANSLATION
  {
    Words();
    hide Word4;
  }

  lemma {:induction false} RecordIs()
    ensures RecordBytes(PARTS) == RECORD && |RECORD| == 24
  {
    Chunks();
    hide ChunkBytes;
    ListLast(PARTS);
    ListLast(PARTS[..2]);
    ListLast(PARTS[..1]);
    assert PARTS[..2][..1] == PARTS[..1] && PARTS[..1][..0] == [];
    assert ListBytes(PARTS) == CONTEXT + SOURCE + TRANSLATION;
  }

  function Body(): Bytes
    ensures Body() == [0xff as char] + RECORD
  {
    RecordIs();
    assert IsByte(0xff as char);
    [0xff as char] + RecordBytes(PARTS)
  }

  lemma {:induction false} SampleIs()
    ensures SAMPLE == FileBytes(SmallFile(Body(), REFS).chunks)
  {
    RecordIs();
    Words();
    var cs := SmallFile(Body(), REFS).chunks;
    assert |Body()| == 25;
    assert IndexBytes(REFS) == Word4(0x12345678) + Word4(1) by { assert REFS[..0] == []; }
    assert ChunkBytes(cs[0]) == MESSAGES;
    assert ChunkBytes(cs[1]) == INDEX;
    hide ChunkBytes, Body, IndexBytes, Word4, RECORD;
    ListLast(cs);
    ListLast(cs[..1]);
    assert cs[..1][..0] == [];
    assert ListBytes(cs) == MESSAGES + INDEX;
    assert Magic() == HEAD;
    hide MESSAGES, INDEX, HEAD;
    assert HEAD + (MESSAGES + INDEX) == SAMPLE;
  }

  lemma {:induction false} SampleIsWellFormed()
    ensures var f := SmallFile(Body(), REFS); WellFormed(f) && Entered(f) == REFS
  {
    RecordIs();
    SmallFileSize(Body(), REFS);
    var f := SmallFile(Body(), REFS);
    var body, data := Body(), FileBytes(f.chunks);
    var post := BodyInFile(f.chunks, 0);
    assert body[1..25] == RecordBytes(PARTS);
    SubSlice(data, 21, 25, 1, 25);
    hide RECORD, RecordBytes, FileBytes, IndexBytes, StartOf, PARTS;
    assert Followed(f, REFS[0]) && Complete(f, 1) == 1;
  }

  lemma {:induction false} SampleRecord()
    ensures RecordOf(PARTS) == Record("ctx", "src", "t")
  {
    RecordParts(PARTS);
    LastBodyIsLast(PARTS, 0);
    LastBodyIsLast(PARTS, 1);
    LastBodyIsLast(PARTS, 2);
    assert Transcode("\0t", CODED_BOUND) == "t";
  }

  // ---------------------------------------------------------------- what is made of it

  /** The file is accepted, and enters its one message. */
  lemma {:induction false} SampleLoads(entries: Dictionary)
    ensures Load(SAMPLE, entries) == Loaded(true, entries["ctx" + "\0" + "src" := "t"])
  {
    SampleIs();
    SampleIsWellFormed();
    SampleRecord();
    hide SAMPLE, FileBytes, WellFormed, Load, RecordOf, Body, PARTS, Entered;
    LoadFile(SmallFile(Body(), REFS), entries);
    assert REFS[..0] == [];
  }

  /** With any of its first sixteen bytes changed, it is rejected. */
  lemma {:induction false} ChangedSampleFails(i: nat, c: char, entries: Dictionary)
    requires i < 16 && IsByte(c) && c != SAMPLE[i]
    ensures Load(SAMPLE[i := c], entries) == Loaded(false, entries)
  {
    assert MAGIC == HEAD && SAMPLE[i] == HEAD[i];
    assert SAMPLE[i := c][i] != MAGIC[i];
  }

  /** The order of the bytes of a number. */
  lemma {:induction false} WordOrder()
    ensures Be32([0x12 as char, 0x34 as char, 0x56 as char, 0x78 as char], 0) == 0x12345678
  {
  }

  /** Loading the file and asking for its message, and for others. */
  method ShowSample() returns (known: string, swapped: string, unknown: string)
    ensures known == "t" && swapped == "ctx" && unknown == "Error"
  {
    SampleLoads(map[]);
    hide Load, SAMPLE;
    var t := new I18n.Translations();
    var code := t.LoadContents(SAMPLE);
    assert ("ctx" + "\0" + "src")[0] == 'c' && ("src" + "\0" + "ctx")[0] == 's' && ("tools" + "\0" + "Error")[0] == 't';
    known := t.Translate("src", "ctx");
    swapped := t.Translate("ctx", "src");
    unknown := t.Translate("Error", "tools");
  }
}
