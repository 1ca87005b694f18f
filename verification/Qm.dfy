/**
 The loader for compiled Qt translation files: what it makes of any sequence of bytes.
 A file is a magic number and a list of chunks; one chunk indexes the messages in another.
 */
module Qm {
  import opened Formatting
  import opened Utf

  type Dictionary = map<string, string>

  const MAGIC: seq<char> := [
    0x3c as char, 0xb8 as char, 0x64 as char, 0x18 as char, 0xca as char, 0xef as char, 0x9c as char, 0x95 as char,
    0xcd as char, 0x21 as char, 0x1c as char, 0xbf as char, 0x60 as char, 0xa1 as char, 0xbd as char, 0xdd as char]

  /** The range of a 32-bit unsigned integer, and its largest value, which marks "not found". */
  const WORD := 0x1_0000_0000
  const UNSET := 0xffff_ffff

  const TAG_OFFSETS := 0x42 as char
  const TAG_MESSAGES := 0x69 as char
  const TAG_END := 0x01 as char
  const TAG_TRANSLATION := 0x03 as char
  const TAG_SOURCE := 0x06 as char
  const TAG_CONTEXT := 0x07 as char

  function Be32(data: Bytes, i: nat): (n: nat)
    requires i + 4 <= |data|
    ensures n < WORD
  {
    assert IsByte(data[i]) && IsByte(data[i + 1]) && IsByte(data[i + 2]) && IsByte(data[i + 3]);
    data[i] as int * 0x1000000 + data[i + 1] as int * 0x10000 + data[i + 2] as int * 0x100 + data[i + 3] as int
  }

  /** A chunk of `size` bytes whose contents would start at `start` reaches past the end, or is all of the file. */
  predicate Overruns(data: Bytes, start: nat, size: nat) {
    size >= |data| || start > |data| - size
  }

  datatype Option<+T> = None | Some(value: T)

  // ---------------------------------------------------------------- the chunk list

  /** Where the index starts, how many messages it has, and where the messages start; all 32-bit. */
  datatype Directory = Directory(offsets: nat, count: nat, messages: nat)

  const NO_DIRECTORY := Directory(UNSET, UNSET, UNSET)

  function Note(dir: Directory, tag: char, start: nat, size: nat): Directory {
    if tag == TAG_OFFSETS then dir.(offsets := start % WORD, count := size / 8)
    else if tag == TAG_MESSAGES then dir.(messages := start % WORD)
    else dir
  }

  /** Every entry of the index lies inside the file. */
  predicate IndexFits(data: Bytes, dir: Directory) {
    dir.offsets != UNSET ==> dir.offsets + 8 * dir.count <= |data|
  }

  function ScanChunks(data: Bytes, idx: nat, dir: Directory): (r: Option<Directory>)
    requires IndexFits(data, dir)
    ensures r.Some? ==> IndexFits(data, r.value)
    decreases |data| - idx
  {
    if idx >= |data| then Some(dir)
    else if idx + 5 > |data| then None
    else
      var size, start := Be32(data, idx + 1), idx + 5;
      if Overruns(data, start, size) then None
      else ScanChunks(data, start + size, Note(dir, data[idx], start, size))
  }

  // ---------------------------------------------------------------- one message

  datatype Record = Record(context: string, source: string, translation: string)

  const NO_RECORD := Record("", "", "")

  function Take(r: Record, tag: char, body: Bytes): Record {
    if tag == TAG_TRANSLATION then r.(translation := Transcode(body, CODED_BOUND))
    else if tag == TAG_SOURCE then r.(source := body)
    else if tag == TAG_CONTEXT then r.(context := body)
    else r
  }

  function ReadRecord(data: Bytes, idx: nat, r: Record): Option<Record>
    decreases |data| - idx
  {
    if idx + 5 > |data| then None
    else if data[idx] == TAG_END then Some(r)
    else
      var size, start := Be32(data, idx + 1), idx + 5;
      if Overruns(data, start, size) then None
      else ReadRecord(data, start + size, Take(r, data[idx], data[start..start + size]))
  }

  // ---------------------------------------------------------------- the whole file

  /** The key under which a translation is kept: context and source with a NUL between. */
  function Key(context: string, source: string): string {
    context + "\0" + source
  }

  /** The outcome of a load; what was entered before a mistake was met stays entered. */
  datatype Loaded = Loaded(ok: bool, entries: Dictionary)

  function Enter(entries: Dictionary, r: Record): Dictionary {
    entries[Key(r.context, r.source) := r.translation]
  }

  function LoadMessages(data: Bytes, dir: Directory, m: nat, entries: Dictionary): Loaded
    requires dir.offsets + 8 * m <= |data|
  {
    if m == 0 then Loaded(true, entries)
    else
      var before := LoadMessages(data, dir, m - 1, entries);
      if !before.ok then before
      else
        var idx := Be32(data, dir.offsets + (m - 1) * 8 + 4) + dir.messages;
        match ReadRecord(data, idx, NO_RECORD)
        case None => Loaded(false, before.entries)
        case Some(r) => Loaded(true, Enter(before.entries, r))
  }

  function Load(data: Bytes, entries: Dictionary): Loaded {
    if !(MAGIC <= data) then Loaded(false, entries)
    else
      match ScanChunks(data, |MAGIC|, NO_DIRECTORY)
      case None => Loaded(false, entries)
      case Some(dir) =>
        if dir.offsets == UNSET || dir.messages == UNSET then Loaded(false, entries)
        else LoadMessages(data, dir, dir.count, entries)
  }

  /** Once a message has failed, the ones after it change nothing. */
  lemma {:induction false} FailureStays(data: Bytes, dir: Directory, m: nat, n: nat, entries: Dictionary)
    requires m <= n && dir.offsets + 8 * n <= |data|
    requires !LoadMessages(data, dir, m, entries).ok
    ensures LoadMessages(data, dir, n, entries) == LoadMessages(data, dir, m, entries)
    decreases n - m
  {
    if m < n { FailureStays(data, dir, m, n - 1, entries); }
  }
}
