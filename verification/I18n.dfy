/** The translations of a running program, and how they are loaded and looked up. */
module I18n {
  import opened Formatting
  import opened Utf
  import opened Qm
  import opened Linker
  import opened Runtime

  /** A file outside the program: it may exist and yet fail to load. */
  datatype LocalFile = Unreadable | Readable(contents: Bytes)

  // ---------------------------------------------------------------- which file

  function PathOf(directory: string, base: string, language: string): string {
    directory + "/" + base + "_" + language + ".qm"
  }

  function EmbeddedName(base: string, language: string): string {
    base + "_" + language + ".qm"
  }

  /** Where the parts stand in a path; the embedded name is the path without the directory and its slash. */
  lemma {:induction false} PathParts(directory: string, base: string, language: string)
    ensures var path, d, b := PathOf(directory, base, language), |directory|, |directory| + 1 + |base|;
            var end := |path| - 3;
            && b < end && path[..d] == directory && path[d] == '/' && path[d + 1..b] == base && path[b] == '_'
            && path[b + 1..end] == language && path[end..] == ".qm"
            && EmbeddedName(base, language) == path[d + 1..]
  {
    var path, b := PathOf(directory, base, language), |directory| + 1 + |base|;
    assert path == directory + ("/" + base + "_" + language + ".qm");
    assert path == (directory + "/") + (base + "_" + language + ".qm");
    assert path == (directory + "/" + base) + ("_" + language + ".qm");
    assert path == (directory + "/" + base + "_") + (language + ".qm");
  }

  /** `strchr`: the first underscore of a C string. */
  function Underscore(s: string): (k: Option<nat>)
    ensures k.Some? ==> k.value < |s| && s[k.value] == '_' && forall i | 0 <= i < k.value :: s[i] != '_' && s[i] != '\0'
    ensures k.None? ==> '_' !in CString(s)
  {
    if s == "" || s[0] == '\0' then None
    else if s[0] == '_' then Some(0)
    else
      match Underscore(s[1..])
      case None => None
      case Some(i) => Some(i + 1)
  }

  datatype Fetched = Broken | Missing | Got(contents: string)

  /** Where translation files are looked for. */
  datatype Places = Places(local: map<string, LocalFile>, embedded: seq<Entry>, directory: string, base: string) {

    /** The file for a language is there: in the directory or, failing that, embedded, first under its name. */
    ghost predicate Offers(language: string, data: string) {
      var path, name := PathOf(directory, base, language), EmbeddedName(base, language);
      if path in local then local[path].Readable? && local[path].contents == data
      else exists i | 0 <= i < |embedded| ::
          embedded[i] == Entry(name, data) && forall j | 0 <= j < i :: embedded[j].name != name
    }

    /** There is no file for a language, neither readable nor broken. */
    predicate Absent(language: string) {
      && PathOf(directory, base, language) !in local
      && forall i | 0 <= i < |embedded| :: embedded[i].name != EmbeddedName(base, language)
    }

    /** A language without any file gives way to its part before the underscore. */
    ghost predicate Chosen(language: string, data: string) {
      var k := Underscore(language);
      Offers(language, data) || (Absent(language) && k.Some? && Offers(language[..k.value], data))
    }

    /** The outcome of a load for a language: the contents chosen are loaded; without any, nothing changes. */
    ghost predicate Sets(language: string, before: Dictionary, code: int, after: Dictionary) {
      && (forall data | Chosen(language, data) ::
            AllBytes(data) && Loaded(code == 0, after) == Load(data, before))
      && ((forall data :: !Chosen(language, data)) ==> code == -1 && after == before)
    }
  }

  lemma {:induction false} OffersIff(places: Places, language: string)
    requires PathOf(places.directory, places.base, language) !in places.local
    ensures var a := Lookup(places.embedded, EmbeddedName(places.base, language), "");
            && (forall data :: places.Offers(language, data) <==> a == Answer(true, data))
            && (places.Absent(language) <==> !a.found)
  {
  }

  /** The names that are asked for, spelled out; a file in the directory hides the embedded one, even if unreadable. */
  lemma {:induction false} OffersLiterally(data: Bytes, other: Bytes)
    requires data != other
    ensures Places(map["/t/scala_fr.qm" := Readable(data)], [], "/t", "scala").Offers("fr", data)
    ensures Places(map[], [Entry("scala_fr.qm", data)], "/t", "scala").Offers("fr", data)
    ensures Places(map["/t/scala_de.qm" := Readable(other)], [Entry("scala_de.qm", other)], "/t", "scala").Absent("fr")
    ensures var both := Places(map["/t/scala_fr.qm" := Readable(data)], [Entry("scala_fr.qm", other)], "/t", "scala");
            both.Offers("fr", data) && !both.Offers("fr", other)
    ensures var broken := Places(map["/t/scala_fr.qm" := Unreadable], [Entry("scala_fr.qm", data)], "/t", "scala");
            !broken.Absent("fr") && forall any :: !broken.Offers("fr", any)
  {
    assert PathOf("/t", "scala", "fr") == "/t/scala_fr.qm" && EmbeddedName("scala", "fr") == "scala_fr.qm";
    assert "/t/scala_fr.qm"[9] != "/t/scala_de.qm"[9] && "scala_fr.qm"[6] != "scala_de.qm"[6];
    hide PathOf, EmbeddedName;
    var embedded := Places(map[], [Entry("scala_fr.qm", data)], "/t", "scala");
    assert embedded.embedded[0] == Entry("scala_fr.qm", data);
  }

  predicate AllBytes(s: string) {
    forall i | 0 <= i < |s| :: IsByte(s[i])
  }

  predicate HoldsBytes(embedded: seq<Entry>) {
    forall i | 0 <= i < |embedded| :: AllBytes(embedded[i].data)
  }

  lemma {:induction false} ChosenBytes(places: Places, language: string, data: string)
    requires HoldsBytes(places.embedded) && places.Chosen(language, data)
    ensures AllBytes(data)
  {
  }

  function AsBytes(s: string): (b: Bytes)
    requires AllBytes(s)
    ensures b == s
  {
    s
  }

  lemma {:induction false} NotBoth(places: Places, language: string)
    ensures forall data :: !(places.Absent(language) && places.Offers(language, data))
  {
  }

  // ---------------------------------------------------------------- the translations

  class Translations {
    var entries: Dictionary

    constructor ()
      ensures entries == map[]
    {
      entries := map[];
    }

    /** The chunk list of `i18n_set_language`. */
    method FindChunks(data: Bytes) returns (r: Option<Directory>)
      requires |MAGIC| <= |data|
      ensures r == ScanChunks(data, |MAGIC|, NO_DIRECTORY)
    {
      hide Be32, MAGIC;
      var idx := |MAGIC|;
      var dir := NO_DIRECTORY;
      while idx < |data|
        invariant idx <= |data| && IndexFits(data, dir)
        invariant ScanChunks(data, idx, dir) == ScanChunks(data, |MAGIC|, NO_DIRECTORY)
      {
        if idx + 5 > |data| {
          return None;
        }
        var tag := data[idx];
        var size := Be32(data, idx + 1);
        idx := idx + 5;
        if size >= |data| || idx > |data| - size {
          return None;
        }
        dir := Note(dir, tag, idx, size);
        idx := idx + size;
      }
      return Some(dir);
    }

    /** The subchunks of the message at `start`, up to its end marker. */
    method LoadRecord(data: Bytes, start: nat) returns (r: Option<Record>)
      ensures r == ReadRecord(data, start, NO_RECORD)
    {
      hide Be32, Transcode;
      var idx := start;
      var record := NO_RECORD;
      while true
        invariant ReadRecord(data, idx, record) == ReadRecord(data, start, NO_RECORD)
        decreases |data| - idx
      {
        if idx + 5 > |data| {
          return None;
        }
        var tag := data[idx];
        if tag == TAG_END {
          return Some(record);
        }
        var size := Be32(data, idx + 1);
        if size >= |data| || idx + 5 > |data| - size {
          return None;
        }
        var body := data[idx + 5..idx + 5 + size];
        ghost var before := record;
        if tag == TAG_TRANSLATION {
          var translation := Utf16(body);
          record := record.(translation := translation);
        } else if tag == TAG_SOURCE {
          record := record.(source := body);
        } else if tag == TAG_CONTEXT {
          record := record.(context := body);
        }
        assert record == Take(before, tag, body);
        idx := idx + 5 + size;
      }
    }

    /** The messages of the index, one after the other; those before a mistake stay entered. */
    method LoadIndexed(data: Bytes, dir: Directory) returns (code: int)
      requires dir.offsets + 8 * dir.count <= |data|
      modifies this
      ensures code == 0 || code == -1
      ensures Loaded(code == 0, entries) == LoadMessages(data, dir, dir.count, old(entries))
    {
      hide Be32, ReadRecord, Qm.Enter;
      var m := 0;
      while m < dir.count
        invariant 0 <= m <= dir.count
        invariant LoadMessages(data, dir, m, old(entries)) == Loaded(true, entries)
      {
        var idx := Be32(data, dir.offsets + m * 8 + 4) + dir.messages;
        var record := None;
        if idx + 1 <= |data| {
          record := LoadRecord(data, idx);
        } else {
          RecordPastEnd(data, idx);
        }
        if record.None? {
          FailureStays(data, dir, m + 1, dir.count, old(entries));
          return -1;
        }
        entries := Qm.Enter(entries, record.value);
        m := m + 1;
      }
      return 0;
    }

    /** `i18n_set_language` from the point where the contents of the file are at hand. */
    method LoadContents(data: Bytes) returns (code: int)
      modifies this
      ensures code == 0 || code == -1
      ensures Loaded(code == 0, entries) == Load(data, old(entries))
    {
      hide ScanChunks, LoadMessages, MAGIC;
      if |data| < |MAGIC| || data[..|MAGIC|] != MAGIC {
        return -1;
      }
      var found := FindChunks(data);
      if found.None? {
        return -1;
      }
      var dir := found.value;
      if dir.offsets == UNSET || dir.messages == UNSET {
        return -1;
      }
      code := LoadIndexed(data, dir);
    }

    /** One round of the search in `i18n_set_language`. */
    method FetchFile(local: map<string, LocalFile>, image: Image, directory: string, base: string, language: string)
      returns (r: Fetched)
      requires Searches(image)
      ensures var places := Places(local, Listing(image), directory, base);
              && (forall data :: r == Got(data) <==> places.Offers(language, data))
              && (r == Missing <==> places.Absent(language))
    {
      hide Lookup, Listing;
      var path := PathOf(directory, base, language);
      if path in local {
        if local[path].Unreadable? {
          return Broken;
        }
        return Got(local[path].contents);
      }
      var found, contents := FindEmbeddedFile(image, EmbeddedName(base, language), "");
      OffersIff(Places(local, Listing(image), directory, base), language);
      return if found then Got(contents) else Missing;
    }

    /** The search for the contents to load: at most two rounds. */
    method FindContents(local: map<string, LocalFile>, image: Image, directory: string, base: string, language: string)
      returns (r: Option<string>)
      requires Searches(image)
      ensures forall data :: r == Some(data) <==> Places(local, Listing(image), directory, base).Chosen(language, data)
    {
      ghost var places := Places(local, Listing(image), directory, base);
      hide Places.Offers, Places.Absent, Listing;
      var first := FetchFile(local, image, directory, base, language);
      if !first.Missing? {
        NotBoth(places, language);
        return if first.Got? then Some(first.contents) else None;
      }
      var k := Underscore(language);
      if k.None? {
        return None;
      }
      var second := FetchFile(local, image, directory, base, language[..k.value]);
      return if second.Got? then Some(second.contents) else None;
    }

    /**
     `i18n_set_language`: a null pointer is `None`; `system` is the language of the
     environment, which counts only if no language is given.
     */
    method SetLanguage(directory: Option<string>, base: Option<string>, language: string, system: string,
                       local: map<string, LocalFile>, image: Image) returns (code: int)
      requires Searches(image) && HoldsBytes(Listing(image))
      modifies this
      ensures code == 0 || code == -1
      ensures directory.None? || base.None? ==> code == -1 && entries == old(entries)
      ensures directory.Some? && base.Some? && language != "" ==>
                Places(local, Listing(image), directory.value, base.value).Sets(language, old(entries), code, entries)
      ensures directory.Some? && base.Some? && language == "" ==>
                Places(local, Listing(image), directory.value, base.value).Sets(system, old(entries), code, entries)
    {
      hide Load, Listing, Places.Chosen, AllBytes;
      if directory.None? || base.None? {
        return -1;
      }
      var wanted := language;
      if wanted == "" {
        wanted := system;
      }
      ghost var places := Places(local, Listing(image), directory.value, base.value);
      var r := FindContents(local, image, directory.value, base.value, wanted);
      if r.None? {
        return -1;
      }
      assert places.Chosen(wanted, r.value);
      ChosenBytes(places, wanted, r.value);
      code := LoadContents(AsBytes(r.value));
    }

    /** `i18n_translate`: the translation up to its first NUL or, if there is none, the string asked for. */
    function Translate(s: string, context: string): (r: string)
      reads this
      ensures context + "\0" + s !in entries ==> r == s
      ensures context + "\0" + s in entries ==>
                var translation := entries[context + "\0" + s];
                r <= translation && '\0' !in r && (r == translation || translation[|r|] == '\0')
    {
      var key := Key(context, s);
      if key in entries then CString(entries[key]) else s
    }
  }

  lemma {:induction false} RecordPastEnd(data: Bytes, idx: nat)
    requires idx + 1 > |data|
    ensures ReadRecord(data, idx, NO_RECORD).None?
  {
  }
}
