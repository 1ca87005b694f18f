/**
 From a translator's messages to what the program shows: the messages are compiled into
 a file, the file is embedded by the generator, found again by the emitted lookup, loaded,
 and asked for one translation.
 */
module Shipping {
  import opened Formatting
  import opened Header
  import opened Generator
  import opened Linker
  import opened Runtime
  import opened Correctness
  import opened EndToEnd
  import opened Utf
  import opened Qm
  import opened QmFiles
  import opened I18n

  lemma {:induction false} CStringPrefix(a: string, b: string)
    requires '\0' !in a
    ensures CString(a + b) == a + CString(b)
    decreases |a|
  {
    if a == "" {
      assert a + b == b;
    } else {
      assert (a + b)[1..] == a[1..] + b;
      CStringPrefix(a[1..], b);
    }
  }

  /** What is shown for a translation is that translation exactly when it has no NUL and stays in the basic plane. */
  lemma {:induction false} ShownText(text: seq<Scalar>)
    ensures DecodeUtf8(CString(Utf8Text(text))) == Decoded(text) <==>
            forall i | 0 <= i < |text| :: 0 < text[i] < 0x10000
    decreases |text|
  {
    if text != [] {
      var rest, code := text[1..], Converted(text[0]);
      NulOrNot(text[0], Utf8Text(rest));
      if text[0] != 0 {
        hide Utf8, DecodeUtf8, CString;
        DecodeOne(code, CString(Utf8Text(rest)));
        ShownText(rest);
        assert text == [text[0]] + rest;
        assert forall i | 0 < i < |text| :: text[i] == rest[i - 1];
        assert forall i | 0 <= i < |rest| :: rest[i] == text[i + 1];
      }
    }
  }

  /** A character ends the C string exactly when it is NUL. */
  lemma {:induction false} NulOrNot(v: Scalar, rest: string)
    ensures CString(Utf8(Converted(v)) + rest) == if v == 0 then "" else Utf8(Converted(v)) + CString(rest)
  {
    if v == 0 {
      assert Utf8(0)[0] == '\0';
    } else {
      assert '\0' !in Utf8(Converted(v));
      hide Utf8;
      CStringPrefix(Utf8(Converted(v)), rest);
    }
  }

  lemma {:induction false} ShownBody(body: Bytes)
    ensures forall text | body == EncodeUtf16(text) ::
              DecodeUtf8(CString(Transcode(body, CODED_BOUND))) == Decoded(text) <==>
              forall i | 0 <= i < |text| :: 0 < text[i] < 0x10000
  {
    hide Transcode, DecodeUtf8, CString, Utf8Text, EncodeUtf16;
    forall text | body == EncodeUtf16(text)
      ensures DecodeUtf8(CString(Transcode(body, CODED_BOUND))) == Decoded(text) <==>
              forall i | 0 <= i < |text| :: 0 < text[i] < 0x10000
    {
      TranscodeText(text, CODED_BOUND);
      ShownText(text);
    }
  }

  /** A text, up to its first NUL. */
  predicate UpToNul(shown: string, text: string) {
    shown <= text && '\0' !in shown && (shown == text || text[|shown|] == '\0')
  }

  /** What is shown for a key out of a dictionary. */
  predicate ShownFor(entries: Dictionary, key: string, source: string, shown: string) {
    && (key in entries ==> UpToNul(shown, entries[key]))
    && (key !in entries ==> shown == source)
  }

  predicate ShownFrom(entries: Dictionary, context: string, source: string, shown: string) {
    ShownFor(entries, context + "\0" + source, source, shown)
  }

  lemma {:induction false} UpToNulIsCString(shown: string, text: string)
    ensures UpToNul(shown, text) <==> shown == CString(text)
  {
    if UpToNul(shown, text) {
      assert CString(text) == text[..|CString(text)|] && shown == text[..|shown|];
    }
  }

  /**
   What is shown comes from the last record with a key; without one, from what was there
   before; without that, it is the source.
   */
  ghost predicate DecidedByKey(shown: string, prior: Dictionary, refs: seq<Ref>, key: string, source: string) {
    var k := LastMatch(refs, key);
    && (k == 0 && key !in prior ==> shown == source)
    && (k == 0 && key in prior ==> UpToNul(shown, prior[key]))
    && (k > 0 ==>
          var body := LastBody(refs[k - 1].subs, TAG_TRANSLATION);
          && UpToNul(shown, Transcode(body, CODED_BOUND))
          && forall text | body == EncodeUtf16(text) ::
               DecodeUtf8(shown) == Decoded(text) <==> forall i | 0 <= i < |text| :: 0 < text[i] < 0x10000)
  }

  /** Where neither holds a NUL, that record is the last one with this context and this source. */
  ghost predicate DecidedByLast(shown: string, prior: Dictionary, refs: seq<Ref>, context: string, source: string) {
    var k := LastMatch(refs, context + "\0" + source);
    && DecidedByKey(shown, prior, refs, context + "\0" + source, source)
    && ('\0' !in context && '\0' !in source ==>
          && (k > 0 ==> Matches(refs[k - 1], context, source))
          && (forall i | k <= i < |refs| :: !Matches(refs[i], context, source)))
  }

  lemma {:induction false} KeyDecides(prior: Dictionary, refs: seq<Ref>, key: string, source: string, shown: string)
    requires ShownFor(EnterAll(prior, refs), key, source, shown)
    ensures DecidedByKey(shown, prior, refs, key, source)
  {
    hide Transcode, DecodeUtf8, CString, LastMatch, EnterAll, LastBody, EncodeUtf16, UpToNul;
    EntryOfLast(prior, refs, key);
    var k := LastMatch(refs, key);
    if k > 0 {
      var body := LastBody(refs[k - 1].subs, TAG_TRANSLATION);
      UpToNulIsCString(shown, Transcode(body, CODED_BOUND));
      ShownBody(body);
    }
  }

  lemma {:induction false} LastDecides(prior: Dictionary, refs: seq<Ref>, context: string, source: string,
                                       shown: string)
    requires ShownFrom(EnterAll(prior, refs), context, source, shown)
    ensures DecidedByLast(shown, prior, refs, context, source)
  {
    hide LastMatch, EnterAll, Matches, ShownFor, DecidedByKey;
    KeyDecides(prior, refs, context + "\0" + source, source, shown);
    if '\0' !in context && '\0' !in source { LastMatchIsLast(refs, context, source); }
  }

  // ---------------------------------------------------------------- which file, by what is on disk

  /** The places that are searched by a program into which some files are embedded. */
  function PlacesOf(args: seq<Argument>, disk: Disk, local: map<string, LocalFile>, directory: string,
                    base: string): Places
    requires forall i | 0 <= i < |args| :: args[i] in disk
  {
    Places(local, Entries(FilesOf(args, disk)), directory, base)
  }

  /** The file for a language, in the directory or among the arguments. */
  predicate OnDisk(args: seq<Argument>, disk: Disk, places: Places, language: string, data: string) {
    var path, name := PathOf(places.directory, places.base, language), EmbeddedName(places.base, language);
    if path in places.local then places.local[path].Readable? && places.local[path].contents == data
    else name in args && name in disk && disk[name] == data
  }

  lemma {:induction false} OffersOnDisk(args: seq<Argument>, disk: Disk, places: Places, language: string, data: string)
    requires forall i | 0 <= i < |args| :: args[i] in disk
    requires places.embedded == Entries(FilesOf(args, disk))
    ensures places.Offers(language, data) <==> OnDisk(args, disk, places, language, data)
    ensures places.Absent(language) <==>
            && PathOf(places.directory, places.base, language) !in places.local
            && EmbeddedName(places.base, language) !in args
  {
    hide Lookup, PathOf, EmbeddedName;
    if PathOf(places.directory, places.base, language) !in places.local {
      LookupOnDisk(args, disk, EmbeddedName(places.base, language), "");
      OffersIff(places, language);
    }
  }

  /**
   The file of a language is chosen; if neither the directory nor the arguments have one,
   that of its part before the underscore.
   */
  lemma {:induction false} ChosenOnDisk(args: seq<Argument>, disk: Disk, places: Places, language: string, data: string)
    requires forall i | 0 <= i < |args| :: args[i] in disk
    requires places.embedded == Entries(FilesOf(args, disk))
    ensures places.Chosen(language, data) <==>
            var k := Underscore(language);
            || OnDisk(args, disk, places, language, data)
            || (&& PathOf(places.directory, places.base, language) !in places.local
                && EmbeddedName(places.base, language) !in args
                && k.Some? && OnDisk(args, disk, places, language[..k.value], data))
  {
    hide PathOf, EmbeddedName, OnDisk, Places.Offers, Places.Absent;
    OffersOnDisk(args, disk, places, language, data);
    var k := Underscore(language);
    if k.Some? { OffersOnDisk(args, disk, places, language[..k.value], data); }
  }

  /** A file that is embedded under the language's name, and not in the directory. */
  lemma {:induction false} EmbeddedIsChosen(args: seq<Argument>, disk: Disk, places: Places, language: string)
    requires forall i | 0 <= i < |args| :: args[i] in disk
    requires places.embedded == Entries(FilesOf(args, disk))
    requires PathOf(places.directory, places.base, language) !in places.local
    requires EmbeddedName(places.base, language) in args
    ensures places.Chosen(language, disk[EmbeddedName(places.base, language)])
  {
    hide PathOf, EmbeddedName, Places.Chosen;
    ChosenOnDisk(args, disk, places, language, disk[EmbeddedName(places.base, language)]);
  }

  /** A language with a country, and a file embedded for the language alone. */
  lemma {:induction false} CountryGivesWay(args: seq<Argument>, disk: Disk, places: Places, language: string,
                                           country: string)
    requires forall i | 0 <= i < |args| :: args[i] in disk
    requires places.embedded == Entries(FilesOf(args, disk)) && '_' !in language && '\0' !in language
    requires var full := language + "_" + country;
             PathOf(places.directory, places.base, full) !in places.local && EmbeddedName(places.base, full) !in args
    requires PathOf(places.directory, places.base, language) !in places.local
    requires EmbeddedName(places.base, language) in args
    ensures places.Chosen(language + "_" + country, disk[EmbeddedName(places.base, language)])
  {
    hide PathOf, EmbeddedName, Places.Chosen;
    UnderscoreAt(language, country);
    assert (language + "_" + country)[..|language|] == language;
    ChosenOnDisk(args, disk, places, language + "_" + country, disk[EmbeddedName(places.base, language)]);
  }

  lemma {:induction false} UnderscoreAt(a: string, b: string)
    requires '_' !in a && '\0' !in a
    ensures Underscore(a + "_" + b) == Some(|a|)
    decreases |a|
  {
    if a != "" {
      assert (a + "_" + b)[1..] == a[1..] + "_" + b;
      UnderscoreAt(a[1..], b);
    }
  }

  /** Where no argument starts with the base of the program, no embedded file is ever chosen. */
  lemma {:induction false} OtherBase(args: seq<Argument>, disk: Disk, places: Places, language: string, data: string)
    requires forall i | 0 <= i < |args| :: args[i] in disk && !(places.base <= args[i])
    requires places.embedded == Entries(FilesOf(args, disk))
    requires places.Chosen(language, data)
    ensures exists path | path in places.local :: places.local[path] == Readable(data)
  {
    ChosenOnDisk(args, disk, places, language, data);
    forall l: string ensures EmbeddedName(places.base, l) !in args {
      assert places.base <= EmbeddedName(places.base, l);
    }
  }

  // ---------------------------------------------------------------- the whole way

  /** A load for a language, and what it enters of a well-formed file. */
  ghost predicate LoadsFor(places: Places, language: string, prior: Dictionary, code: int, entries: Dictionary) {
    && places.Sets(language, prior, code, entries)
    && forall f | WellFormed(f) && places.Chosen(language, FileBytes(f.chunks)) ::
         code == (if Entered(f) == f.refs then 0 else -1) && entries == EnterAll(prior, Entered(f))
  }

  lemma {:induction false} SetsLoads(places: Places, language: string, prior: Dictionary, code: int,
                                     entries: Dictionary)
    requires places.Sets(language, prior, code, entries) && (code == 0 || code == -1)
    ensures LoadsFor(places, language, prior, code, entries)
  {
    hide Load, Places.Chosen;
    forall f | WellFormed(f) && places.Chosen(language, FileBytes(f.chunks))
      ensures code == (if Entered(f) == f.refs then 0 else -1) && entries == EnterAll(prior, Entered(f))
    {
      ghost var entered := Entered(f);
      hide FileBytes, EnterAll, WellFormed, Entered;
      LoadFile(f, prior);
    }
  }

  /**
   Embed, look up, load into what earlier loads left: the contents that the search chooses
   are loaded, those of a well-formed file entered up to the first record that is not
   followed by four bytes, and without any nothing changes.
   */
  method EmbedAndLoad(argv: seq<Argument>, disk: Disk, local: map<string, LocalFile>, directory: string, base: string,
                      language: string, system: string, prior: Dictionary) returns (code: int, t: Translations)
    requires LengthsFit(Arguments(argv), disk)
    requires forall i | 1 <= i < |argv| :: argv[i] in disk && SafeName(argv[i]) && disk[argv[i]] != ""
    ensures forall i | 0 <= i < |Arguments(argv)| :: Arguments(argv)[i] in disk
    ensures var places := PlacesOf(Arguments(argv), disk, local, directory, base);
            && (language != "" ==> LoadsFor(places, language, prior, code, t.entries))
            && (language == "" ==> LoadsFor(places, system, prior, code, t.entries))
  {
    hide SafeName, Listing, AllBytes, Load, Places.Sets, LoadsFor;
    var image := Embed(argv, disk);
    EntriesHoldBytes(FilesOf(Arguments(argv), disk));
    t := new Translations();
    t.entries := prior;
    code := t.SetLanguage(Some(directory), Some(base), language, system, local, image);
    ghost var places := PlacesOf(Arguments(argv), disk, local, directory, base);
    SetsLoads(places, if language == "" then system else language, prior, code, t.entries);
  }

  /** What is shown after a load for a language. */
  ghost predicate Shows(places: Places, language: string, prior: Dictionary, context: string, source: string,
                        shown: string) {
    && (forall f | WellFormed(f) && places.Chosen(language, FileBytes(f.chunks)) ::
          DecidedByLast(shown, prior, Entered(f), context, source))
    && (forall data | places.Chosen(language, data) ::
          AllBytes(data) && ShownFrom(Load(data, prior).entries, context, source, shown))
    && ((forall data :: !places.Chosen(language, data)) ==> ShownFrom(prior, context, source, shown))
  }

  lemma {:induction false} LoadsShow(places: Places, language: string, prior: Dictionary, code: int,
                                     entries: Dictionary, context: string, source: string, shown: string)
    requires LoadsFor(places, language, prior, code, entries) && ShownFrom(entries, context, source, shown)
    ensures Shows(places, language, prior, context, source, shown)
  {
    hide Load, Places.Chosen, DecidedByLast, ShownFrom, AllBytes;
    forall f | WellFormed(f) && places.Chosen(language, FileBytes(f.chunks))
      ensures DecidedByLast(shown, prior, Entered(f), context, source)
    {
      LastDecides(prior, Entered(f), context, source, shown);
    }
  }

  /** Embed, look up, load into what earlier loads left, translate. */
  method EmbedAndTranslate(argv: seq<Argument>, disk: Disk, local: map<string, LocalFile>, directory: string,
                           base: string, language: string, system: string, prior: Dictionary,
                           context: string, source: string) returns (shown: string)
    requires LengthsFit(Arguments(argv), disk)
    requires forall i | 1 <= i < |argv| :: argv[i] in disk && SafeName(argv[i]) && disk[argv[i]] != ""
    ensures forall i | 0 <= i < |Arguments(argv)| :: Arguments(argv)[i] in disk
    ensures var places := PlacesOf(Arguments(argv), disk, local, directory, base);
            && (language != "" ==> Shows(places, language, prior, context, source, shown))
            && (language == "" ==> Shows(places, system, prior, context, source, shown))
  {
    hide SafeName, Entries, LoadsFor, Shows;
    var code, t := EmbedAndLoad(argv, disk, local, directory, base, language, system, prior);
    shown := t.Translate(source, context);
    ghost var places := PlacesOf(Arguments(argv), disk, local, directory, base);
    LoadsShow(places, if language == "" then system else language, prior, code, t.entries, context, source, shown);
  }

  lemma {:induction false} EntriesHoldBytes(files: seq<File>)
    ensures HoldsBytes(Entries(files))
  {
  }
}
