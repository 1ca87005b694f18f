# Embedded translations, from a translator's messages to the screen

Scala ships its translations inside its programs. A small C program,
`translations/generate_translations_header.c`, turns a list of files into one C++ header: each
file becomes a string made of adjacent `"\xNN..."` literals, a table points at the strings, and
an emitted function, `find_embedded_file`, searches the table. At run time
`src/common/i18n.cpp` asks that function for a compiled Qt translation file, reads it, and looks
translations up in it. This project models both programs and proves that what comes out is what
went in, or says exactly when it does not.

The two programs meet only if the names agree. In this repository they do not: the build embeds
every `*.ts` of `translations/` (`translations/CMakeLists.txt`), all of them `monero*.ts`, and the
wallet asks for the base `scala` (`src/wallet/wallet_args.cpp:135`). `Shipping.OtherBase` says what
follows: no embedded file is ever chosen. The results below are therefore about any names and any
base, with the files that are chosen given by what lies on disk (`Shipping.ChosenOnDisk`).

## How the model is built

The generator is a compiler, so its model has a printer and, written independently of it from
ISO/IEC 14882:2011, a reader for the fragment of C++ that is emitted. The reader holds no copy of what is
printed: the members of the structure are kept by name and order, and the function is parsed into a
tree, which an interpreter runs on the linked table. To read past the table or through a null
pointer is an error there.

| layer | files |
|---|---|
| the text of a header, by its layout; the generator's loops | `Formatting`, `Header`, `Generator` |
| the reader: translation phases 1 and 2, tokens, declarations, the function's tree, linking | `Lexer`, `Parser`, `Syntax`, `Linker` |
| the interpreter, and what a search should answer | `Runtime` |
| proofs about the reader on generated text | `Reading`, `ReadingHeader`, `ParsingHeader`, `RawNames`, `Scanning`, `Reader`, `Phases`, `Linking`, `LookupCode` |
| main results on the generator | `Correctness`, `DataBlocks`, `EndToEnd`, `HeaderSample` |
| the translation loader: text conversion, file format, `i18n_set_language` | `Utf`, `Qm`, `QmFiles`, `QmAcceptance`, `QmSample`, `I18n` |
| both programs, one after the other | `Shipping` |

The tokenizer and the parser are left folds over characters and tokens. A hexadecimal escape
therefore ends only when a character arrives that is not a hexadecimal digit, and facts about
pieces of text compose by concatenation. `Reading.Reads(text, tokens)` is such a fact.

A name is printed raw between quotes, so what the reader makes of it has to be said for every
name, also one that closes the literal and continues with declarations of its own. `RawNames`
does this by a potential: characters that are not taken as they stand cost more text than they
decode to, so such a name breaks the header or is bound to a strictly shorter string.

Where the code does not do what its purpose asks for, the model follows the code, and a lemma
gives the exact condition:

- an empty file makes the generator print a lone quote, and the reader accepts no header with one;
- a name with a quote, a backslash, a newline or a trigraph is lost;
- `utf16` subtracts 0x35dfc00 where a surrogate pair needs 0x35fdc00, so every character beyond
  the basic plane comes out 0x1e000 too high;
- `utf16` compares with 0xdbfff where the high surrogates end at 0xdbff;
- the loader wants four more bytes after every end marker, also after the last one of a file;
- `i18n_entries` is never cleared, so what an earlier language left is shown where a later one has
  no message.

"Compiles" means throughout: is accepted by the reader, which knows the emitted fragment of C++
and neither comments, macros, conditional directives, raw literals, encoding prefixes nor universal
character names. A statement about every list of files, names that are unsafe to print raw
included, is one about that reader. A name that opens a comment can hide an empty file from a C++
compiler, and nothing here excludes that.

The usage comment of the generator redirects standard output; the code opens
`translation_files.h` itself, and the model follows the code. Command-line arguments are C
strings, files are sequences of bytes, the disk is a map from names to files, and whether the
output file can be opened is a parameter. File lengths must be within C's `int`, because `j` is
one.

## Model

| member | source | states |
|---|---|---|
| `Correctness.TranslationCorrect` | translations/generate_translations_header.c:25-87 | for every list of files: running the function read from the header, on the table read from it, ends and answers every lookup as a search through the files would, if and only if no file is empty and every name is safe to print raw; the same for the evaluated table being the list of files |
| `Correctness.CompiledHeader` | translations/generate_translations_header.c:49-82 | for every list of files, unsafe names included: if the reader, which knows the emitted fragment only, compiles the header, its rows are one per file in order and then one NULL row, each row's data is that file's bytes, no file is empty, and a row's name is the file's name or, if that is unsafe, strictly shorter; the structure has the members `name` and `data` in that order, and the function is one fixed tree |
| `Correctness.CompiledSearches` | translations/generate_translations_header.c:25-35 | for every list of files: the function of a header that compiles, run, ends for every name and string with the answer of a search through its table |
| `LookupCode.CodeParses` | translations/generate_translations_header.c:26-35 | the tokens of the printed function are parsed into that tree: its parameters, the loop, its guard, the member compared, the member assigned, and the two returns |
| `LookupCode.CallIsLookup` | translations/generate_translations_header.c:26-35 | for every table with a sentinel: running the tree never reads past the sentinel, ends, and gives the answer of the search |
| `Correctness.HeaderCompiles` | translations/generate_translations_header.c:45-82 | the header of embeddable files compiles: every variable is defined once and every row resolves |
| `Correctness.EmbeddableIsFaithful` | translations/generate_translations_header.c:54-79 | for embeddable files the evaluated table equals the list of names and contents in argument order |
| `Correctness.BehavesOnlyIfEmbeddable` | translations/generate_translations_header.c:54-65 | if the reader compiles the header and every lookup is answered correctly, then every name is safe and no file is empty; comments and macros in names are outside the reader |
| `Correctness.SentinelIsLast` | translations/generate_translations_header.c:75-79 | the only NULL name of a generated table is in its last row |
| `Correctness.NoEmptyFile` | translations/generate_translations_header.c:56-65 | a header that the reader compiles has no empty file in it; a name that would hide one in a comment is outside the reader |
| `Correctness.SpoiledHeaders` | translations/generate_translations_header.c:54-65 | two concrete inputs that fail: an empty file and a name with a quote |
| `EndToEnd.HeaderInjective` | translations/generate_translations_header.c:45-82 | no other list of files, embeddable or not, leads to the header text of embeddable files |
| `EndToEnd.PartialTextFails` | translations/generate_translations_header.c:49-53 | the text of a run that stops early never compiles, whatever the names |
| `EndToEnd.AbortedRun` | translations/generate_translations_header.c:49-82 | if argument k cannot be opened, the text written is a proper prefix of the text any disk gives that agrees before k and opens all arguments, with exactly the declarations of the files before k; it does not compile |
| `EndToEnd.LookupOnDisk` | translations/generate_translations_header.c:25-35 | the lookup over the files of a run finds exactly the arguments, each with its bytes on disk |
| `EndToEnd.EmbedAndFind` | translations/generate_translations_header.c:6-20 | generate, compile, look up: an argument's name gives back its bytes, any other name leaves the caller's string alone |
| `HeaderSample.HeaderOfOneFile` | translations/generate_translations_header.c:25-82 | the whole header of one file of two bytes, spelled out |
| `Generator.GenerateHeader` | translations/generate_translations_header.c:37-87 | exit status and text written, for every argument list and disk: all or nothing of the table, and failure exactly when some argument cannot be opened |
| `Generator.EmitFiles` | translations/generate_translations_header.c:49-68 | the first loop writes the declarations of the arguments before the first that cannot be opened |
| `Generator.EmitFile` | translations/generate_translations_header.c:54-66 | one argument adds its two declarations, numbered alike |
| `Generator.EmitData` | translations/generate_translations_header.c:56-65 | the byte loop with its implicit open literal writes the block that `Header` defines by cutting the contents into lines of sixteen, and the printed length is the number of bytes |
| `Generator.EmitTable` | translations/generate_translations_header.c:70-82 | the second loop writes one row per argument between the fixed texts |
| `Generator.InputFile.GetChar` | translations/generate_translations_header.c:56 | the next byte, or the end of the file and no change |
| `Generator.Opened` | translations/generate_translations_header.c:50 | the number of arguments before the first that cannot be opened |
| `Generator.ChunksAppend` | translations/generate_translations_header.c:57-62 | one more byte starts a new line after every sixteenth byte and lengthens the last line otherwise |
| `Generator.OpenBlockAppend` | translations/generate_translations_header.c:56-64 | one turn of the byte loop extends the block by what the test on `j` prints and one escape |
| `DataBlocks.ChunkShape` | translations/generate_translations_header.c:56-65 | every line but the last holds sixteen bytes, the last at least one, and together they hold the file |
| `DataBlocks.DataBlockSize` | translations/generate_translations_header.c:55-65 | a file of n > 0 bytes takes 4n + 5 * ceil(n / 16) characters up to the closing quote |
| `DataBlocks.QuotesBalance` | translations/generate_translations_header.c:56-65 | the quotes of a data block pair up if and only if the file is not empty |
| `DataBlocks.GreedyEscapesStop` | translations/generate_translations_header.c:61-65 | every backslash of a data block starts `\x` with two hexadecimal digits, followed by a backslash or a quote |
| `DataBlocks.LexesIffNotEmpty` | translations/generate_translations_header.c:56-65 | a data block consists of whole tokens if and only if the file is not empty |
| `DataBlocks.DataRoundTrip` | translations/generate_translations_header.c:55-65 | the literals of a data block, decoded greedily and joined, are the bytes of the file, zeros included, and the counted constructor with the printed length yields exactly them |
| `ReadingHeader.LexEscapes` | translations/generate_translations_header.c:63 | over any run of printed bytes the tokenizer decodes each to itself, with the last escape still open after two digits |
| `ReadingHeader.ReadsQuoted` | translations/generate_translations_header.c:57-63 | a printed line is read as one literal with the bytes of that line |
| `ReadingHeader.ReadsDataDecl` | translations/generate_translations_header.c:55-65 | the tokens of a data declaration, for every non-empty file |
| `ReadingHeader.ReadsRows` | translations/generate_translations_header.c:75-77 | the tokens of the rows, for every number of files |
| `Reading.LexDecimal` | translations/generate_translations_header.c:65 | a printed length is read back as that number |
| `ParsingHeader.ParseData` | translations/generate_translations_header.c:55-65 | the parser joins the literals of a data declaration to the contents and keeps the printed length |
| `ParsingHeader.ParseRows` | translations/generate_translations_header.c:75-77 | the row at position i - 1 points at the variables of file i |
| `RawNames.BehindStep` | translations/generate_translations_header.c:54 | once the reader has taken a character of a name as anything but itself, what the name variable can be bound to stays shorter than the text read |
| `RawNames.ReadRawName` | translations/generate_translations_header.c:54 | after any raw name the reader has failed, or has read everything, or stands between declarations with the variable bound to the name if it is plain and to something shorter if not |
| `Scanning.ScanEmptyFile` | translations/generate_translations_header.c:56-65 | the declaration of an empty file stops the tokenizer |
| `Scanning.ScanAll` | translations/generate_translations_header.c:49-68 | for every list of files, where the reader can stand after their declarations, and what it has recorded of each |
| `Scanning.ScanReadable` | translations/generate_translations_header.c:49-68 | for plain names and non-empty files the reader has recorded exactly one pair of declarations per file |
| `Reader.ReadHeader` | translations/generate_translations_header.c:45-82 | from the state after the declarations to the state at the end of the header |
| `Phases.PrepareHeader` | translations/generate_translations_header.c:45-82 | replacing trigraphs and splicing lines in a header gives the header of the same files under names so treated |
| `Phases.TrigraphsLength` | translations/generate_translations_header.c:54 | phase 1 never lengthens a name and keeps its length exactly when there is no trigraph in it |
| `Linking.VariablesDiffer` | translations/generate_translations_header.c:54-55 | printed numbers are injective, so no two declarations of a header share a variable |
| `Linking.BindDecls` | translations/generate_translations_header.c:54-55 | the declarations of any list of files bind without a duplicate |
| `Runtime.Lookup` | translations/generate_translations_header.c:28-34 | the answer is the entry of least index with that name, later ones are shadowed, and without one `data` is unchanged |
| `Runtime.FindEmbeddedFile` | translations/generate_translations_header.c:25-35 | a call, by its name, of the function that the program image holds gives that answer |
| `ReadingHeader.ReadsTableHead` | translations/generate_translations_header.c:70-73 | the tokens of the printed structure |
| `ReadingHeader.ReadsCode` | translations/generate_translations_header.c:26-35 | the tokens of the printed function |
| `ParsingHeader.ParseTableHead` | translations/generate_translations_header.c:70-73 | the structure is read with its tag, its members in order, and the name of the table |
| `Utf.Utf16` | src/common/i18n.cpp:89-124 | for every sequence of bytes, the loop computes `Transcode`, which the next rows are about |
| `Utf.TranscodeText` | src/common/i18n.cpp:89-124 | the UTF-16 of any text is converted character by character, those beyond the basic plane shifted by 0x1e000 |
| `Utf.TranscodeKeepsText` | src/common/i18n.cpp:96-121 | the result, decoded by the rules of UTF-8, is the text if and only if every character is in the basic plane |
| `Utf.FaceIsLost` | src/common/i18n.cpp:99 | a concrete text that fails: U+1F600 comes out as U+3D600 |
| `Utf.BoundMatters` | src/common/i18n.cpp:96-98 | for every sequence of bytes: the bound 0xdbfff acts like 0xdbff if and only if, read from the front, no unit past the high surrogates is followed by a low one |
| `Utf.BoundFails` | src/common/i18n.cpp:96 | concrete bytes that fail: e0 00 dc 00 give f8 ae 80 80, and with the right bound ee 80 80 ed b0 80 |
| `Linker.CString` | src/common/i18n.cpp:328 | the longest part from the front without a NUL |
| `I18n.PathParts` | src/common/i18n.cpp:151-162 | where directory, base and language stand in the path, and that the embedded name is the path without the directory |
| `I18n.OffersLiterally` | src/common/i18n.cpp:151-164 | directory /t, base scala and language fr are served by /t/scala_fr.qm or, embedded, scala_fr.qm, in this order, by no other name, and by nothing if the first cannot be read |
| `I18n.Underscore` | src/common/i18n.cpp:165-167 | the first underscore of a C string, if there is one |
| `I18n.Translations.FindChunks` | src/common/i18n.cpp:225-257 | for every sequence of bytes the chunk list is scanned without reading outside it, and the index found lies inside it |
| `I18n.Translations.LoadRecord` | src/common/i18n.cpp:278-315 | the subchunks of one message, from any place in any sequence of bytes |
| `I18n.Translations.LoadIndexed` | src/common/i18n.cpp:268-318 | messages are entered in order until one is malformed, and stay entered |
| `I18n.Translations.LoadContents` | src/common/i18n.cpp:189-319 | for every sequence of bytes: the return code and the dictionary after a load |
| `I18n.Translations.FetchFile` | src/common/i18n.cpp:151-164 | some contents are fetched if and only if they are in the directory or, failing that, embedded under the language's name for the first time; a file is missing if and only if neither place has one, and an unreadable file is an error |
| `I18n.Translations.FindContents` | src/common/i18n.cpp:151-187 | some contents are found if and only if the language offers them, or it has no file at all and its part before the underscore offers them |
| `I18n.Translations.SetLanguage` | src/common/i18n.cpp:132-319 | null pointers; the load of the contents offered for the language given, whatever the environment says, and for that of the environment if none is given; nothing changes if none are offered |
| `I18n.Translations.Translate` | src/common/i18n.cpp:322-329 | the entry under context, NUL and string, up to its first NUL, and the string itself if there is none |
| `QmSample.SampleLoads` | src/common/i18n.cpp:44-319 | one whole file, spelled as numbers, enters exactly its message into any dictionary |
| `QmSample.ChangedSampleFails` | src/common/i18n.cpp:219 | that file with any of its first sixteen bytes changed is rejected |
| `QmSample.WordOrder` | src/common/i18n.cpp:84-87 | the bytes 12 34 56 78 are the number 0x12345678 |
| `QmSample.ShowSample` | src/common/i18n.cpp:189-329 | that file loaded, its message is shown for its context and source, and other strings come back as they are |
| `QmFiles.ScanFile` | src/common/i18n.cpp:225-257 | every list of chunks, of any kinds, in any order and number, is scanned to its end |
| `QmFiles.NoteLast` | src/common/i18n.cpp:240-254 | the last index and the last messages of a list of chunks are the ones found |
| `QmFiles.MissingChunkFails` | src/common/i18n.cpp:259-266 | a file without an index, or without messages, is rejected and enters nothing |
| `QmFiles.ReadMessage` | src/common/i18n.cpp:278-315 | a record of any subchunks, in any order and number, is read back if and only if at least four bytes follow its end marker |
| `QmFiles.RecordParts` | src/common/i18n.cpp:300-313 | a record's context, source and translation are those of the last subchunk of each kind, and all other subchunks are skipped |
| `QmFiles.LastBodyIsLast` | src/common/i18n.cpp:300-313 | the subchunk after which no other of its kind comes is the one that decides |
| `QmFiles.NoBody` | src/common/i18n.cpp:287-289 | a record without a subchunk of some kind has an empty string for it |
| `QmFiles.LoadFile` | src/common/i18n.cpp:219-319 | a well-formed file, with index and messages in either order, among any chunks and with records anywhere behind the start of the messages, loads completely if and only if four bytes follow every record of its index; otherwise the records before the first that lacks them are entered and the load fails |
| `QmFiles.LastMarkerFails` | src/common/i18n.cpp:279 | a concrete file that fails: one record, whose end marker is the last byte |
| `QmFiles.CutFileFails` | src/common/i18n.cpp:219-238 | a file that breaks off in the middle of a chunk, whatever chunks came before, is rejected and enters nothing |
| `QmAcceptance.ScansIff` | src/common/i18n.cpp:225-257 | for every sequence of bytes behind the magic number: the scan succeeds if and only if they are the bytes of some list of chunks |
| `QmAcceptance.ReadsIff` | src/common/i18n.cpp:278-315 | for every place in every sequence of bytes: a message is read there if and only if some record starts there and four bytes follow it |
| `QmAcceptance.LoadsIff` | src/common/i18n.cpp:219-319 | for every sequence of bytes: the load succeeds if and only if they are those of a well-formed file with four bytes behind every record of its index |
| `QmFiles.KeyInjective` | src/common/i18n.cpp:286 | no other context and source, with or without a NUL, share the key of two that hold none |
| `QmFiles.KeyDetermines` | src/common/i18n.cpp:286 | a key determines its context and source if and only if neither holds a NUL |
| `QmFiles.LastMatchIsLast` | src/common/i18n.cpp:322-325 | for a context and a source without NUL, the last record with their key is the last record with that context and that source |
| `QmFiles.EntryOfLast` | src/common/i18n.cpp:286 | after any records are entered into any dictionary, any key has the translation of the last record with it, and what it had before if there is none |
| `QmFiles.LoadMerges` | src/common/i18n.cpp:46 | loading any bytes over any dictionary lays what they give alone over it, and succeeds or fails as alone |
| `QmFiles.SecondLoad` | src/common/i18n.cpp:46 | for every two sequences of bytes loaded one after the other: a key is unknown if and only if neither load enters it, and has what the second alone gives if and only if the second enters it or the first does not |
| `QmFiles.SecondFile` | src/common/i18n.cpp:46 | the same for two well-formed files, by the records they hold |
| `QmFiles.FirstLoadStays` | src/common/i18n.cpp:46 | two concrete files that fail: the second is empty, and the translation of the first is still kept |
| `Shipping.ShownText` | src/common/i18n.cpp:322-329 | the C string shown for a translation decodes to it if and only if every character is in the basic plane and none is NUL |
| `Shipping.ChosenOnDisk` | src/common/i18n.cpp:151-187 | some contents are chosen if and only if they are those of the file in the directory or, without one, of the argument with the language's name; or the language has neither and they are so for its part before the underscore |
| `Shipping.EmbeddedIsChosen` | src/common/i18n.cpp:160-164 | without a file in the directory, the argument with the language's name is chosen, with its bytes on disk |
| `Shipping.CountryGivesWay` | src/common/i18n.cpp:165-178 | a language with a country for which there is no file gets the file embedded for the language alone |
| `Shipping.OtherBase` | src/common/i18n.cpp:162-177 | where no argument starts with the base asked for, whatever is chosen lies in the directory |
| `Shipping.EmbedAndLoad` | src/common/i18n.cpp:132-319 | for files with safe names that are not empty, embedded by the generator, and every language, directory and dictionary: the contents chosen for the language given, or for that of the environment if none is, are loaded over the dictionary, those of a well-formed file up to the first record that is not followed by four bytes; if none are chosen, nothing changes |
| `Shipping.LastDecides` | src/common/i18n.cpp:322-329 | for every dictionary, context and source: the translation of the last record with their key, which without NUL is the last with that context and source, is shown up to its first NUL; without one, what was there before is; without that, the source; a translation that is the UTF-16 of a text is shown as that text if and only if every character is in the basic plane and none is NUL |
| `Shipping.EmbedAndTranslate` | src/common/i18n.cpp:132-329 | the whole way, under the same conditions on the embedded files: what is shown is decided as in the row above by the well-formed file that is chosen, in the directory or embedded, for the language or its part before the underscore; by the load of whatever bytes are chosen; and, if none are, it is what the dictionary has or else the source |

## Left out

- Write errors, and an argument that names the output file itself: the output is a sequence of characters.
- The rest of C++: comments other than the one behind `#endif`, macros, conditional directives, raw string literals, encoding prefixes and universal character names are outside the reader, so what a hostile name could do with them is not covered.
- Static initialisation order, `const` and the types of the emitted declarations: the reader evaluates literals and the counted constructor only.
- The interpreter of the function: declarations in inner blocks stay visible behind them, and operators of two characters may have blanks inside; the emitted function has neither.
- The argument counter is an unbounded integer; it stays below `argc`, which is an `int`.
- `i18n_get_language`: the environment's language is a parameter, any string.
- A translation file is one string of bytes; sizes of 4 GiB and more are cut to 32 bits where the loader does so, and they are excluded from the results on lists of chunks and well-formed files.
- The other parts of the repository: the ledger, the wallet, the network and the cryptography are not part of this model.
