# jaf core, modelled in Dafny

jaf is a small file-upload server. This project models five parts of it and proves their properties:

- **EXIF scrubber** (`exifscrubber.dfy`, `exifproofs.dfy`, `exifscenario.dfy`).
  - The allow rule (`isTagAllowed`) keeps a tag when its id is on one list or its exact `"<ifd-path>/<tag-name>"` string is on another.
  - The rebuilder (`filteringIfdBuilder`, `filteredAddTagsFromExisting`) walks an EXIF directory chain and mirrors it:
    - thumbnail offset and size entries are dropped;
    - disallowed scalars are dropped and allowed ones are copied;
    - every pointer entry is rebuilt from the first child directory recorded at its position.
  - `ScrubExif` tries a JPEG library, then a PNG library, and otherwise reports an unknown file type.
  - The parsed EXIF tree is an inductive value (`Ifd`). A chain of builders is a sequence of `IfdBuilder` values, and the empty sequence stands for Go's nil builder.
  - The container libraries are an abstract `ContainerAdapter` of functions.
  - The two loops are `while`/`for` methods. Each is proved equal to a recursive specification (`FilterChain`, `FilterEntries`), and the properties are lemmas about that specification.
- **Extension builder** (`extdetect.dfy`).
  - `BuildFileExtension` keeps the nested `for stillBuilding` loop.
  - It is proved equal to `ExtensionOf`, which grows the extension leftward from the last dot (`Grow`).
  - The MIME sniffer is a function parameter.
- **Set** (`set.dfy`). A class over a `map<T, ()>` field. `Insert` and `Remove` are proved against `InsertInto` and `RemoveFrom`, and each reports whether membership changed.
- **Configuration reader** (`config.dfy`).
  - `ConfigFromLines` is the scanner loop of `ConfigFromFile` over lines already read. It is proved equal to the fold `ParseFrom`.
  - `ParseIdList` is the id-appending loop, proved equal to `ParseIds`.
- **Upload naming** (`uploadhandler.dfy`).
  - `splitFileName` is a function.
  - `createRandomFileName` fills an array with characters chosen nondeterministically from the alphabet of `jaf.go`.
  - `GenerateLink` builds the link and the save path for one candidate name.

`gostrings.dfy` holds the Go library functions that the core calls (`strings.LastIndex`, `Cut`, `Split`, `TrimSpace`, `strconv.ParseUint`, `Atoi`, `ParseBool`), written out on sequences of characters. Reference formatters (`FormatUint`, `Itoa`, `FormatBool`) are the partners of the parsers: each parser is proved to read back what its formatter writes.

Behaviour of the code as written that the model keeps:

- The extension grows while the suffix is the *start* of a known combination (`strings.HasPrefix(comb, suffix)`). So `"foo.tar.g"` gets `".tar.g"`; `ExtDetect.ExampleTruncatedCombination` states this.
- A pointer entry whose position no child records is rebuilt from nil. The recursive call returns a nil builder and no error. The model keeps a `ChildTag([])` placeholder for it (`ExifScrubberProofs.UnmatchedPointerGivesNilBuilder`); see "## Left out". A child whose identity names a different tag is still used; the code only logs it.
- The alphabet has `T` before `S`. Only the set of characters matters.

## Model

| member | source | states |
|---|---|---|
| ExifScrubber.IsTagAllowed | exifscrubber/exifscrubber.go:102-120 | the result is true exactly when the tag id is on the id list or the exact string path + "/" + name is on the path list (no prefix matching) |
| ExifScrubber.FirstChildAt | exifscrubber/exifscrubber.go:188-203 | the child used for position i is the first recorded child whose parent-tag index is i; none exactly when no child records i |
| ExifScrubber.FilteringIfdBuilder | exifscrubber/exifscrubber.go:123-166 | the chain loop returns exactly the rebuilt chain `FilterChain` of the root, failing with the first directory's error |
| ExifScrubber.FilteredAddTagsFromExisting | exifscrubber/exifscrubber.go:169-267 | the entry loop, with its recursion into children, returns exactly the rebuilt tags `FilterEntries` of the directory |
| ExifScrubber.ContainerNeverUnknown | exifscrubber/exifscrubber.go:28-60 | once a container library recognises the data, the outcome is never ErrUnknownFileType |
| ExifScrubber.ScrubContainer | exifscrubber/exifscrubber.go:31-60 | one branch: parse error, no EXIF gives the input unchanged, lookup error, rebuild error, write error, or the written bytes of the container with the rebuilt EXIF |
| ExifScrubber.ScrubExif | exifscrubber/exifscrubber.go:28-99 | JPEG is tried before PNG; no EXIF returns the input bytes; neither format gives ErrUnknownFileType, and only then |
| ExifScrubberProofs.ChainMirrorsSiblings | exifscrubber/exifscrubber.go:129-165 | the rebuilt chain has one builder per directory of the input chain, in order, with its identity, byte order and rebuilt tags; it succeeds iff every directory does |
| ExifScrubberProofs.FirstBuilderIsRoots | exifscrubber/exifscrubber.go:150-152 | the returned first builder is the root directory's, with its identity and byte order |
| ExifScrubberProofs.KeptFromMembership | exifscrubber/exifscrubber.go:173-236 | a position is among the kept ones iff the entry is no thumbnail marker and is a pointer or allowed |
| ExifScrubberProofs.KeptFromIncreasing | exifscrubber/exifscrubber.go:173 | the kept positions are valid and strictly increasing, so the output is a subsequence in the original order |
| ExifScrubberProofs.EntriesCorrespond | exifscrubber/exifscrubber.go:173-263 | the k-th rebuilt tag comes from the k-th kept entry: a scalar with the same id, type, raw bytes, byte order and the directory's unindexed path, or a pointer as a child builder chain and never as bytes |
| ExifScrubberProofs.ThumbnailsDropped | exifscrubber/exifscrubber.go:174-177 | a thumbnail offset or size entry is never kept, whatever the allow-lists hold |
| ExifScrubberProofs.PointersKept | exifscrubber/exifscrubber.go:180-230 | every pointer entry that is no thumbnail marker is kept, whatever the allow-lists hold |
| ExifScrubberProofs.ScalarKeptIffAllowed | exifscrubber/exifscrubber.go:232-236 | a scalar entry is kept iff its id or its exact path is on an allow-list |
| ExifScrubberProofs.AllIdsKeepEverything | exifscrubber/exifscrubber.go:104-108 | with every entry's id on the id list, all entries but the thumbnail markers are kept |
| ExifScrubberProofs.UnmatchedPointerGivesNilBuilder | exifscrubber/exifscrubber.go:205-230 | a pointer whose position no child records becomes an empty child chain, with no error |
| ExifScrubberProofs.ChainScalarsAllowed | exifscrubber/exifscrubber_test.go:45-64 | every scalar anywhere in the rebuilt tree, nested chains included, is allowed by id or by path |
| ExifScrubberProofs.EntriesScalarsAllowed | exifscrubber/exifscrubber.go:232-250 | every scalar rebuilt from one directory, and from the children it points to, is allowed by id or by path |
| ExifScrubberProofs.ReadableChainRebuilds | exifscrubber/exifscrubber.go:238-241 | the rebuild fails only through an unreadable scalar value: with every value readable it succeeds |
| ExifScrubberProofs.ReadableEntriesRebuild | exifscrubber/exifscrubber.go:238-241 | the same for the entries of one directory from any position |
| ExifScrubberScenario.ScenarioRebuild | exifscrubber/exifscrubber_test.go:22-64 | the fixture scenario rebuilds to Orientation, Flash, GPSTimeStamp and GPSDateStamp under their pointers, and an empty thumbnail directory |
| ExifScrubberScenario.ExifDirRebuild | exifscrubber/exifscrubber_test.go:22 | of the Exif directory only Flash, allowed by id, survives |
| ExifScrubberScenario.GpsDirRebuild | exifscrubber/exifscrubber_test.go:23-27 | of the GPS directory the two stamps, allowed by path, survive and the latitude does not |
| ExifScrubberScenario.ThumbDirRebuild | exifscrubber/exifscrubber.go:174-177 | the thumbnail directory is rebuilt empty but still present |
| ExifScrubberScenario.RootEntriesRebuild | exifscrubber/exifscrubber_test.go:23-27 | the root directory keeps Orientation and both pointers and drops Make |
| ExtDetect.Grow | extdetect/extension_detection.go:37-53 | the extension only moves left, and always to a dot |
| ExtDetect.BuildFileExtension | extdetect/extension_detection.go:14-56 | the nested loop returns exactly `ExtensionOf(name, detect(fileData))`, and terminates |
| ExtDetect.NoDotUsesDetected | extdetect/extension_detection.go:18-21 | a name without a dot gets the sniffed extension |
| ExtDetect.OneDotIsLastPart | extdetect/extension_detection.go:26-30 | a name with exactly one dot gets the suffix from that dot |
| ExtDetect.GrowStartsCombination | extdetect/extension_detection.go:41-47 | an extension grown past the last dot is the start of a known combination |
| ExtDetect.DottedExtension | extdetect/extension_detection.go:26-55 | for a dotted name the result is a suffix of the name, starts with a dot, ends with the last extension, and with a second dot starts a known combination |
| ExtDetect.ExampleNoDot | extdetect/extension_detection_test.go:24-28 | "foo" gets the sniffed extension |
| ExtDetect.ExamplesOneDot | extdetect/extension_detection_test.go:29-40 | "foo.txt", "foo.gz" and "foo.tar" get ".txt", ".gz" and ".tar" |
| ExtDetect.ExampleTarGz | extdetect/extension_detection_test.go:41-44 | "foo.tar.gz" gets ".tar.gz" |
| ExtDetect.ExampleTarXz | extdetect/extension_detection_test.go:45-48 | "foo.tar.xz" gets ".tar.xz" |
| ExtDetect.ExampleUnknownCombination | extdetect/extension_detection_test.go:49-52 | "foo.jpg.zip" gets only ".zip" |
| ExtDetect.ExampleManyDots | extdetect/extension_detection_test.go:53-56 | "foo.jpg.zip.tar.gz" gets ".tar.gz" |
| ExtDetect.ExampleTruncatedCombination | extdetect/extension_detection.go:41 | "foo.tar.g" gets ".tar.g", because the test is "starts a combination" |
| Sets.Set.constructor | set.go:7-11 | a new set is empty |
| Sets.Set.Contains | set.go:13-16 | reports membership and changes nothing |
| Sets.Set.Insert | set.go:18-25 | the new map and the result are those of `InsertInto` on the old map, and the set's elements are the old ones plus the value |
| Sets.Set.Remove | set.go:27-34 | the new map and the result are those of `RemoveFrom` on the old map, and the set's elements are the old ones minus the value |
| Sets.InsertReportsChange | set.go:18-25 | Insert reports a change iff the value was absent; afterwards the set is the old one plus the value |
| Sets.InsertPresentUnchanged | set.go:19-21 | inserting a present value leaves the set unchanged and reports no change |
| Sets.RemoveReportsChange | set.go:27-34 | Remove reports a change iff the value was present; afterwards the set is the old one minus the value |
| Sets.OthersUnchanged | set.go:18-34 | neither Insert nor Remove changes the membership of any other value |
| Sets.InsertThenRemove | set.go:18-34 | removing a freshly inserted value restores the set |
| Sets.RemoveThenInsert | set.go:18-34 | re-inserting a just removed value restores the set |
| Sets.InsertOracle | set_test.go:40-60 | on a new set: 0 is absent, the first Insert(0) reports a change, 0 is then present, and a second Insert(0) reports none |
| Configuration.ConfigFromLines | config.go:40-148 | the scanner loop returns exactly the fold `ParseFrom` of the lines over the defaults |
| Configuration.ParseIdList | config.go:102-128 | the id loop returns exactly `ParseIds` of the pieces |
| Configuration.SkippedLines | config.go:53-65 | a line is skipped iff, trimmed, it starts with "#" or has no colon |
| Configuration.SkippedLinesKeepConfig | config.go:53-65 | skipped lines leave the configuration as it was |
| Configuration.NoEffectiveLinesGiveDefaults | config.go:40-49 | without effective lines the read gives Port 4711, the two default paths, LinkLength 5, both flags true and empty lists |
| Configuration.FirstColonSplit | config.go:60-68 | key and value are split at the first colon and trimmed, so the value keeps later colons |
| Configuration.UnexpectedKeyIffUnknown | config.go:146-147 | a key is rejected as unexpected iff it is not one of the eight known keys |
| Configuration.UnknownKeyLineFails | config.go:146-147 | a line with an unknown key fails |
| Configuration.FailingLineFails | config.go:52-148 | a line that fails whatever precedes it makes the whole read fail, wherever it stands |
| Configuration.UnknownKeyFails | config.go:146-147 | a line with an unknown key anywhere in the file makes the whole read fail |
| Configuration.BadValuesFail | config.go:71-95 | on its own line, a non-integer Port or LinkLength, or a non-boolean ScrubExif or ExifAbortOnError, is a value error |
| Configuration.BadValueFailsRead | config.go:72-93 | such a line anywhere in the file makes the whole read fail, as the early `return nil, err` does |
| Configuration.ParseIdMeaning | config.go:109-116 | an id parses iff it is "0x" and hex digits, or decimal digits, below 2^16, and then has the value of its digits; an empty piece never parses |
| Configuration.IdsMembership | config.go:105-127 | an id is in the list iff some piece parses to it |
| Configuration.IdsAppend | config.go:105-127 | the ids of two runs of pieces are those of the first followed by those of the second |
| Configuration.EmptyPieceSkipped | config.go:102-124 | an empty piece from a doubled space is skipped wherever it stands |
| Configuration.ExampleHexId | config.go:109-112 | "0x9209" is 0x9209 and "0x" alone is rejected |
| Configuration.ExampleDecimalId | config.go:115 | "274" is 274 |
| Configuration.ExampleRejectedIds | config.go:115-124 | "9209x" and "-1" are rejected |
| Configuration.ExampleTooLargeId | config.go:115 | "65536" does not fit in 16 bits and is rejected |
| Configuration.EmptyValueKeepsLists | config.go:97-100 | an empty value for either list leaves the configuration unchanged |
| Configuration.PathsFromValue | config.go:137-138 | the path list is the value cut at single spaces: its parts have no space and join back to the value; nothing else changes |
| Configuration.PathsRoundTrip | config.go:137-138 | paths without spaces, written joined by single spaces, are read back exactly |
| Configuration.ParseFromAppend | config.go:52-149 | reading two runs of lines is reading the first, then the second from its result |
| Configuration.KeyLineSetsOwnField | config.go:70-145 | a successful line for any of the eight keys changes only that key's field |
| Configuration.KeyLineIndependent | config.go:70-145 | whether a key line succeeds, and the value it sets (an empty list value aside), do not depend on the configuration before it |
| Configuration.LaterLineOverwrites | config.go:70-145 | for every key, a later line sets the field to what that line alone gives, whatever earlier lines set, and leaves every other field as the earlier lines left it |
| Configuration.DecimalIdRoundTrip | config.go:115 | every 16-bit id reads back from its decimal form |
| Configuration.HexIdRoundTrip | config.go:109-112 | every 16-bit id reads back from "0x" and its hexadecimal form |
| Configuration.IdsRoundTrip | config.go:96-130 | a non-empty list of ids, written in decimal and joined by single spaces, is read back exactly, in order |
| UploadHandler.SplitFileName | uploadhandler.go:101-110 | no dot gives (name, ""); otherwise stem + ext is the name and ext is a dot with no further dot |
| UploadHandler.SplitFileNameUnique | uploadhandler.go:102-109 | that split is the only one whose extension is a dot and no further dot |
| UploadHandler.CreateRandomFileName | uploadhandler.go:90-98 | exactly `length` characters, each from the alphabet |
| UploadHandler.GenerateLink | uploadhandler.go:49-58 | the link is the prefix and the file name, the save path is the file directory and the same file name, and the file name is a random stem of the configured length followed by the extension |
| UploadHandler.UploadLink | uploadhandler.go:29-30 | the link ends in the extension after the upload's last dot, behind the prefix and a stem of the configured length |
| GoStrings.LastIndexOf | extdetect/extension_detection.go:16 | strings.LastIndex: -1 exactly when the character is absent, else a position holding it with none after it |
| GoStrings.LastIndexAt | uploadhandler.go:102 | the last occurrence is at i when the character is at i and nowhere after |
| GoStrings.Cut | config.go:60 | strings.Cut: found iff the separator occurs; then the string is before + sep + after with no sep before it; else before is the string |
| GoStrings.Split | config.go:102 | strings.Split: at least one piece, no piece holds the separator, and joining gives the string back |
| GoStrings.SplitJoin | config.go:137-138 | splitting undoes joining when no part holds the separator |
| GoStrings.TrimLeftMeaning | config.go:53 | exactly the leading white space is removed |
| GoStrings.TrimRightMeaning | config.go:53 | exactly the trailing white space is removed |
| GoStrings.TrimSpaceMeaning | config.go:67-68 | the result has no white space at its edges and only white space around it, and a string without edge white space is kept |
| GoStrings.FormatUintDigits | config.go:112-115 | the digits that the reference formatter writes for n are digits of the base, and they denote n |
| GoStrings.ParseUintFormatUint | config.go:112-115 | strconv.ParseUint reads back every number below 2^bitSize as the formatter writes it |
| GoStrings.ParseUintLeadingZero | config.go:112-115 | a leading zero in front of a non-empty string changes neither acceptance nor value |
| GoStrings.ParseUintDigitExamples | config.go:112-115 | "007" reads as 7, and both "FF" and "ff" read as 255 in base 16 |
| GoStrings.ParseUintBoundExamples | config.go:112-115 | with 16 bits, "65535" is read and "65536" is out of range |
| GoStrings.ParseUintRejectExamples | config.go:112-115 | the empty string, a "0x" prefix and a sign are rejected |
| GoStrings.Atoi | config.go:72 | strconv.Atoi: any result lies in the int64 range |
| GoStrings.AtoiItoa | config.go:72-77 | strconv.Atoi reads back every int64 as strconv.Itoa writes it |
| GoStrings.AtoiRejects | config.go:72-75 | strconv.Atoi fails on an empty string, a sign alone, any non-digit after the optional sign, and a value outside the int64 range |
| GoStrings.ParseBoolMeaning | config.go:90-93 | strconv.ParseBool accepts exactly the six spellings of true and the six of false, and reads back what FormatBool writes |

## Left out

- Byte-level JPEG segment and PNG chunk parsing and writing, and the go-exif internals (tag index, IFD mapping, `GetRawBytes`): they are foreign libraries. The container is an abstract adapter, and the EXIF tree is a parsed value whose unreadable raw bytes are `None`.
- The errors of `NewIfdMappingWithStandard`, `LoadStandardTags`, `ib.Add` and `ib.AddChildIb` are not modelled: they come from library code that is not part of this model.
- ExifScrubber.FilteredAddTagsFromExisting: for a pointer entry whose position no child records, the code hands the nil child builder to `ib.NewBuilderTagFromBuilder` and attaches the tag only when `bt.Value().IsIb()` holds (exifscrubber/exifscrubber.go:230, 253-263). What go-exif does there with a nil builder is library behaviour. It may fail, or it may drop the entry, and either is outside this model. The model keeps a `ChildTag([])` placeholder in the entry's place, and the rest of the directory is rebuilt as usual.
- ExifScrubber.FilteringIfdBuilder: builders are values appended to a sequence, not objects linked in place with `SetNextIb`. The model does not capture aliasing between builders.
- ExifScrubber.ScrubContainer: the error that `SetExif` returns is ignored by the code, and the adapter's `setExif` is total.
- The `fmt.Printf` diagnostics of the child lookup: they do not affect results.
- `mimetype.Detect` is the parameter `detect` of `BuildFileExtension`, because it is a foreign MIME sniffer.
- Opening the configuration file, `bufio.Scanner` line splitting, its 64 KiB line limit, `scanner.Err` and the `log` prefix: the input is the sequence of lines.
- The "could not parse ID" and "unexpected line" log messages: they do not affect results.
- UploadHandler.GenerateLink: covers one candidate name only. The retry loop while `fileExists` holds depends on unbounded file-system state, and `saveFile` is file I/O.
- UploadHandler.GenerateLink: requires `LinkLength >= 0`, because Go's `make` panics on a negative length.
- UploadHandler.CreateRandomFileName: takes a `nat` length, so the panic of Go's `make([]byte, length)` on a negative length is not modelled.
- `ServeHTTP`'s form handling and response writing, `fileExists`, `saveFile`, and everything in `jaf.go` except the alphabet. This is HTTP and file I/O.
- The shared `savedFileNames` set and cross-request concurrency: `Sets.Set` is single-threaded.
- `math/rand` and its seeding: each random index is a nondeterministic choice.
- Go strings are UTF-8 bytes; here they are sequences of code points. Indices into names with non-ASCII characters therefore differ from Go's byte indices.
- The fixture tests read real JPEG and PNG images. Their scenario is restated on a small abstract tree in `exifscenario.dfy`.
