# Subtitle conversion dispatch — a Dafny model

This project models the two `ProcessingHandler` classes of the subtitle
converter: the Kayla.NET handler (`Convert`, `ConvertBath`, any target
format) and the SRTSubtitleConverter handler (`ConvertToSRT`,
`ConvertBathToSRT`, SubRip only). Both keep an ordered registry of parsers
(and Kayla.NET one of converters). The Kayla.NET handler picks the
converter by exact name, with an empty name standing for "SubRip"; the
SRTSubtitleConverter handler always converts to SubRip and takes no format.
Both dispatch an input file to the parsers whose '|'-separated extension
list contains the file's extension, and write the converted text to
`outputPath`, or, into an existing output directory (Kayla.NET) or with
`folderFlag` (SRTSubtitleConverter), to a file named after the input. The
batch loops always name each output file after its entry.
The batch entry points split a directory listing into converted and
unconverted files.

Layout:

- `paths.dfy` (`Paths`): string models of `Path.GetFileName`,
  `GetExtension`, `GetFileNameWithoutExtension`, `Combine`, `IsPathRooted`
  (Windows behaviour of .NET: '\' and '/' separate, "X:" roots), and of
  `String.Split` on one character with its inverse `Join`.
- `formats.dfy` (`Formats`): the parser and converter classes, their
  behaviour as a `Library` parameter, the registry as an ordered sequence of
  key/value pairs with `Lookup`, and the file-system view (`FileSystem`,
  `FileWrite`, `ParseCall`).
- `dispatch.dfy` (`Dispatch`): the nested `foreach` over parsers and their
  extension pieces (`TryParsers`, `TryEntry`), specified by `Chosen` (the
  result) and `Calls` (the `ParseFormat` calls made); `Single` and
  `ConvertOne` for one file.
- `batch.dfy` (`Batch`): the per-entry batch loop `RunBatch`, specified by
  `Run`, and the partition lemmas.
- `kayla.dfy` (`Kayla`) and `srt_converter.dfy` (`SrtConverter`): the two
  handler classes, whose methods mirror the source step by step and are
  proved equal to the specification functions beside them.

Every conversion entry point returns its observable effect (return value,
the files written, the `ParseFormat` calls made) as out-parameters; the
`Add` and `Register` methods change the handler's registries in place, and
`SelectConverter` and `CheckBatch` return only a selection. The parser and
converter classes are the `lib` field of each handler.

The dispatch scan lets the **last** successful parser win. The `break` after
a success leaves only the loop over the extension pieces, so the loop over
the registry goes on and a later success overwrites `finalResult`. A
first-match reading of the dispatch would say the first registered match
wins; the model follows the code (`Dispatch.Chosen`,
`Dispatch.ChosenIsLastSuccess`). Likewise, the handlers report failure as a
`bool`, not as distinct error kinds, and the model keeps the `bool`.

## Model

| member | source | states |
|---|---|---|
| Paths.GetExtension | Kayla.NET/ProcessingHandler.cs:80 | the extension compared with the parser pieces is either empty or a dot followed by dot-free, separator-free characters |
| Paths.GetFileName | Kayla.NET/ProcessingHandler.cs:80 | the file name is a separator-free suffix of the path, preceded by a separator whenever it is shorter than the path |
| Paths.NameExtension | Kayla.NET/ProcessingHandler.cs:80 | the extension is a suffix of the name, and for a separator-free name it is empty or a well-formed extension |
| Paths.NameStem | Kayla.NET/ProcessingHandler.cs:68 | the name without extension is a prefix of the file name |
| Paths.NameStemAndExtension | Kayla.NET/ProcessingHandler.cs:68 | a name not ending in '.' is its stem followed by its extension |
| Paths.GetFileNameWithoutExtension | Kayla.NET/ProcessingHandler.cs:68 | the stem is never longer than the path it is taken from; what it is (a separator-free prefix of the file name that, with the extension, rebuilds that name) is stated by `Paths.StemOfFileName` and `Paths.StemAndExtension` below |
| Paths.StemOfFileName | Kayla.NET/ProcessingHandler.cs:68 | `GetFileNameWithoutExtension` is a separator-free prefix of the file name |
| Paths.StemAndExtension | Kayla.NET/ProcessingHandler.cs:68 | `GetFileNameWithoutExtension(p) + GetExtension(p) == GetFileName(p)` unless the path ends in '.' |
| Paths.Combine | Kayla.NET/ProcessingHandler.cs:69 | an empty second part leaves the first unchanged; a second part that is rooted, or follows an empty first part, is the whole result |
| Paths.CombineShape | SRTSubtitleConverter/ProcessingHandler.cs:35 | the result ends with the second part; for a non-empty, non-rooted second part after a non-empty first, it starts with the first part and a separator stands between them |
| Paths.NamedInto | SRTSubtitleConverter/ProcessingHandler.cs:35 | combining a directory with a separator-free stem and a well-formed extension yields a path whose file name is exactly stem plus extension and whose extension is that extension (when the name is not itself rooted) |
| Paths.CombineFileName | Kayla.NET/ProcessingHandler.cs:152 | combining a directory with a bare file name yields a path whose file name is that name |
| Paths.BareFileName | Kayla.NET/ProcessingHandler.cs:161 | a separator-free path (a listed entry name) is its own file name |
| Paths.CombineKeepsNameParts | Kayla.NET/ProcessingHandler.cs:152 | combining with a bare name keeps that name's extension and its name without extension |
| Paths.ExtensionOfName | Kayla.NET/ProcessingHandler.cs:68 | a stem followed by a declared converter extension reports exactly that extension |
| Paths.LastIndexOf | Kayla.NET/ProcessingHandler.cs:80 | the index found holds the character and no later index does, or -1 when none does |
| Paths.LastSeparator | Kayla.NET/ProcessingHandler.cs:80 | the index found is a separator and no later index is, or -1 when none is |
| Paths.Split | Kayla.NET/ProcessingHandler.cs:76 | splitting on the pipe character yields at least one piece and no piece contains a pipe |
| Paths.JoinSplit | Kayla.NET/ProcessingHandler.cs:76 | joining the pieces of a split with the separator restores the extension list |
| Paths.SplitPrefix | SRTSubtitleConverter/ProcessingHandler.cs:40 | a separator-free prefix glued to a string only extends the first piece of its split |
| Paths.SplitJoin | SRTSubtitleConverter/ProcessingHandler.cs:40 | splitting a join of pipe-free pieces gives exactly those pieces back |
| Formats.Lookup | Kayla.NET/ProcessingHandler.cs:52-58 | the selection is present iff some key equals the format exactly, and then it is the value of the first such pair |
| Formats.LookupUnique | Kayla.NET/ProcessingHandler.cs:54-57 | with unique keys every key selects its own value, so the `break` does not change the choice |
| Formats.PrefixFresh | Kayla.NET/ProcessingHandler.cs:21-34 | each `Add` of the constructor is given a key not yet present, and the pairs accumulate in registration order |
| Dispatch.Repeat | Kayla.NET/ProcessingHandler.cs:82 | n copies of one call: the length is n and every element is that call |
| Dispatch.CountAbsent | Kayla.NET/ProcessingHandler.cs:80 | an extension not among the pieces matches no piece |
| Dispatch.CountPresent | Kayla.NET/ProcessingHandler.cs:80 | an extension among the pieces matches at least one piece |
| Dispatch.ChosenNonEmpty | Kayla.NET/ProcessingHandler.cs:74-98 | the scan yields a non-empty result iff some registered parser accepts the extension, parses successfully and converts to a non-empty string |
| Dispatch.ChosenIsLastSuccess | Kayla.NET/ProcessingHandler.cs:74-98 | a non-empty result is the try of a succeeding parser after which no registered parser succeeds: the last success wins |
| Dispatch.CallsAreAcceptingParsers | Kayla.NET/ProcessingHandler.cs:78-87 | `ParseFormat` is called with the given path, for every parser whose pieces contain the extension and for no other; a failed parse never ends the scan |
| Dispatch.AcceptsJoined | Kayla.NET/ProcessingHandler.cs:76-80 | a parser declaring the pipe-separated join of pipe-free extensions is tried for exactly those extensions |
| Dispatch.SingleOutcome | Kayla.NET/ProcessingHandler.cs:72-109 | a single conversion succeeds iff some accepting parser succeeds; it then writes once, to the output file, the last success's text, else nothing; calls are exactly the accepting parsers on the input path |
| Dispatch.ScanStep | Kayla.NET/ProcessingHandler.cs:74-98 | scanning one more registry entry replaces the result iff that entry succeeds and appends that entry's calls |
| Dispatch.TryEntry | Kayla.NET/ProcessingHandler.cs:76-97 | the loop over one parser's pieces takes that parser's try iff it succeeds, else keeps the earlier result, and calls it once on success or once per matching piece otherwise |
| Dispatch.TryParsers | Kayla.NET/ProcessingHandler.cs:74-98 | the nested loop returns `Chosen` and makes exactly the calls `Calls` |
| Dispatch.ConvertOne | Kayla.NET/ProcessingHandler.cs:72-109 | the scan followed by the guarded write has exactly the outcome `Single` |
| Batch.Filter | Kayla.NET/ProcessingHandler.cs:186-194 | every element kept has the requested verdict |
| Batch.FilterPartition | Kayla.NET/ProcessingHandler.cs:186-194 | the two verdicts split a listing: lengths add up and every entry occurs as often in the two parts together as in the listing |
| Batch.RunLists | Kayla.NET/ProcessingHandler.cs:186-194 | the converted list holds exactly the entries with a non-empty result and the unconverted list the others, both in listing order |
| Batch.RunWrites | Kayla.NET/ProcessingHandler.cs:150-190 | one write per converted entry, the k-th to the k-th converted entry's output path with that entry's result |
| Batch.RunPartitions | Kayla.NET/ProcessingHandler.cs:150-195 | every listed entry lands in exactly one list, in listing order, and a file is written for each converted entry and no other |
| Batch.RunStep | Kayla.NET/ProcessingHandler.cs:150-195 | handling one more entry appends it to one list, appends its calls, and appends its write iff it converted |
| Batch.DirectoryPathParsed | Kayla.NET/ProcessingHandler.cs:166 | when entries are not parsed from their own path, every `ParseFormat` call is given the directory path |
| Batch.OutExtOnlyRenames | Kayla.NET/ProcessingHandler.cs:152 | the output extension only renames outputs: same lists, same calls, same written texts |
| Batch.ConvertEntry | Kayla.NET/ProcessingHandler.cs:152-184 | the loop body's work for one entry yields exactly that entry's output path (`EntryOutputPath`), dispatch result (`EntryResult`) and `ParseFormat` calls (`EntryCallsOf`) |
| Batch.RunBatch | Kayla.NET/ProcessingHandler.cs:150-195 | the loop over the listing produces exactly the report `Run`, no entry stopping it |
| Kayla.ParserNamesUnique | Kayla.NET/ProcessingHandler.cs:21-28 | the eight parser keys are pairwise distinct |
| Kayla.ConverterNamesUnique | Kayla.NET/ProcessingHandler.cs:30-34 | the five converter keys are pairwise distinct |
| Kayla.ProcessingHandler.constructor | Kayla.NET/ProcessingHandler.cs:19-35 | the parser and converter registries hold the listed pairs in registration order, each key once |
| Kayla.ProcessingHandler.RegisterParsers | Kayla.NET/ProcessingHandler.cs:21-28 | the eight parser `Add` calls leave the parser registry in that order, keys unique |
| Kayla.ProcessingHandler.RegisterConverters | Kayla.NET/ProcessingHandler.cs:30-34 | the five converter `Add` calls leave the converter registry in that order, keys unique |
| Kayla.ProcessingHandler.AddParser | Kayla.NET/ProcessingHandler.cs:21 | a new key is appended at the end and keys stay unique |
| Kayla.ProcessingHandler.AddConverter | Kayla.NET/ProcessingHandler.cs:30 | a new key is appended at the end and keys stay unique |
| Kayla.ProcessingHandler.SelectConverter | Kayla.NET/ProcessingHandler.cs:52-58 | the loop with `break` selects exactly `Lookup` of the format; with the registry's unique keys, the converter selected is the one whose key equals the format |
| Kayla.ProcessingHandler.Convert | Kayla.NET/ProcessingHandler.cs:37-110 | the return value, writes and calls are exactly `ConvertSpec`: refused on a missing input or unknown format, else the dispatch with the selected converter |
| Kayla.ProcessingHandler.CheckBatch | Kayla.NET/ProcessingHandler.cs:112-143 | the checks before the batch loop select a converter iff both directories exist and the format (empty meaning "SubRip") is registered |
| Kayla.ProcessingHandler.ConvertBath | Kayla.NET/ProcessingHandler.cs:112-218 | returns true iff both directories exist and the format is registered, and the report is exactly the as-written batch run |
| Kayla.ProcessingHandler.ConvertBathCorrected | Kayla.NET/ProcessingHandler.cs:150-195 | same gate, with each entry parsed from its own path and converted by the selected converter |
| Kayla.EffectiveFormat | Kayla.NET/ProcessingHandler.cs:39-42 | the name looked up is never empty, and a non-empty format is looked up as given (see `Kayla.EmptyFormatIsSubRip`) |
| Kayla.OutputFile | Kayla.NET/ProcessingHandler.cs:66-70 | an output path that is not an existing directory is used unchanged (the directory case is `Kayla.OutputFileNaming`) |
| Kayla.EmptyFormatIsSubRip | Kayla.NET/ProcessingHandler.cs:39-42 | an empty format behaves exactly like "SubRip" in single and batch conversion |
| Kayla.DefaultFormatResolves | Kayla.NET/ProcessingHandler.cs:30-42 | the built registry resolves the default format to the SubRip converter and every key to its own converter |
| Kayla.ConvertOutcome | Kayla.NET/ProcessingHandler.cs:37-110 | `Convert` returns false with no write and no parser call on a missing input or unknown format; otherwise true iff some accepting parser succeeds, writing once to the output file the last success's text; once accepted, exactly the parsers accepting the input's extension are called, each with the input path |
| Kayla.OutputFileNaming | Kayla.NET/ProcessingHandler.cs:66-70 | any output path that is not an existing directory is used unchanged; into an existing directory, for a well-formed converter extension, the file written is named after the input with that extension and has that extension |
| Kayla.BatchParsesDirectory | Kayla.NET/ProcessingHandler.cs:166 | as written, every `ParseFormat` call of the batch is given the input directory path |
| Kayla.BatchIgnoresFormat | Kayla.NET/ProcessingHandler.cs:173-174 | as written, any two accepted formats convert the same entries into the same texts |
| Kayla.BatchReport | Kayla.NET/ProcessingHandler.cs:150-217 | once the checks pass the batch returns true, partitions the listing in order, and writes the SubRip text of the directory's parse under each converted entry's name with the selected extension |
| Kayla.CorrectedEntryMatchesConvert | Kayla.NET/ProcessingHandler.cs:150-195 | corrected, each batch entry is written and parsed exactly as a single `Convert` of that entry into the output directory |
| SrtConverter.FormatNamesUnique | SRTSubtitleConverter/ProcessingHandler.cs:17-24 | the eight format keys are pairwise distinct |
| SrtConverter.ProcessingHandler.constructor | SRTSubtitleConverter/ProcessingHandler.cs:15-25 | the registry holds the listed pairs in registration order, each key once |
| SrtConverter.ProcessingHandler.AddFormat | SRTSubtitleConverter/ProcessingHandler.cs:17 | a new key is appended at the end and keys stay unique |
| SrtConverter.ProcessingHandler.ConvertToSRT | SRTSubtitleConverter/ProcessingHandler.cs:27-75 | the return value, writes and calls are exactly the SubRip dispatch written to the output file path |
| SrtConverter.ProcessingHandler.ConvertBathToSRT | SRTSubtitleConverter/ProcessingHandler.cs:77-152 | always returns true, and the report is exactly the as-written batch run |
| SrtConverter.ProcessingHandler.ConvertBathToSRTCorrected | SRTSubtitleConverter/ProcessingHandler.cs:84-129 | always returns true, with each entry parsed from its own path |
| SrtConverter.ConvertToSRTOutcome | SRTSubtitleConverter/ProcessingHandler.cs:38-75 | true iff some accepting parser yields non-empty SubRip text; then one write, to the output file path, of the last success's text, else none; calls are exactly the accepting parsers |
| SrtConverter.OutputFilePath | SRTSubtitleConverter/ProcessingHandler.cs:31-36 | without `folderFlag` the output path is used unchanged (the `folderFlag` case is `SrtConverter.OutputFilePathNaming`) |
| SrtConverter.OutputFilePathNaming | SRTSubtitleConverter/ProcessingHandler.cs:31-36 | with `folderFlag` the file written is named after the input with ".srt"; without it the output path is used as given |
| SrtConverter.BatchToSRTReport | SRTSubtitleConverter/ProcessingHandler.cs:77-152 | the batch partitions the listing in order, writes each converted entry under its name with ".srt", and parses the directory path for every entry |
| SrtConverter.CorrectedEntryMatchesConvertToSRT | SRTSubtitleConverter/ProcessingHandler.cs:84-129 | corrected, each batch entry is written and parsed exactly as `ConvertToSRT` of that entry into the output folder |

## Left out

- Console output (`Console.WriteLine`) has no effect on results and is not modelled.
- The parser and converter classes are not part of this model: `FileExtension`, `ParseFormat` and `Convert` are the uninterpreted fields of `Library`. `ParseFormat` is taken to be a function of the parser and the path, so repeated calls give the same answer.
- File I/O is a parameter: `File.Exists` and `Directory.Exists` are membership in `FileSystem.files` and `FileSystem.directories`, and `DirectoryInfo.GetFiles` is `FileSystem.listing`. Writes are recorded as `FileWrite` values and always succeed.
- .NET exceptions are not modelled: `GetFiles` on a missing directory in `ConvertBathToSRT`, a failing `WriteAllText`, or a parser that throws.
- A null converted text is represented by "": the source tests it only through `IsNullOrEmpty` (Kayla.NET/ProcessingHandler.cs:91, 101, 176, 186; SRTSubtitleConverter/ProcessingHandler.cs:56, 66, 110, 120), which treats null and "" alike.
- A null `format` is not modelled: the source does not replace it by "SubRip" (it tests `format == string.Empty`), no key equals it, and `Convert`/`ConvertBath` return false; the model's `format` is a string and cannot be null.
- A null parser `FileExtension` is not modelled: `Split('|')` on it throws, whereas the model's extension lists are strings.
- The UTF-8 encoding of the written text, including its byte-order mark, is not modelled; contents are strings.
- Paths.GetFileName: the volume separator ':' is not treated as a separator and invalid path characters are not rejected.
- Only the Windows behaviour of the .NET path functions is modelled ('\' and '/' both separate, "X:" is a root); on other platforms only '/' separates, and that behaviour is not modelled.
- Dictionary enumeration order is taken to be insertion order, which holds for dictionaries that are only added to.
- Kayla.ProcessingHandler.constructor: the eight and five `Add` calls are grouped into `RegisterParsers` and `RegisterConverters`; the order and the pairs are the source's.
- Dispatch.TryParsers: the inner loop is the separate method `TryEntry`, and its `break` is a `return` from it; the behaviour is the same.

## Findings

| source | as written | input that shows it | evidently intended | confidence | as-written member | corrected member |
|---|---|---|---|---|---|---|
| Kayla.NET/ProcessingHandler.cs:166 | each batch entry is parsed with `ParseFormat(inputPath, …)`, the directory path, not the entry's own path | a directory "subs" listing "a.srt": the SubRip parser is asked to parse "subs", never "subs\a.srt" | parse `Path.Combine(inputPath, f.Name)`, as `Convert` parses its input file | not executed | Kayla.BatchParsesDirectory | Kayla.CorrectedEntryMatchesConvert |
| Kayla.NET/ProcessingHandler.cs:173-174 | the batch converts with a new `SRTConverter`, while outputs are named with the selected converter's extension | format "SAMI": every output is SubRip text in a file named with the SAMI extension | convert with `selectedConverter`, as `Convert` does | not executed | Kayla.BatchIgnoresFormat | Kayla.ProcessingHandler.ConvertBathCorrected |
| SRTSubtitleConverter/ProcessingHandler.cs:100 | each batch entry is parsed with `ParseFormat(inputPath, …)`, the directory path | a directory "subs" listing "a.vtt": the WebVTT parser is asked to parse "subs" | parse `Path.Combine(inputPath, f.Name)`, as `ConvertToSRT` parses its input file | not executed | SrtConverter.BatchToSRTReport | SrtConverter.CorrectedEntryMatchesConvertToSRT |
