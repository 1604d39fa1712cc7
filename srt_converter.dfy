/** The processing handler of the SRTSubtitleConverter front end: converts
    one file, or every file of a directory, to SubRip. */
module SrtConverter {
  import opened Paths
  import opened Formats
  import opened Dispatch
  import opened Batch

  /** The parser registry in the order the constructor adds it. */
  function FormatRegistry(): seq<Entry<ParserClass>> {
    [Entry("MicroDVD", MicroDVDParser), Entry("SAMI", SAMIParser),
     Entry("SubStation Alpha", SSAParser), Entry("SubViewer 2.0", SubViewerParser),
     Entry("Timed Text", TTMLParser), Entry("WebVTT", VTTParser),
     Entry("Youtube Subtitle XML", YtXmlParser), Entry("SubRip", SRTParser)]
  }

  /** The registry keys are distinct: no two have both the same length and
      the same first letter. */
  lemma FormatNamesUnique()
    ensures UniqueNames(FormatRegistry())
  {
    var reg := FormatRegistry();
    forall i, j | 0 <= i < j < |reg| ensures reg[i].name != reg[j].name {
      assert |reg[i].name| != |reg[j].name| || reg[i].name[0] != reg[j].name[0];
    }
  }

  /** Where `ConvertToSRT` writes: with `folderFlag`, into `outputPath` under
      the input's name with ".srt"; without it, to `outputPath` itself. */
  function OutputFilePath(inputPath: string, outputPath: string, folderFlag: bool): (out: string)
    ensures !folderFlag ==> out == outputPath
  {
    if folderFlag then Combine(outputPath, GetFileNameWithoutExtension(inputPath) + ".srt") else outputPath
  }

  /** `ConvertToSRT(inputPath, outputPath, folderFlag)`. */
  function ConvertToSRTSpec(lib: Library, formats: seq<Entry<ParserClass>>, inputPath: string,
                            outputPath: string, folderFlag: bool): Outcome
  {
    Single(lib, formats, inputPath, SRTConverter, OutputFilePath(inputPath, outputPath, folderFlag))
  }

  /** The batch loop as written: every entry is parsed from the directory path. */
  const AsWrittenPlan := Plan(false, SRTConverter, ".srt")

  /** The batch loop as evidently intended: every entry is parsed from its own path. */
  const CorrectedPlan := Plan(true, SRTConverter, ".srt")

  class ProcessingHandler {
    const lib: Library
    var formats: seq<Entry<ParserClass>>

    /** The dictionary holds each key at most once. */
    ghost predicate Valid()
      reads this
    {
      UniqueNames(formats)
    }

    constructor (lib: Library)
      ensures this.lib == lib && Valid() && formats == FormatRegistry()
    {
      this.lib := lib;
      formats := [];
      new;
      FormatNamesUnique();
      PrefixFresh(FormatRegistry(), 0);
      AddFormat("MicroDVD", MicroDVDParser);
      assert formats == FormatRegistry()[..1];
      PrefixFresh(FormatRegistry(), 1);
      AddFormat("SAMI", SAMIParser);
      assert formats == FormatRegistry()[..2];
      PrefixFresh(FormatRegistry(), 2);
      AddFormat("SubStation Alpha", SSAParser);
      assert formats == FormatRegistry()[..3];
      PrefixFresh(FormatRegistry(), 3);
      AddFormat("SubViewer 2.0", SubViewerParser);
      assert formats == FormatRegistry()[..4];
      PrefixFresh(FormatRegistry(), 4);
      AddFormat("Timed Text", TTMLParser);
      assert formats == FormatRegistry()[..5];
      PrefixFresh(FormatRegistry(), 5);
      AddFormat("WebVTT", VTTParser);
      assert formats == FormatRegistry()[..6];
      PrefixFresh(FormatRegistry(), 6);
      AddFormat("Youtube Subtitle XML", YtXmlParser);
      assert formats == FormatRegistry()[..7];
      PrefixFresh(FormatRegistry(), 7);
      AddFormat("SubRip", SRTParser);
      assert formats == FormatRegistry()[..8];
    }

    /** `_supportedFormats.Add(name, parser)`; a repeated key would throw. */
    method AddFormat(name: string, p: ParserClass)
      requires Valid() && !Registered(formats, name)
      modifies this`formats
      ensures Valid() && formats == old(formats) + [Entry(name, p)]
    {
      formats := formats + [Entry(name, p)];
    }

    method ConvertToSRT(inputPath: string, outputPath: string, folderFlag: bool)
      returns (ok: bool, writes: seq<FileWrite>, calls: seq<ParseCall>)
      ensures Outcome(ok, writes, calls) == ConvertToSRTSpec(lib, formats, inputPath, outputPath, folderFlag)
    {
      var outputFilePath := outputPath;
      if folderFlag {
        outputFilePath := Combine(outputPath, GetFileNameWithoutExtension(inputPath) + ".srt");
      }
      ok, writes, calls := ConvertOne(lib, formats, inputPath, SRTConverter, outputFilePath);
    }

    method ConvertBathToSRT(fs: FileSystem, inputPath: string, outputPath: string)
      returns (ok: bool, report: Report)
      ensures ok
      ensures report == Run(lib, formats, AsWrittenPlan, inputPath, outputPath, fs.listing(inputPath))
    {
      report := RunBatch(lib, formats, AsWrittenPlan, inputPath, outputPath, fs.listing(inputPath));
      ok := true;
    }

    /** `ConvertBathToSRT` with each entry parsed from its own path. */
    method ConvertBathToSRTCorrected(fs: FileSystem, inputPath: string, outputPath: string)
      returns (ok: bool, report: Report)
      ensures ok
      ensures report == Run(lib, formats, CorrectedPlan, inputPath, outputPath, fs.listing(inputPath))
    {
      report := RunBatch(lib, formats, CorrectedPlan, inputPath, outputPath, fs.listing(inputPath));
      ok := true;
    }
  }

  /** `ConvertToSRT` succeeds exactly when some parser accepting the input's
      extension yields a non-empty SubRip conversion; it then writes once,
      to the output file path, the output of the last such parser, and
      otherwise writes nothing. Every parser accepting the extension is
      called with the input path, and no other. */
  lemma ConvertToSRTOutcome(lib: Library, formats: seq<Entry<ParserClass>>, inputPath: string,
                            outputPath: string, folderFlag: bool)
    ensures var o := ConvertToSRTSpec(lib, formats, inputPath, outputPath, folderFlag);
            var ext := GetExtension(inputPath);
            (o.ok <==> exists i :: 0 <= i < |formats| && Succeeds(lib, formats[i].impl, ext, inputPath, SRTConverter)) &&
            |o.writes| == (if o.ok then 1 else 0) &&
            (o.ok ==> o.writes[0].path == OutputFilePath(inputPath, outputPath, folderFlag) &&
                      exists i :: LastSuccessAt(lib, formats, ext, inputPath, SRTConverter, i, o.writes[0].content)) &&
            forall c :: c in o.calls <==>
              c.path == inputPath && exists i :: 0 <= i < |formats| && formats[i].name == c.parser &&
                                                 Accepts(lib, formats[i].impl, ext)
  {
    SingleOutcome(lib, formats, inputPath, SRTConverter, OutputFilePath(inputPath, outputPath, folderFlag));
  }

  /** ".srt" is a well-formed extension. */
  lemma SrtIsExtension()
    ensures IsExtension(".srt")
  {
  }

  /** With `folderFlag` the file written is named after the input with
      ".srt"; without it the output path is used as given. */
  lemma OutputFilePathNaming(inputPath: string, outputPath: string, folderFlag: bool)
    ensures !folderFlag ==> OutputFilePath(inputPath, outputPath, folderFlag) == outputPath
    ensures folderFlag && !IsPathRooted(GetFileNameWithoutExtension(inputPath) + ".srt") ==>
            GetFileName(OutputFilePath(inputPath, outputPath, folderFlag)) == GetFileNameWithoutExtension(inputPath) + ".srt" &&
            GetExtension(OutputFilePath(inputPath, outputPath, folderFlag)) == ".srt"
  {
    var stem := GetFileNameWithoutExtension(inputPath);
    if folderFlag && !IsPathRooted(stem + ".srt") {
      StemOfFileName(inputPath);
      SrtIsExtension();
      NamedInto(outputPath, stem, ".srt");
    }
  }

  /** `ConvertBathToSRT` always returns true, puts every listed entry in
      exactly one of the two lists in listing order, writes each converted
      entry under its name with ".srt", and parses the directory path for
      every entry. */
  lemma BatchToSRTReport(lib: Library, formats: seq<Entry<ParserClass>>, fs: FileSystem,
                         inputPath: string, outputPath: string)
    ensures var r := Run(lib, formats, AsWrittenPlan, inputPath, outputPath, fs.listing(inputPath));
            var files := fs.listing(inputPath);
            |r.converted| + |r.unconverted| == |files| &&
            multiset(r.converted) + multiset(r.unconverted) == multiset(files) &&
            r.converted == Filter(files, Converts(lib, formats, AsWrittenPlan, inputPath), true) &&
            r.unconverted == Filter(files, Converts(lib, formats, AsWrittenPlan, inputPath), false) &&
            |r.writes| == |r.converted| &&
            (forall k :: 0 <= k < |r.writes| ==>
              r.writes[k] == FileWrite(Combine(outputPath, GetFileNameWithoutExtension(r.converted[k]) + ".srt"),
                                       Chosen(lib, formats, GetExtension(r.converted[k]), inputPath, SRTConverter))) &&
            forall c :: c in r.calls ==> c.path == inputPath
  {
    var files := fs.listing(inputPath);
    RunPartitions(lib, formats, AsWrittenPlan, inputPath, outputPath, files);
    DirectoryPathParsed(lib, formats, AsWrittenPlan, inputPath, outputPath, files);
  }

  /** Corrected, each entry of the batch is written exactly as `ConvertToSRT`
      of that entry into the output folder would write it, and the same
      parsers are called for it. */
  lemma CorrectedEntryMatchesConvertToSRT(lib: Library, formats: seq<Entry<ParserClass>>, inputPath: string,
                                          outputPath: string, f: string)
    requires PlainName(f)
    ensures var single := ConvertToSRTSpec(lib, formats, Combine(inputPath, f), outputPath, true);
            EntryWrites(lib, formats, CorrectedPlan, inputPath, outputPath, f) == single.writes &&
            EntryCallsOf(lib, formats, CorrectedPlan, inputPath, f) == single.calls
  {
    CombineKeepsNameParts(inputPath, f);
  }
}
