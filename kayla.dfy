/** The processing handler of the Kayla.NET front end: converts one file, or
    every file of a directory, into a chosen target format. */
module Kayla {
  import opened Paths
  import opened Formats
  import opened Dispatch
  import opened Batch

  /** The parser registry in the order the constructor adds it. */
  function ParserRegistry(): seq<Entry<ParserClass>> {
    [Entry("MicroDVD", MicroDVDParser), Entry("SAMI", SAMIParser),
     Entry("SubStationAlpha", SSAParser), Entry("SubViewer", SubViewerParser),
     Entry("TimedText", TTMLParser), Entry("WebVTT", VTTParser),
     Entry("YtXml", YtXmlParser), Entry("SubRip", SRTParser)]
  }

  /** The converter registry in the order the constructor adds it. */
  function ConverterRegistry(): seq<Entry<ConverterClass>> {
    [Entry("MicroDVD", MicroDVDConverter), Entry("SAMI", SAMIConverter),
     Entry("SubStationAlpha", SSAConverter), Entry("SubViewer", SubViewerConverter),
     Entry("SubRip", SRTConverter)]
  }

  /** The parser keys are distinct: no two have both the same length and
      the same first letter. */
  lemma ParserNamesUnique()
    ensures UniqueNames(ParserRegistry())
  {
    var reg := ParserRegistry();
    forall i, j | 0 <= i < j < |reg| ensures reg[i].name != reg[j].name {
      assert |reg[i].name| != |reg[j].name| || reg[i].name[0] != reg[j].name[0];
    }
  }

  /** The converter keys are distinct. */
  lemma ConverterNamesUnique()
    ensures UniqueNames(ConverterRegistry())
  {
    var reg := ConverterRegistry();
    forall i, j | 0 <= i < j < |reg| ensures reg[i].name != reg[j].name {
      assert |reg[i].name| != |reg[j].name|;
    }
  }

  /** The format name looked up: an empty name stands for "SubRip". */
  function EffectiveFormat(format: string): (name: string)
    ensures name != ""
    ensures format != "" ==> name == format
  {
    if format == "" then "SubRip" else format
  }

  /** Where a single conversion writes: into an existing output directory
      under the input's name with the converter's extension, else to the
      output path itself. */
  function OutputFile(fs: FileSystem, inputPath: string, outputPath: string, ext: string): (out: string)
    ensures outputPath !in fs.directories ==> out == outputPath
  {
    if outputPath in fs.directories then Combine(outputPath, GetFileNameWithoutExtension(inputPath) + ext)
    else outputPath
  }

  /** `Convert(inputPath, outputPath, format)`. */
  function ConvertSpec(lib: Library, parsers: seq<Entry<ParserClass>>, converters: seq<Entry<ConverterClass>>,
                       fs: FileSystem, inputPath: string, outputPath: string, format: string): Outcome
  {
    if inputPath !in fs.files then Refused
    else match Lookup(converters, EffectiveFormat(format))
      case None => Refused
      case Some(c) => Single(lib, parsers, inputPath, c, OutputFile(fs, inputPath, outputPath, lib.converterExtension(c)))
  }

  /** The checks `ConvertBath` makes before its loop: both directories exist
      and the format names a converter, which is then the selected one. */
  function BatchGate(fs: FileSystem, converters: seq<Entry<ConverterClass>>, inputPath: string,
                     outputPath: string, format: string): Option<ConverterClass>
  {
    if inputPath !in fs.directories || outputPath !in fs.directories then None
    else Lookup(converters, EffectiveFormat(format))
  }

  /** The batch loop as written: every entry is parsed from the directory
      path and converted by the SubRip converter, while outputs are named
      with the selected converter's extension. */
  function AsWrittenPlan(lib: Library, selected: ConverterClass): Plan {
    Plan(false, SRTConverter, lib.converterExtension(selected))
  }

  /** The batch loop as evidently intended: every entry is parsed from its
      own path and converted by the selected converter. */
  function CorrectedPlan(lib: Library, selected: ConverterClass): Plan {
    Plan(true, selected, lib.converterExtension(selected))
  }

  datatype BatchOutcome = BatchOutcome(ok: bool, report: Report)

  /** `ConvertBath(inputPath, outputPath, format)`. */
  function ConvertBathSpec(lib: Library, parsers: seq<Entry<ParserClass>>, converters: seq<Entry<ConverterClass>>,
                           fs: FileSystem, inputPath: string, outputPath: string, format: string): BatchOutcome
  {
    match BatchGate(fs, converters, inputPath, outputPath, format)
    case None => BatchOutcome(false, NoReport)
    case Some(c) => BatchOutcome(true, Run(lib, parsers, AsWrittenPlan(lib, c), inputPath, outputPath, fs.listing(inputPath)))
  }

  /** The batch conversion with both defects of `ConvertBath` repaired. */
  function ConvertBathCorrectedSpec(lib: Library, parsers: seq<Entry<ParserClass>>,
                                    converters: seq<Entry<ConverterClass>>, fs: FileSystem,
                                    inputPath: string, outputPath: string, format: string): BatchOutcome
  {
    match BatchGate(fs, converters, inputPath, outputPath, format)
    case None => BatchOutcome(false, NoReport)
    case Some(c) => BatchOutcome(true, Run(lib, parsers, CorrectedPlan(lib, c), inputPath, outputPath, fs.listing(inputPath)))
  }

  class ProcessingHandler {
    const lib: Library
    var parsers: seq<Entry<ParserClass>>
    var converters: seq<Entry<ConverterClass>>

    /** Both dictionaries hold each key at most once. */
    ghost predicate Valid()
      reads this
    {
      UniqueNames(parsers) && UniqueNames(converters)
    }

    constructor (lib: Library)
      ensures this.lib == lib && Valid()
      ensures parsers == ParserRegistry() && converters == ConverterRegistry()
    {
      this.lib := lib;
      parsers, converters := [], [];
      new;
      RegisterParsers();
      RegisterConverters();
    }

    /** The constructor's eight `_supportedParsers.Add` calls. */
    method RegisterParsers()
      requires parsers == [] && UniqueNames(converters)
      modifies this`parsers
      ensures Valid() && parsers == ParserRegistry()
    {
      ParserNamesUnique();
      PrefixFresh(ParserRegistry(), 0);
      AddParser("MicroDVD", MicroDVDParser);
      assert parsers == ParserRegistry()[..1];
      PrefixFresh(ParserRegistry(), 1);
      AddParser("SAMI", SAMIParser);
      assert parsers == ParserRegistry()[..2];
      PrefixFresh(ParserRegistry(), 2);
      AddParser("SubStationAlpha", SSAParser);
      assert parsers == ParserRegistry()[..3];
      PrefixFresh(ParserRegistry(), 3);
      AddParser("SubViewer", SubViewerParser);
      assert parsers == ParserRegistry()[..4];
      PrefixFresh(ParserRegistry(), 4);
      AddParser("TimedText", TTMLParser);
      assert parsers == ParserRegistry()[..5];
      PrefixFresh(ParserRegistry(), 5);
      AddParser("WebVTT", VTTParser);
      assert parsers == ParserRegistry()[..6];
      PrefixFresh(ParserRegistry(), 6);
      AddParser("YtXml", YtXmlParser);
      assert parsers == ParserRegistry()[..7];
      PrefixFresh(ParserRegistry(), 7);
      AddParser("SubRip", SRTParser);
      assert parsers == ParserRegistry()[..8];
    }

    /** The constructor's five `_supportedConverters.Add` calls. */
    method RegisterConverters()
      requires converters == [] && UniqueNames(parsers)
      modifies this`converters
      ensures Valid() && converters == ConverterRegistry()
    {
      ConverterNamesUnique();
      PrefixFresh(ConverterRegistry(), 0);
      AddConverter("MicroDVD", MicroDVDConverter);
      PrefixFresh(ConverterRegistry(), 1);
      AddConverter("SAMI", SAMIConverter);
      PrefixFresh(ConverterRegistry(), 2);
      AddConverter("SubStationAlpha", SSAConverter);
      PrefixFresh(ConverterRegistry(), 3);
      AddConverter("SubViewer", SubViewerConverter);
      PrefixFresh(ConverterRegistry(), 4);
      AddConverter("SubRip", SRTConverter);
      assert converters == ConverterRegistry()[..5];
    }

    /** `_supportedParsers.Add(name, parser)`; a repeated key would throw. */
    method AddParser(name: string, p: ParserClass)
      requires Valid() && !Registered(parsers, name)
      modifies this`parsers
      ensures Valid() && parsers == old(parsers) + [Entry(name, p)]
    {
      parsers := parsers + [Entry(name, p)];
    }

    /** `_supportedConverters.Add(name, converter)`; a repeated key would throw. */
    method AddConverter(name: string, c: ConverterClass)
      requires Valid() && !Registered(converters, name)
      modifies this`converters
      ensures Valid() && converters == old(converters) + [Entry(name, c)]
    {
      converters := converters + [Entry(name, c)];
    }

    /** The `foreach` over the converters whose key equals the format, left
        at the first one. */
    method SelectConverter(format: string) returns (selected: Option<ConverterClass>)
      ensures selected == Lookup(converters, format)
      ensures Valid() ==> forall i :: 0 <= i < |converters| && converters[i].name == format ==>
                                      selected == Some(converters[i].impl)
    {
      selected := None;
      var i := 0;
      while i < |converters|
        invariant 0 <= i <= |converters|
        invariant forall j :: 0 <= j < i ==> converters[j].name != format
      {
        if converters[i].name == format {
          selected := Some(converters[i].impl);
          break;
        }
        i := i + 1;
      }
      if Valid() {
        forall k | 0 <= k < |converters| && converters[k].name == format
          ensures selected == Some(converters[k].impl)
        {
          LookupUnique(converters, k);
        }
      }
    }

    method Convert(fs: FileSystem, inputPath: string, outputPath: string, format: string)
      returns (ok: bool, writes: seq<FileWrite>, calls: seq<ParseCall>)
      ensures Outcome(ok, writes, calls) == ConvertSpec(lib, parsers, converters, fs, inputPath, outputPath, format)
    {
      var fmt := format;
      if fmt == "" {
        fmt := "SubRip";
      }
      if inputPath !in fs.files {
        return false, [], [];
      }
      var selectedConverter := SelectConverter(fmt);
      if selectedConverter.None? {
        return false, [], [];
      }
      var target := selectedConverter.value;
      var outputFile := outputPath;
      if outputPath in fs.directories {
        var fileName := GetFileNameWithoutExtension(inputPath) + lib.converterExtension(target);
        outputFile := Combine(outputPath, fileName);
      }
      ok, writes, calls := ConvertOne(lib, parsers, inputPath, target, outputFile);
    }

    /** The checks ahead of the batch loop; None when `ConvertBath` returns false. */
    method CheckBatch(fs: FileSystem, inputPath: string, outputPath: string, format: string)
      returns (selected: Option<ConverterClass>)
      ensures selected == BatchGate(fs, converters, inputPath, outputPath, format)
    {
      var fmt := format;
      if fmt == "" {
        fmt := "SubRip";
      }
      if inputPath !in fs.directories || outputPath !in fs.directories {
        return None;
      }
      selected := SelectConverter(fmt);
    }

    method ConvertBath(fs: FileSystem, inputPath: string, outputPath: string, format: string)
      returns (ok: bool, report: Report)
      ensures ok <==> inputPath in fs.directories && outputPath in fs.directories &&
                      Registered(converters, EffectiveFormat(format))
      ensures BatchOutcome(ok, report) == ConvertBathSpec(lib, parsers, converters, fs, inputPath, outputPath, format)
    {
      var selected := CheckBatch(fs, inputPath, outputPath, format);
      if selected.None? {
        return false, NoReport;
      }
      report := RunBatch(lib, parsers, AsWrittenPlan(lib, selected.value), inputPath, outputPath, fs.listing(inputPath));
      ok := true;
    }

    /** `ConvertBath` with each entry parsed from its own path and converted
        by the selected converter. */
    method ConvertBathCorrected(fs: FileSystem, inputPath: string, outputPath: string, format: string)
      returns (ok: bool, report: Report)
      ensures ok <==> inputPath in fs.directories && outputPath in fs.directories &&
                      Registered(converters, EffectiveFormat(format))
      ensures BatchOutcome(ok, report) ==
              ConvertBathCorrectedSpec(lib, parsers, converters, fs, inputPath, outputPath, format)
    {
      var selected := CheckBatch(fs, inputPath, outputPath, format);
      if selected.None? {
        return false, NoReport;
      }
      var c := selected.value;
      report := RunBatch(lib, parsers, CorrectedPlan(lib, c), inputPath, outputPath, fs.listing(inputPath));
      ok := true;
    }
  }

  /** An empty format name behaves exactly like "SubRip", in both modes. */
  lemma EmptyFormatIsSubRip(lib: Library, parsers: seq<Entry<ParserClass>>, converters: seq<Entry<ConverterClass>>,
                            fs: FileSystem, inputPath: string, outputPath: string)
    ensures ConvertSpec(lib, parsers, converters, fs, inputPath, outputPath, "") ==
            ConvertSpec(lib, parsers, converters, fs, inputPath, outputPath, "SubRip")
    ensures ConvertBathSpec(lib, parsers, converters, fs, inputPath, outputPath, "") ==
            ConvertBathSpec(lib, parsers, converters, fs, inputPath, outputPath, "SubRip")
  {
  }

  /** The registry the constructor builds resolves the default format to the
      SubRip converter, and every name to its own converter. */
  lemma DefaultFormatResolves()
    ensures Lookup(ConverterRegistry(), EffectiveFormat("")) == Some(SRTConverter)
    ensures forall i :: 0 <= i < |ConverterRegistry()| ==>
              Lookup(ConverterRegistry(), ConverterRegistry()[i].name) == Some(ConverterRegistry()[i].impl)
  {
    var reg := ConverterRegistry();
    ConverterNamesUnique();
    forall i | 0 <= i < |reg| ensures Lookup(reg, reg[i].name) == Some(reg[i].impl) {
      LookupUnique(reg, i);
    }
  }

  /** `Convert` returns false, writes nothing and calls no parser when the
      input file is missing or the format has no converter; otherwise it
      succeeds exactly when some parser accepting the input's extension
      yields a non-empty conversion by the selected converter, and then
      writes once, to the output file, the output of the last such parser.
      Once accepted, every parser accepting the extension is called with the
      input path, and no other; a refused call invokes no parser. */
  lemma ConvertOutcome(lib: Library, parsers: seq<Entry<ParserClass>>, converters: seq<Entry<ConverterClass>>,
                       fs: FileSystem, inputPath: string, outputPath: string, format: string)
    ensures var o := ConvertSpec(lib, parsers, converters, fs, inputPath, outputPath, format);
            var sel := Lookup(converters, EffectiveFormat(format));
            var ext := GetExtension(inputPath);
            (inputPath !in fs.files || sel.None? ==> o == Refused) &&
            (o.ok <==> inputPath in fs.files && sel.Some? &&
                       exists i :: 0 <= i < |parsers| && Succeeds(lib, parsers[i].impl, ext, inputPath, sel.value)) &&
            |o.writes| == (if o.ok then 1 else 0) &&
            (o.ok ==> o.writes[0].path == OutputFile(fs, inputPath, outputPath, lib.converterExtension(sel.value)) &&
                      exists i :: LastSuccessAt(lib, parsers, ext, inputPath, sel.value, i, o.writes[0].content)) &&
            forall c :: c in o.calls <==>
              inputPath in fs.files && sel.Some? && c.path == inputPath &&
              exists i :: 0 <= i < |parsers| && parsers[i].name == c.parser && Accepts(lib, parsers[i].impl, ext)
  {
    var sel := Lookup(converters, EffectiveFormat(format));
    if inputPath in fs.files && sel.Some? {
      var c := sel.value;
      SingleOutcome(lib, parsers, inputPath, c, OutputFile(fs, inputPath, outputPath, lib.converterExtension(c)));
    }
  }

  /** Into an existing output directory, the file written is named after the
      input with the converter's extension; any other output path is used as
      given. */
  lemma OutputFileNaming(fs: FileSystem, inputPath: string, outputPath: string, ext: string)
    ensures outputPath !in fs.directories ==> OutputFile(fs, inputPath, outputPath, ext) == outputPath
    ensures outputPath in fs.directories && IsExtension(ext) &&
            !IsPathRooted(GetFileNameWithoutExtension(inputPath) + ext) ==>
            GetFileName(OutputFile(fs, inputPath, outputPath, ext)) == GetFileNameWithoutExtension(inputPath) + ext &&
            GetExtension(OutputFile(fs, inputPath, outputPath, ext)) == ext
  {
    var stem := GetFileNameWithoutExtension(inputPath);
    if outputPath in fs.directories && IsExtension(ext) && !IsPathRooted(stem + ext) {
      StemOfFileName(inputPath);
      NamedInto(outputPath, stem, ext);
    }
  }

  /** As written, the batch parses the directory path for every entry. */
  lemma BatchParsesDirectory(lib: Library, parsers: seq<Entry<ParserClass>>, converters: seq<Entry<ConverterClass>>,
                             fs: FileSystem, inputPath: string, outputPath: string, format: string)
    ensures forall c :: c in ConvertBathSpec(lib, parsers, converters, fs, inputPath, outputPath, format).report.calls ==>
              c.path == inputPath
  {
    match BatchGate(fs, converters, inputPath, outputPath, format)
    case None =>
    case Some(sel) =>
      DirectoryPathParsed(lib, parsers, AsWrittenPlan(lib, sel), inputPath, outputPath, fs.listing(inputPath));
  }

  /** As written, the requested format only renames the outputs: any two
      accepted formats convert the same entries into the same texts. */
  lemma BatchIgnoresFormat(lib: Library, parsers: seq<Entry<ParserClass>>, converters: seq<Entry<ConverterClass>>,
                           fs: FileSystem, inputPath: string, outputPath: string, format: string, other: string)
    requires BatchGate(fs, converters, inputPath, outputPath, format).Some?
    requires BatchGate(fs, converters, inputPath, outputPath, other).Some?
    ensures var r := ConvertBathSpec(lib, parsers, converters, fs, inputPath, outputPath, format).report;
            var q := ConvertBathSpec(lib, parsers, converters, fs, inputPath, outputPath, other).report;
            r.converted == q.converted && |r.writes| == |q.writes| &&
            forall k :: 0 <= k < |r.writes| ==> r.writes[k].content == q.writes[k].content
  {
    var a := BatchGate(fs, converters, inputPath, outputPath, format).value;
    var b := BatchGate(fs, converters, inputPath, outputPath, other).value;
    OutExtOnlyRenames(lib, parsers, AsWrittenPlan(lib, a), AsWrittenPlan(lib, b), inputPath, outputPath,
                      fs.listing(inputPath));
  }

  /** As written, `ConvertBath` returns true whenever its checks pass, puts
      every listed entry in exactly one of the two lists in listing order,
      and writes, for each converted entry, the SubRip conversion of the
      directory path's parse under the entry's name with the selected
      converter's extension. */
  lemma BatchReport(lib: Library, parsers: seq<Entry<ParserClass>>, converters: seq<Entry<ConverterClass>>,
                    fs: FileSystem, inputPath: string, outputPath: string, format: string)
    requires BatchGate(fs, converters, inputPath, outputPath, format).Some?
    ensures var sel := BatchGate(fs, converters, inputPath, outputPath, format).value;
            var b := ConvertBathSpec(lib, parsers, converters, fs, inputPath, outputPath, format);
            var files := fs.listing(inputPath);
            b.ok && |b.report.converted| + |b.report.unconverted| == |files| &&
            multiset(b.report.converted) + multiset(b.report.unconverted) == multiset(files) &&
            b.report.converted == Filter(files, Converts(lib, parsers, AsWrittenPlan(lib, sel), inputPath), true) &&
            b.report.unconverted == Filter(files, Converts(lib, parsers, AsWrittenPlan(lib, sel), inputPath), false) &&
            |b.report.writes| == |b.report.converted| &&
            forall k :: 0 <= k < |b.report.writes| ==>
              var f := b.report.converted[k];
              b.report.writes[k] ==
                FileWrite(Combine(outputPath, GetFileNameWithoutExtension(f) + lib.converterExtension(sel)),
                          Chosen(lib, parsers, GetExtension(f), inputPath, SRTConverter))
  {
    var sel := BatchGate(fs, converters, inputPath, outputPath, format).value;
    RunPartitions(lib, parsers, AsWrittenPlan(lib, sel), inputPath, outputPath, fs.listing(inputPath));
  }

  /** Corrected, each entry of the batch is written exactly as a single
      `Convert` of that entry into the output directory would write it, and
      the same parsers are called for it. */
  lemma CorrectedEntryMatchesConvert(lib: Library, parsers: seq<Entry<ParserClass>>,
                                     converters: seq<Entry<ConverterClass>>, fs: FileSystem,
                                     inputPath: string, outputPath: string, format: string, f: string)
    requires BatchGate(fs, converters, inputPath, outputPath, format).Some?
    requires PlainName(f) && Combine(inputPath, f) in fs.files
    ensures var plan := CorrectedPlan(lib, BatchGate(fs, converters, inputPath, outputPath, format).value);
            var single := ConvertSpec(lib, parsers, converters, fs, Combine(inputPath, f), outputPath, format);
            EntryWrites(lib, parsers, plan, inputPath, outputPath, f) == single.writes &&
            EntryCallsOf(lib, parsers, plan, inputPath, f) == single.calls
  {
    CombineKeepsNameParts(inputPath, f);
  }
}
