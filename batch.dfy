/** The per-directory loop shared by the batch entry points: every listed
    file goes through the parser dispatch, is written and recorded as
    converted when that yields a non-empty result, and is recorded as
    unconverted otherwise; no file stops the loop. */
module Batch {
  import opened Paths
  import opened Formats
  import opened Dispatch

  /** What varies between the batch entry points: whether each entry's own
      path is parsed (`parseEntry`) or the directory path itself, which
      converter produces the text, and which extension names the outputs. */
  datatype Plan = Plan(parseEntry: bool, target: ConverterClass, outExt: string)

  /** The converted and unconverted file names, the files written and the
      `ParseFormat` calls made. */
  datatype Report = Report(converted: seq<string>, unconverted: seq<string>,
                           writes: seq<FileWrite>, calls: seq<ParseCall>)

  const NoReport := Report([], [], [], [])

  /** The path handed to `ParseFormat` for directory entry `f`. */
  function EntryParsePath(plan: Plan, inputPath: string, f: string): string {
    if plan.parseEntry then Combine(inputPath, f) else inputPath
  }

  /** The output path of entry `f`: the output directory combined with the
      entry's name without extension plus the plan's extension. */
  function EntryOutputPath(plan: Plan, outputPath: string, f: string): string {
    Combine(outputPath, GetFileNameWithoutExtension(f) + plan.outExt)
  }

  /** The dispatch result for entry `f`; the extension is taken from the
      entry's name. */
  function EntryResult(lib: Library, reg: seq<Entry<ParserClass>>, plan: Plan, inputPath: string,
                       f: string): string
  {
    Chosen(lib, reg, GetExtension(f), EntryParsePath(plan, inputPath, f), plan.target)
  }

  function EntryCallsOf(lib: Library, reg: seq<Entry<ParserClass>>, plan: Plan, inputPath: string,
                        f: string): seq<ParseCall>
  {
    Calls(lib, reg, GetExtension(f), EntryParsePath(plan, inputPath, f), plan.target)
  }

  /** The write made for entry `f`, if any. */
  function EntryWrites(lib: Library, reg: seq<Entry<ParserClass>>, plan: Plan, inputPath: string,
                       outputPath: string, f: string): seq<FileWrite>
  {
    var result := EntryResult(lib, reg, plan, inputPath, f);
    if result != "" then [FileWrite(EntryOutputPath(plan, outputPath, f), result)] else []
  }

  /** The report after the loop has handled `files`, in listing order. */
  function Run(lib: Library, reg: seq<Entry<ParserClass>>, plan: Plan, inputPath: string,
               outputPath: string, files: seq<string>): Report
  {
    if files == [] then NoReport
    else
      var r := Run(lib, reg, plan, inputPath, outputPath, files[..|files| - 1]);
      var f := files[|files| - 1];
      var calls := r.calls + EntryCallsOf(lib, reg, plan, inputPath, f);
      if EntryResult(lib, reg, plan, inputPath, f) != "" then
        Report(r.converted + [f], r.unconverted, r.writes + EntryWrites(lib, reg, plan, inputPath, outputPath, f), calls)
      else
        Report(r.converted, r.unconverted + [f], r.writes, calls)
  }

  /** The elements `x` of `s` with `keep(x) == want`, in order. */
  function Filter(s: seq<string>, keep: string -> bool, want: bool): (r: seq<string>)
    ensures forall k :: 0 <= k < |r| ==> keep(r[k]) == want
  {
    if s == [] then []
    else Filter(s[..|s| - 1], keep, want) + (if keep(s[|s| - 1]) == want then [s[|s| - 1]] else [])
  }

  /** The two filters split a sequence: together they hold every element
      exactly as often as it occurs. */
  lemma {:induction false} FilterPartition(s: seq<string>, keep: string -> bool)
    ensures |Filter(s, keep, true)| + |Filter(s, keep, false)| == |s|
    ensures multiset(Filter(s, keep, true)) + multiset(Filter(s, keep, false)) == multiset(s)
  {
    if s != [] {
      var n := |s| - 1;
      var x := s[n];
      FilterPartition(s[..n], keep);
      assert s == s[..n] + [x];
      assert multiset(s) == multiset(s[..n]) + multiset{x};
      var t, u := Filter(s[..n], keep, true), Filter(s[..n], keep, false);
      if keep(x) {
        assert Filter(s, keep, true) == t + [x] && Filter(s, keep, false) == u;
        assert multiset(t + [x]) == multiset(t) + multiset{x};
      } else {
        assert Filter(s, keep, true) == t && Filter(s, keep, false) == u + [x];
        assert multiset(u + [x]) == multiset(u) + multiset{x};
      }
    }
  }

  /** Whether entry `f` gets converted. */
  function Converts(lib: Library, reg: seq<Entry<ParserClass>>, plan: Plan, inputPath: string): string -> bool {
    f => EntryResult(lib, reg, plan, inputPath, f) != ""
  }

  /** The converted names are the entries with a non-empty result and the
      unconverted names the rest, both in listing order. */
  lemma {:induction false} RunLists(lib: Library, reg: seq<Entry<ParserClass>>, plan: Plan,
                                    inputPath: string, outputPath: string, files: seq<string>)
    ensures var r := Run(lib, reg, plan, inputPath, outputPath, files);
            r.converted == Filter(files, Converts(lib, reg, plan, inputPath), true) &&
            r.unconverted == Filter(files, Converts(lib, reg, plan, inputPath), false)
  {
    if files != [] {
      var prefix := files[..|files| - 1];
      var f := files[|files| - 1];
      var keep := Converts(lib, reg, plan, inputPath);
      RunLists(lib, reg, plan, inputPath, outputPath, prefix);
      var p := Run(lib, reg, plan, inputPath, outputPath, prefix);
      var r := Run(lib, reg, plan, inputPath, outputPath, files);
      assert Filter(files, keep, true) == Filter(prefix, keep, true) + (if keep(f) then [f] else []);
      assert Filter(files, keep, false) == Filter(prefix, keep, false) + (if !keep(f) then [f] else []);
      if EntryResult(lib, reg, plan, inputPath, f) != "" {
        assert keep(f);
        assert r.converted == p.converted + [f] && r.unconverted == p.unconverted;
      } else {
        assert !keep(f);
        assert r.converted == p.converted && r.unconverted == p.unconverted + [f];
      }
    }
  }

  /** The k-th write goes to the k-th converted entry's output path and holds
      that entry's result. */
  lemma {:induction false} RunWrites(lib: Library, reg: seq<Entry<ParserClass>>, plan: Plan,
                                     inputPath: string, outputPath: string, files: seq<string>)
    ensures var r := Run(lib, reg, plan, inputPath, outputPath, files);
            |r.writes| == |r.converted| &&
            forall k :: 0 <= k < |r.writes| ==>
              r.writes[k] == FileWrite(EntryOutputPath(plan, outputPath, r.converted[k]),
                                       EntryResult(lib, reg, plan, inputPath, r.converted[k]))
  {
    if files != [] {
      var prefix := files[..|files| - 1];
      var f := files[|files| - 1];
      var p := Run(lib, reg, plan, inputPath, outputPath, prefix);
      var r := Run(lib, reg, plan, inputPath, outputPath, files);
      RunWrites(lib, reg, plan, inputPath, outputPath, prefix);
      var result := EntryResult(lib, reg, plan, inputPath, f);
      if result != "" {
        var w := FileWrite(EntryOutputPath(plan, outputPath, f), result);
        assert r.writes == p.writes + [w] && r.converted == p.converted + [f];
        forall k | 0 <= k < |r.writes|
          ensures r.writes[k] == FileWrite(EntryOutputPath(plan, outputPath, r.converted[k]),
                                           EntryResult(lib, reg, plan, inputPath, r.converted[k]))
        {
          if k < |p.writes| {
            assert r.writes[k] == p.writes[k] && r.converted[k] == p.converted[k];
          } else {
            assert r.writes[k] == w && r.converted[k] == f;
          }
        }
      } else {
        assert r.writes == p.writes && r.converted == p.converted;
      }
    }
  }

  /** The batch report as a partition of the listing: every entry is in
      exactly one of the two lists, both keep listing order, and a file is
      written for each converted entry and for no other. */
  lemma RunPartitions(lib: Library, reg: seq<Entry<ParserClass>>, plan: Plan,
                      inputPath: string, outputPath: string, files: seq<string>)
    ensures var r := Run(lib, reg, plan, inputPath, outputPath, files);
            r.converted == Filter(files, Converts(lib, reg, plan, inputPath), true) &&
            r.unconverted == Filter(files, Converts(lib, reg, plan, inputPath), false) &&
            |r.converted| + |r.unconverted| == |files| &&
            multiset(r.converted) + multiset(r.unconverted) == multiset(files) &&
            |r.writes| == |r.converted| &&
            forall k :: 0 <= k < |r.writes| ==>
              r.writes[k] == FileWrite(EntryOutputPath(plan, outputPath, r.converted[k]),
                                       EntryResult(lib, reg, plan, inputPath, r.converted[k]))
  {
    RunLists(lib, reg, plan, inputPath, outputPath, files);
    RunWrites(lib, reg, plan, inputPath, outputPath, files);
    FilterPartition(files, Converts(lib, reg, plan, inputPath));
  }

  /** Every `ParseFormat` call of a batch that does not parse its entries is
      given the directory path. */
  lemma {:induction false} DirectoryPathParsed(lib: Library, reg: seq<Entry<ParserClass>>, plan: Plan,
                                               inputPath: string, outputPath: string, files: seq<string>)
    requires !plan.parseEntry
    ensures forall c :: c in Run(lib, reg, plan, inputPath, outputPath, files).calls ==> c.path == inputPath
  {
    if files != [] {
      var f := files[|files| - 1];
      DirectoryPathParsed(lib, reg, plan, inputPath, outputPath, files[..|files| - 1]);
      forall c | c in EntryCallsOf(lib, reg, plan, inputPath, f) ensures c.path == inputPath {
        CallsAreAcceptingParsers(lib, reg, GetExtension(f), inputPath, plan.target, c);
      }
    }
  }

  /** Two plans that differ only in the output extension convert the same
      entries into the same texts and make the same calls; only the output
      names differ. */
  lemma {:induction false} OutExtOnlyRenames(lib: Library, reg: seq<Entry<ParserClass>>, plan: Plan, other: Plan,
                                             inputPath: string, outputPath: string, files: seq<string>)
    requires other.parseEntry == plan.parseEntry && other.target == plan.target
    ensures var r := Run(lib, reg, plan, inputPath, outputPath, files);
            var q := Run(lib, reg, other, inputPath, outputPath, files);
            r.converted == q.converted && r.unconverted == q.unconverted && r.calls == q.calls &&
            |r.writes| == |q.writes| &&
            forall k :: 0 <= k < |r.writes| ==> r.writes[k].content == q.writes[k].content
  {
    if files != [] {
      var prefix := files[..|files| - 1];
      var f := files[|files| - 1];
      OutExtOnlyRenames(lib, reg, plan, other, inputPath, outputPath, prefix);
      var p := Run(lib, reg, plan, inputPath, outputPath, prefix);
      var q := Run(lib, reg, other, inputPath, outputPath, prefix);
      var r := Run(lib, reg, plan, inputPath, outputPath, files);
      var s := Run(lib, reg, other, inputPath, outputPath, files);
      var result := EntryResult(lib, reg, plan, inputPath, f);
      assert EntryParsePath(other, inputPath, f) == EntryParsePath(plan, inputPath, f);
      assert EntryResult(lib, reg, other, inputPath, f) == result;
      assert EntryCallsOf(lib, reg, other, inputPath, f) == EntryCallsOf(lib, reg, plan, inputPath, f);
      assert r.calls == s.calls;
      if result != "" {
        assert r.converted == p.converted + [f] && s.converted == q.converted + [f];
        assert r.unconverted == p.unconverted && s.unconverted == q.unconverted;
        assert |r.writes| == |p.writes| + 1 && |s.writes| == |q.writes| + 1;
        forall k | 0 <= k < |r.writes| ensures r.writes[k].content == s.writes[k].content {
          if k < |p.writes| {
            assert r.writes[k] == p.writes[k] && s.writes[k] == q.writes[k];
          }
        }
      } else {
        assert r.converted == p.converted && s.converted == q.converted;
        assert r.unconverted == p.unconverted + [f] && s.unconverted == q.unconverted + [f];
        assert r.writes == p.writes && s.writes == q.writes;
      }
    }
  }

  /** Handling entry `i` extends the report of the entries before it. */
  lemma RunStep(lib: Library, reg: seq<Entry<ParserClass>>, plan: Plan, inputPath: string,
                outputPath: string, files: seq<string>, i: int)
    requires 0 <= i < |files|
    ensures var p := Run(lib, reg, plan, inputPath, outputPath, files[..i]);
            var f := files[i];
            var calls := p.calls + EntryCallsOf(lib, reg, plan, inputPath, f);
            Run(lib, reg, plan, inputPath, outputPath, files[..i + 1]) ==
              if EntryResult(lib, reg, plan, inputPath, f) != "" then
                Report(p.converted + [f], p.unconverted,
                       p.writes + [FileWrite(EntryOutputPath(plan, outputPath, f), EntryResult(lib, reg, plan, inputPath, f))],
                       calls)
              else Report(p.converted, p.unconverted + [f], p.writes, calls)
  {
    assert files[..i + 1][..i] == files[..i];
  }

  /** The work the loop body does for one listed entry `f`: name the output
      file after the entry, pick the path to parse, and run the parser
      dispatch on the entry's extension. */
  method ConvertEntry(lib: Library, reg: seq<Entry<ParserClass>>, plan: Plan, inputPath: string,
                      outputPath: string, f: string)
    returns (outputFilePath: string, finalResult: string, fileCalls: seq<ParseCall>)
    ensures outputFilePath == EntryOutputPath(plan, outputPath, f)
    ensures finalResult == EntryResult(lib, reg, plan, inputPath, f)
    ensures fileCalls == EntryCallsOf(lib, reg, plan, inputPath, f)
  {
    outputFilePath := Combine(outputPath, GetFileNameWithoutExtension(f) + plan.outExt);
    var parsePath := if plan.parseEntry then Combine(inputPath, f) else inputPath;
    finalResult, fileCalls := TryParsers(lib, reg, GetExtension(f), parsePath, plan.target);
  }

  /** The loop over the directory listing. */
  method RunBatch(lib: Library, reg: seq<Entry<ParserClass>>, plan: Plan, inputPath: string,
                  outputPath: string, files: seq<string>)
    returns (report: Report)
    ensures report == Run(lib, reg, plan, inputPath, outputPath, files)
  {
    var convertedFiles, unconvertedFiles := [], [];
    var writes, calls := [], [];
    var i := 0;
    while i < |files|
      invariant 0 <= i <= |files|
      invariant Report(convertedFiles, unconvertedFiles, writes, calls) ==
                Run(lib, reg, plan, inputPath, outputPath, files[..i])
    {
      var f := files[i];
      var outputFilePath, finalResult, fileCalls := ConvertEntry(lib, reg, plan, inputPath, outputPath, f);
      RunStep(lib, reg, plan, inputPath, outputPath, files, i);
      calls := calls + fileCalls;
      if finalResult != "" {
        writes := writes + [FileWrite(outputFilePath, finalResult)];
        convertedFiles := convertedFiles + [f];
      } else {
        unconvertedFiles := unconvertedFiles + [f];
      }
      i := i + 1;
    }
    assert files[..i] == files;
    report := Report(convertedFiles, unconvertedFiles, writes, calls);
  }
}
