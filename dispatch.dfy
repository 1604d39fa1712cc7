/** Parser dispatch, shared by every conversion entry point of both handlers:
    for each registered parser in registry order, split its `FileExtension`
    on '|', and for every piece equal to the input's extension try to parse
    and convert; a non-empty conversion becomes the result and ends the scan
    of that parser's pieces only, so the scan of the registry goes on and a
    later success replaces an earlier one. */
module Dispatch {
  import opened Paths
  import opened Formats

  /** The '|'-separated pieces of a parser's `FileExtension`. */
  function Pieces(lib: Library, p: ParserClass): seq<string> {
    Split(lib.parserExtension(p), '|')
  }

  /** A parser is tried for an extension equal (case-sensitively) to one of its pieces. */
  predicate Accepts(lib: Library, p: ParserClass, ext: string) {
    ext in Pieces(lib, p)
  }

  /** One try of parser `p` on `path`, converted by `target`: "" when the
      parse reports failure, else whatever the converter returns. */
  function Attempt(lib: Library, p: ParserClass, path: string, target: ConverterClass): string {
    var parsed := lib.parseFormat(p, path);
    if parsed.ok then lib.convert(target, parsed.data) else ""
  }

  /** The parser is tried and its try yields a non-empty conversion. */
  predicate Succeeds(lib: Library, p: ParserClass, ext: string, path: string, target: ConverterClass) {
    Accepts(lib, p, ext) && Attempt(lib, p, path, target) != ""
  }

  /** The final result of the scan: the output of the last succeeding parser
      of the registry, or "" when none succeeds. */
  function Chosen(lib: Library, reg: seq<Entry<ParserClass>>, ext: string, path: string,
                  target: ConverterClass): string
  {
    if reg == [] then ""
    else
      var last := reg[|reg| - 1].impl;
      if Succeeds(lib, last, ext, path, target) then Attempt(lib, last, path, target)
      else Chosen(lib, reg[..|reg| - 1], ext, path, target)
  }

  /** How many times `x` occurs in `s`. */
  function Count(s: seq<string>, x: string): nat {
    if s == [] then 0
    else Count(s[..|s| - 1], x) + (if s[|s| - 1] == x then 1 else 0)
  }

  /** `n` copies of `c`. */
  function Repeat(c: ParseCall, n: nat): (r: seq<ParseCall>)
    ensures |r| == n && forall k :: 0 <= k < n ==> r[k] == c
  {
    if n == 0 then [] else Repeat(c, n - 1) + [c]
  }

  /** The `ParseFormat` calls the scan makes for one registry entry. Parsing
      is a function of the path, so a parser whose first matching piece
      succeeds is called once; otherwise it is called once per matching piece. */
  function EntryCalls(lib: Library, e: Entry<ParserClass>, ext: string, path: string,
                      target: ConverterClass): seq<ParseCall>
  {
    var n := if Succeeds(lib, e.impl, ext, path, target) then 1 else Count(Pieces(lib, e.impl), ext);
    Repeat(ParseCall(e.name, path), n)
  }

  /** All `ParseFormat` calls of the scan, in the order they are made. */
  function Calls(lib: Library, reg: seq<Entry<ParserClass>>, ext: string, path: string,
                 target: ConverterClass): seq<ParseCall>
  {
    if reg == [] then []
    else Calls(lib, reg[..|reg| - 1], ext, path, target) + EntryCalls(lib, reg[|reg| - 1], ext, path, target)
  }

  lemma {:induction false} CountAbsent(s: seq<string>, x: string)
    requires x !in s
    ensures Count(s, x) == 0
  {
    if s != [] {
      assert forall k :: 0 <= k < |s| - 1 ==> s[..|s| - 1][k] == s[k];
      CountAbsent(s[..|s| - 1], x);
    }
  }

  lemma {:induction false} CountPresent(s: seq<string>, x: string)
    requires x in s
    ensures Count(s, x) >= 1
  {
    if s[|s| - 1] != x {
      var k :| 0 <= k < |s| && s[k] == x;
      assert s[..|s| - 1][k] == x;
      CountPresent(s[..|s| - 1], x);
    }
  }

  /** The scan yields a non-empty result exactly when some registered parser
      accepts the extension and its try converts to a non-empty string. */
  lemma {:induction false} ChosenNonEmpty(lib: Library, reg: seq<Entry<ParserClass>>, ext: string,
                                          path: string, target: ConverterClass)
    ensures Chosen(lib, reg, ext, path, target) != "" <==>
            exists i :: 0 <= i < |reg| && Succeeds(lib, reg[i].impl, ext, path, target)
  {
    if reg != [] {
      var n := |reg| - 1;
      var prefix := reg[..n];
      ChosenNonEmpty(lib, prefix, ext, path, target);
      assert forall i :: 0 <= i < n ==> prefix[i] == reg[i];
      if !Succeeds(lib, reg[n].impl, ext, path, target) {
        assert (exists i :: 0 <= i < |reg| && Succeeds(lib, reg[i].impl, ext, path, target)) ==>
               exists i :: 0 <= i < n && Succeeds(lib, prefix[i].impl, ext, path, target);
      }
    }
  }

  /** Entry `i` succeeds with output `result`, and no later entry succeeds. */
  predicate LastSuccessAt(lib: Library, reg: seq<Entry<ParserClass>>, ext: string, path: string,
                          target: ConverterClass, i: int, result: string)
  {
    0 <= i < |reg| && Succeeds(lib, reg[i].impl, ext, path, target) &&
    result == Attempt(lib, reg[i].impl, path, target) &&
    forall j :: i < j < |reg| ==> !Succeeds(lib, reg[j].impl, ext, path, target)
  }

  /** When the scan yields a result, it is the try of a succeeding parser
      after which no registered parser succeeds: the last success wins. */
  lemma {:induction false} ChosenIsLastSuccess(lib: Library, reg: seq<Entry<ParserClass>>, ext: string,
                                               path: string, target: ConverterClass)
    requires Chosen(lib, reg, ext, path, target) != ""
    ensures exists i :: LastSuccessAt(lib, reg, ext, path, target, i, Chosen(lib, reg, ext, path, target))
  {
    var n := |reg| - 1;
    var chosen := Chosen(lib, reg, ext, path, target);
    if Succeeds(lib, reg[n].impl, ext, path, target) {
      assert chosen == Attempt(lib, reg[n].impl, path, target);
      assert LastSuccessAt(lib, reg, ext, path, target, n, chosen);
    } else {
      var prefix := reg[..n];
      assert chosen == Chosen(lib, prefix, ext, path, target);
      ChosenIsLastSuccess(lib, prefix, ext, path, target);
      var i :| LastSuccessAt(lib, prefix, ext, path, target, i, chosen);
      assert forall j :: 0 <= j < n ==> prefix[j] == reg[j];
      assert LastSuccessAt(lib, reg, ext, path, target, i, chosen);
    }
  }

  /** The calls of the scan are exactly: with the given path, once or more
      for every registered parser that accepts the extension, and for no
      other parser. A failed try therefore never ends the scan. */
  lemma {:induction false} CallsAreAcceptingParsers(lib: Library, reg: seq<Entry<ParserClass>>, ext: string,
                                                    path: string, target: ConverterClass, c: ParseCall)
    ensures c in Calls(lib, reg, ext, path, target) <==>
            c.path == path && exists i :: 0 <= i < |reg| && reg[i].name == c.parser && Accepts(lib, reg[i].impl, ext)
  {
    if reg != [] {
      var n := |reg| - 1;
      var prefix := reg[..n];
      CallsAreAcceptingParsers(lib, prefix, ext, path, target, c);
      assert forall j :: 0 <= j < n ==> prefix[j] == reg[j];
      var e := reg[n];
      var pieces := Pieces(lib, e.impl);
      if Accepts(lib, e.impl, ext) {
        CountPresent(pieces, ext);
        assert ParseCall(e.name, path) == EntryCalls(lib, e, ext, path, target)[0];
      } else {
        CountAbsent(pieces, ext);
        assert EntryCalls(lib, e, ext, path, target) == [];
      }
      assert Calls(lib, reg, ext, path, target) == Calls(lib, prefix, ext, path, target) + EntryCalls(lib, e, ext, path, target);
      if c.path == path && exists i :: 0 <= i < |reg| && reg[i].name == c.parser && Accepts(lib, reg[i].impl, ext) {
        var i :| 0 <= i < |reg| && reg[i].name == c.parser && Accepts(lib, reg[i].impl, ext);
        if i == n {
          assert c == ParseCall(e.name, path);
        }
      }
    }
  }

  /** A parser whose `FileExtension` is the join of '|'-free extensions is
      tried for exactly those extensions. */
  lemma AcceptsJoined(lib: Library, p: ParserClass, exts: seq<string>, ext: string)
    requires |exts| >= 1 && forall k :: 0 <= k < |exts| ==> '|' !in exts[k]
    requires lib.parserExtension(p) == Join(exts, '|')
    ensures Accepts(lib, p, ext) <==> ext in exts
  {
    SplitJoin(exts, '|');
  }

  /** The observable effect of one single-file conversion: its return value,
      the files it writes and the `ParseFormat` calls it makes. */
  datatype Outcome = Outcome(ok: bool, writes: seq<FileWrite>, calls: seq<ParseCall>)

  /** A conversion that returns false before any parser is tried. */
  const Refused := Outcome(false, [], [])

  /** A single-file conversion once its converter and output path are fixed:
      scan the parsers for `inputPath`, then write the result to `outFile`
      unless it is empty. */
  function Single(lib: Library, reg: seq<Entry<ParserClass>>, inputPath: string, target: ConverterClass,
                  outFile: string): Outcome
  {
    var ext := GetExtension(inputPath);
    var result := Chosen(lib, reg, ext, inputPath, target);
    Outcome(result != "", if result != "" then [FileWrite(outFile, result)] else [],
            Calls(lib, reg, ext, inputPath, target))
  }

  /** A single-file conversion succeeds exactly when some registered parser
      accepting the input's extension parses it into a non-empty conversion;
      it then writes once, to `outFile`, the output of the last such parser,
      and otherwise writes nothing. Only accepting parsers are called, all of
      them, each with the input path. */
  lemma SingleOutcome(lib: Library, reg: seq<Entry<ParserClass>>, inputPath: string, target: ConverterClass,
                      outFile: string)
    ensures var o := Single(lib, reg, inputPath, target, outFile);
            var ext := GetExtension(inputPath);
            (o.ok <==> exists i :: 0 <= i < |reg| && Succeeds(lib, reg[i].impl, ext, inputPath, target)) &&
            |o.writes| == (if o.ok then 1 else 0) &&
            (o.ok ==> o.writes[0].path == outFile &&
                      exists i :: LastSuccessAt(lib, reg, ext, inputPath, target, i, o.writes[0].content)) &&
            forall c :: c in o.calls <==>
              c.path == inputPath && exists i :: 0 <= i < |reg| && reg[i].name == c.parser && Accepts(lib, reg[i].impl, ext)
  {
    var ext := GetExtension(inputPath);
    ChosenNonEmpty(lib, reg, ext, inputPath, target);
    if Chosen(lib, reg, ext, inputPath, target) != "" {
      ChosenIsLastSuccess(lib, reg, ext, inputPath, target);
    }
    forall c {
      CallsAreAcceptingParsers(lib, reg, ext, inputPath, target, c);
    }
  }

  /** A single-file conversion: the parser scan followed by the one write. */
  method ConvertOne(lib: Library, reg: seq<Entry<ParserClass>>, inputPath: string, target: ConverterClass,
                    outFile: string)
    returns (ok: bool, writes: seq<FileWrite>, calls: seq<ParseCall>)
    ensures Outcome(ok, writes, calls) == Single(lib, reg, inputPath, target, outFile)
  {
    var finalResult;
    finalResult, calls := TryParsers(lib, reg, GetExtension(inputPath), inputPath, target);
    if finalResult == "" {
      return false, [], calls;
    }
    writes := [FileWrite(outFile, finalResult)];
    ok := true;
  }

  /** The nested `foreach` of the handlers: over the registry, then over the
      pieces of each parser's extension list. */
  /** The scan up to entry `i` inclusive extends the scan before it. */
  lemma ScanStep(lib: Library, reg: seq<Entry<ParserClass>>, i: int, ext: string, path: string,
                 target: ConverterClass)
    requires 0 <= i < |reg|
    ensures Chosen(lib, reg[..i + 1], ext, path, target) ==
            if Succeeds(lib, reg[i].impl, ext, path, target) then Attempt(lib, reg[i].impl, path, target)
            else Chosen(lib, reg[..i], ext, path, target)
    ensures Calls(lib, reg[..i + 1], ext, path, target) ==
            Calls(lib, reg[..i], ext, path, target) + EntryCalls(lib, reg[i], ext, path, target)
  {
    assert reg[..i + 1][..i] == reg[..i];
  }

  /** The inner loop of the scan, over the pieces of one parser's
      `FileExtension`: the first matching piece whose try succeeds sets the
      result and leaves the loop (the source's `break`); otherwise `prior`
      is kept. */
  method TryEntry(lib: Library, sf: Entry<ParserClass>, ext: string, path: string,
                  target: ConverterClass, prior: string)
    returns (finalResult: string, calls: seq<ParseCall>)
    ensures finalResult == if Succeeds(lib, sf.impl, ext, path, target) then Attempt(lib, sf.impl, path, target) else prior
    ensures calls == EntryCalls(lib, sf, ext, path, target)
  {
    finalResult, calls := prior, [];
    var extensions := Split(lib.parserExtension(sf.impl), '|');
    var j := 0;
    while j < |extensions|
      invariant 0 <= j <= |extensions|
      invariant finalResult == prior
      invariant calls == Repeat(ParseCall(sf.name, path), Count(extensions[..j], ext))
      invariant ext in extensions[..j] ==> Attempt(lib, sf.impl, path, target) == ""
    {
      assert extensions[..j + 1][..j] == extensions[..j];
      if extensions[j] == ext {
        var parsed := lib.parseFormat(sf.impl, path);
        calls := calls + [ParseCall(sf.name, path)];
        if parsed.ok {
          var result := lib.convert(target, parsed.data);
          if result != "" {
            finalResult := result;
            CountAbsent(extensions[..j], ext);
            return;
          }
        }
      }
      j := j + 1;
    }
    assert extensions[..j] == extensions;
  }

  /** The scan over the registry in enumeration order. */
  method TryParsers(lib: Library, reg: seq<Entry<ParserClass>>, ext: string, path: string,
                    target: ConverterClass)
    returns (finalResult: string, calls: seq<ParseCall>)
    ensures finalResult == Chosen(lib, reg, ext, path, target)
    ensures calls == Calls(lib, reg, ext, path, target)
  {
    finalResult, calls := "", [];
    var i := 0;
    while i < |reg|
      invariant 0 <= i <= |reg|
      invariant finalResult == Chosen(lib, reg[..i], ext, path, target)
      invariant calls == Calls(lib, reg[..i], ext, path, target)
    {
      var entryCalls;
      finalResult, entryCalls := TryEntry(lib, reg[i], ext, path, target, finalResult);
      calls := calls + entryCalls;
      ScanStep(lib, reg, i, ext, path, target);
      i := i + 1;
    }
    assert reg[..i] == reg;
  }
}
