/** The vocabulary shared by both processing handlers: the parser and
    converter classes they register, the behaviour of those classes (whose
    code is not part of this model, so it is a parameter), the ordered
    registry they are kept in, and the file-system collaborator. */
module Formats {

  datatype Option<T> = None | Some(value: T)

  /** The parser classes both handlers instantiate. */
  datatype ParserClass =
    | MicroDVDParser | SAMIParser | SSAParser | SubViewerParser
    | TTMLParser | VTTParser | YtXmlParser | SRTParser

  /** The converter (serializer) classes. */
  datatype ConverterClass =
    | MicroDVDConverter | SAMIConverter | SSAConverter | SubViewerConverter | SRTConverter

  /** A stand-in for the parsed subtitle data (`parsedData`) that a
      parser hands to a converter. The data is opaque here: it is only passed
      from `parseFormat` to `convert`, and nothing in this model reads the
      fields of a cue. */
  datatype Cue = Cue(startMs: int, endMs: int, lines: seq<string>)

  type Track = seq<Cue>

  /** What `ParseFormat(path, out data)` gives back: its status and its data. */
  datatype Parsed = Parsed(ok: bool, data: Track)

  /** The behaviour of the parser and converter classes, left uninterpreted:
      each parser's '|'-separated `FileExtension` list and `ParseFormat`, which
      reads the file at the path it is given; each converter's `FileExtension`
      and `Convert`. A `null` text from `Convert` is represented by "". */
  datatype Library = Library(
    parserExtension: ParserClass -> string,
    parseFormat: (ParserClass, string) -> Parsed,
    converterExtension: ConverterClass -> string,
    convert: (ConverterClass, Track) -> string)

  /** One key/value pair of a registry. The registries are dictionaries that
      are only ever added to, so they enumerate in insertion order; they are
      kept here as that ordered sequence. */
  datatype Entry<K> = Entry(name: string, impl: K)

  predicate Registered<K>(reg: seq<Entry<K>>, name: string) {
    exists i :: 0 <= i < |reg| && reg[i].name == name
  }

  predicate UniqueNames<K>(reg: seq<Entry<K>>) {
    forall i, j :: 0 <= i < j < |reg| ==> reg[i].name != reg[j].name
  }

  /** The value of the first pair whose key equals `name` exactly, as the
      handlers' `Where(key == format)` loop with `break` selects it. */
  function Lookup<K>(reg: seq<Entry<K>>, name: string): (r: Option<K>)
    ensures r.Some? <==> Registered(reg, name)
    ensures r.Some? ==> exists i :: 0 <= i < |reg| && reg[i] == Entry(name, r.value) &&
                                   forall j :: 0 <= j < i ==> reg[j].name != name
  {
    if reg == [] then None
    else if reg[0].name == name then Some(reg[0].impl)
    else
      var r := Lookup(reg[1..], name);
      assert forall i :: 0 <= i < |reg| - 1 ==> reg[1..][i] == reg[i + 1];
      r
  }

  /** With unique keys the first match is the only match, so the `break` in
      the lookup loop does not change which converter is chosen. */
  lemma {:induction false} LookupUnique<K>(reg: seq<Entry<K>>, i: nat)
    requires UniqueNames(reg) && i < |reg|
    ensures Lookup(reg, reg[i].name) == Some(reg[i].impl)
  {
    if i > 0 {
      assert reg[0].name != reg[i].name;
      assert UniqueNames(reg[1..]) by {
        forall a, b | 0 <= a < b < |reg| - 1 ensures reg[1..][a].name != reg[1..][b].name {
          assert reg[1..][a] == reg[a + 1] && reg[1..][b] == reg[b + 1];
        }
      }
      LookupUnique(reg[1..], i - 1);
      assert reg[1..][i - 1] == reg[i];
    }
  }

  /** Adding the next pair of a registry with unique keys to the pairs before
      it never repeats a key. */
  lemma PrefixFresh<K>(reg: seq<Entry<K>>, k: int)
    requires UniqueNames(reg) && 0 <= k < |reg|
    ensures UniqueNames(reg[..k]) && !Registered(reg[..k], reg[k].name)
    ensures reg[..k] + [reg[k]] == reg[..k + 1]
  {
    assert forall i :: 0 <= i < k ==> reg[..k][i] == reg[i];
  }

  /** The file-system collaborator, as seen during one call: which paths are
      existing files, which are existing directories, and the file names a
      directory lists (`DirectoryInfo.GetFiles`, in the order it returns them). */
  datatype FileSystem = FileSystem(
    files: set<string>,
    directories: set<string>,
    listing: string -> seq<string>)

  /** One `File.WriteAllText(path, content)`. */
  datatype FileWrite = FileWrite(path: string, content: string)

  /** One `ParseFormat` invocation: the registry key of the parser and the
      path it was given. */
  datatype ParseCall = ParseCall(parser: string, path: string)
}
