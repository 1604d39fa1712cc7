/** String models of the few `System.IO.Path` and `String` operations the
    processing handlers rely on, for Windows-style paths: both '\' and '/'
    separate directories and "X:" starts a drive-rooted path. */
module Paths {

  predicate IsSeparator(c: char) {
    c == '\\' || c == '/'
  }

  predicate IsDriveLetter(c: char) {
    ('A' <= c <= 'Z') || ('a' <= c <= 'z')
  }

  /** `Path.IsPathRooted`: a leading separator or a drive prefix such as "C:". */
  predicate IsPathRooted(p: string) {
    (|p| >= 1 && IsSeparator(p[0])) || (|p| >= 2 && IsDriveLetter(p[0]) && p[1] == ':')
  }

  predicate NoSeparator(s: string) {
    forall k :: 0 <= k < |s| ==> !IsSeparator(s[k])
  }

  /** A bare file name as a directory listing yields it: not empty, no
      directory part and not rooted. */
  predicate PlainName(s: string) {
    |s| > 0 && NoSeparator(s) && !IsPathRooted(s)
  }

  /** A file extension as the converters declare it: a dot followed by at
      least one character, with no other dot and no separator. */
  predicate IsExtension(ext: string) {
    |ext| >= 2 && ext[0] == '.' && NoSeparator(ext) &&
    forall k :: 1 <= k < |ext| ==> ext[k] != '.'
  }

  /** Index of the last occurrence of `c` in `s`, or -1. */
  function LastIndexOf(s: string, c: char): (i: int)
    ensures -1 <= i < |s|
    ensures 0 <= i ==> s[i] == c
    ensures forall k :: i < k < |s| ==> s[k] != c
  {
    if s == [] then -1
    else if s[|s| - 1] == c then |s| - 1
    else LastIndexOf(s[..|s| - 1], c)
  }

  /** Index of the last directory separator in `s`, or -1. */
  function LastSeparator(s: string): (i: int)
    ensures -1 <= i < |s|
    ensures 0 <= i ==> IsSeparator(s[i])
    ensures forall k :: i < k < |s| ==> !IsSeparator(s[k])
  {
    if s == [] then -1
    else if IsSeparator(s[|s| - 1]) then |s| - 1
    else LastSeparator(s[..|s| - 1])
  }

  /** `Path.GetFileName`: the longest separator-free suffix of the path. */
  function GetFileName(p: string): (name: string)
    ensures |name| <= |p| && name == p[|p| - |name|..]
    ensures NoSeparator(name)
    ensures |name| < |p| ==> IsSeparator(p[|p| - |name| - 1])
  {
    p[LastSeparator(p) + 1..]
  }

  /** The extension part of a file name: from its last '.' on, or "" when it
      has no '.' or ends with it. */
  function NameExtension(name: string): (ext: string)
    ensures NoSeparator(name) ==> ext == [] || IsExtension(ext)
    ensures |ext| <= |name| && ext == name[|name| - |ext|..]
  {
    var dot := LastIndexOf(name, '.');
    if dot < 0 || dot == |name| - 1 then "" else name[dot..]
  }

  /** The name part of a file name: up to its last '.'. */
  function NameStem(name: string): (stem: string)
    ensures |stem| <= |name| && stem == name[..|stem|]
  {
    var dot := LastIndexOf(name, '.');
    if dot < 0 then name else name[..dot]
  }

  /** `Path.GetExtension`: the extension part of the file name. */
  function GetExtension(p: string): (ext: string)
    ensures ext == [] || IsExtension(ext)
  {
    NameExtension(GetFileName(p))
  }

  /** `Path.GetFileNameWithoutExtension`: the file name up to its last '.'. */
  function GetFileNameWithoutExtension(p: string): (stem: string)
    ensures |stem| <= |p|
  {
    NameStem(GetFileName(p))
  }

  /** `Path.Combine` of two paths: an empty or rooted second part wins,
      otherwise a separator is inserted unless the first already ends in one. */
  function Combine(a: string, b: string): (r: string)
    ensures b == [] ==> r == a
    ensures b != [] && (a == [] || IsPathRooted(b)) ==> r == b
  {
    if b == [] then a
    else if a == [] then b
    else if IsPathRooted(b) then b
    else if IsSeparator(a[|a| - 1]) then a + b
    else a + ['\\'] + b
  }

  /** `Path.Combine` ends with its second part; when that part is neither
      empty nor rooted and the first is not empty, the result starts with
      the first part and a separator stands between the two. */
  lemma CombineShape(a: string, b: string)
    ensures b != [] ==> |b| <= |Combine(a, b)| && Combine(a, b)[|Combine(a, b)| - |b|..] == b
    ensures b != [] && a != [] && !IsPathRooted(b) ==>
              |a| + |b| <= |Combine(a, b)| && Combine(a, b)[..|a|] == a &&
              IsSeparator(Combine(a, b)[|Combine(a, b)| - |b| - 1])
  {
    var r := Combine(a, b);
    if b != [] && a != [] && !IsPathRooted(b) {
      if IsSeparator(a[|a| - 1]) {
        assert r == a + b;
      } else {
        assert r == a + ['\\'] + b;
      }
    }
  }

  /** The name without extension is a separator-free prefix of the file name. */
  lemma StemOfFileName(p: string)
    ensures NoSeparator(GetFileNameWithoutExtension(p))
    ensures |GetFileNameWithoutExtension(p)| <= |GetFileName(p)| &&
            GetFileNameWithoutExtension(p) == GetFileName(p)[..|GetFileNameWithoutExtension(p)|]
  {
    var name := GetFileName(p);
    var stem := NameStem(name);
    assert forall k :: 0 <= k < |stem| ==> stem[k] == name[k];
  }

  /** A separator-free stem with an extension, combined into a directory,
      is the file name of the result, and the extension is its extension. */
  lemma NamedInto(dir: string, stem: string, ext: string)
    requires NoSeparator(stem) && IsExtension(ext) && !IsPathRooted(stem + ext)
    ensures GetFileName(Combine(dir, stem + ext)) == stem + ext
    ensures GetExtension(Combine(dir, stem + ext)) == ext
  {
    var name := stem + ext;
    assert NoSeparator(name) by {
      assert forall k :: |stem| <= k < |name| ==> name[k] == ext[k - |stem|];
    }
    CombineFileName(dir, name);
    ExtensionOfName(stem, ext);
    BareFileName(name);
  }

  /** A file name not ending in '.' is its stem followed by its extension. */
  lemma NameStemAndExtension(name: string)
    requires name == [] || name[|name| - 1] != '.'
    ensures NameStem(name) + NameExtension(name) == name
  {
    var dot := LastIndexOf(name, '.');
    if 0 <= dot {
      assert name[..dot] + name[dot..] == name;
    } else {
      assert name + [] == name;
    }
  }

  /** The name and the extension put back together give the file name, unless
      the path ends in a '.' (which `GetExtension` drops but the stem also
      loses). */
  lemma StemAndExtension(p: string)
    requires p == [] || p[|p| - 1] != '.'
    ensures GetFileNameWithoutExtension(p) + GetExtension(p) == GetFileName(p)
  {
    var name := GetFileName(p);
    if name != [] {
      assert name[|name| - 1] == p[|p| - 1];
    }
    NameStemAndExtension(name);
  }

  /** Combining a directory with a bare file name yields a path whose file
      name is that name. */
  lemma CombineFileName(dir: string, name: string)
    requires PlainName(name)
    ensures GetFileName(Combine(dir, name)) == name
  {
    var c := Combine(dir, name);
    if c == name {
      assert NoSeparator(c);
      assert LastSeparator(c) == -1;
    } else {
      var x := c[..|c| - |name|];
      assert c == x + name;
      assert |x| > 0 && IsSeparator(x[|x| - 1]);
      assert IsSeparator(c[|x| - 1]);
      assert forall k :: |x| <= k < |c| ==> c[k] == name[k - |x|];
      assert LastSeparator(c) == |x| - 1;
    }
  }

  /** A separator-free path is its own file name. */
  lemma BareFileName(name: string)
    requires NoSeparator(name)
    ensures GetFileName(name) == name
  {
    assert LastSeparator(name) == -1;
  }

  /** Combining a directory with a bare file name keeps the name's extension
      and its name without extension. */
  lemma CombineKeepsNameParts(dir: string, name: string)
    requires PlainName(name)
    ensures GetExtension(Combine(dir, name)) == GetExtension(name)
    ensures GetFileNameWithoutExtension(Combine(dir, name)) == GetFileNameWithoutExtension(name)
  {
    CombineFileName(dir, name);
    BareFileName(name);
  }

  /** A file name made of a stem and a declared extension reports exactly
      that extension. */
  lemma ExtensionOfName(stem: string, ext: string)
    requires NoSeparator(stem) && IsExtension(ext)
    ensures GetExtension(stem + ext) == ext
  {
    var s := stem + ext;
    assert forall k :: |stem| <= k < |s| ==> s[k] == ext[k - |stem|];
    assert NoSeparator(s);
    assert LastSeparator(s) == -1;
    assert GetFileName(s) == s;
    assert s[|stem|] == '.';
    assert LastIndexOf(s, '.') == |stem|;
    assert NameExtension(s) == s[|stem|..];
    assert s[|stem|..] == ext;
  }

  /** `String.Split(sep)`: the maximal separator-free pieces, empty pieces
      included, so that there is always one more piece than separators. */
  function Split(s: string, sep: char): (pieces: seq<string>)
    ensures |pieces| >= 1
    ensures forall k :: 0 <= k < |pieces| ==> sep !in pieces[k]
  {
    if s == [] then [[]]
    else
      var rest := Split(s[1..], sep);
      if s[0] == sep then [[]] + rest
      else [[s[0]] + rest[0]] + rest[1..]
  }

  /** `String.Join(sep, pieces)`. */
  function Join(pieces: seq<string>, sep: char): string
    requires |pieces| >= 1
  {
    if |pieces| == 1 then pieces[0]
    else pieces[0] + [sep] + Join(pieces[1..], sep)
  }

  /** Joining the pieces of a split restores the string. */
  lemma {:induction false} JoinSplit(s: string, sep: char)
    ensures Join(Split(s, sep), sep) == s
  {
    if s != [] {
      var rest := Split(s[1..], sep);
      JoinSplit(s[1..], sep);
      if s[0] == sep {
        assert Split(s, sep)[1..] == rest;
      } else {
        if |rest| == 1 {
          assert Join(Split(s, sep), sep) == [s[0]] + rest[0];
        } else {
          assert Split(s, sep)[1..] == rest[1..];
          assert Join(rest, sep) == rest[0] + [sep] + Join(rest[1..], sep);
        }
        assert s == [s[0]] + s[1..];
      }
    }
  }

  /** Splitting a separator-free prefix glued to a string extends the first piece. */
  lemma {:induction false} SplitPrefix(x: string, y: string, sep: char)
    requires sep !in x
    ensures Split(x + y, sep) == [x + Split(y, sep)[0]] + Split(y, sep)[1..]
  {
    if x != [] {
      SplitPrefix(x[1..], y, sep);
      assert (x + y)[1..] == x[1..] + y;
      assert (x + y)[0] == x[0];
      assert [x[0]] + (x[1..] + Split(y, sep)[0]) == x + Split(y, sep)[0];
    } else {
      var r := Split(y, sep);
      assert x + y == y;
      assert x + r[0] == r[0];
      assert [r[0]] + r[1..] == r;
    }
  }

  /** Splitting a join of separator-free pieces gives the pieces back. */
  lemma {:induction false} SplitJoin(pieces: seq<string>, sep: char)
    requires |pieces| >= 1
    requires forall k :: 0 <= k < |pieces| ==> sep !in pieces[k]
    ensures Split(Join(pieces, sep), sep) == pieces
  {
    if |pieces| == 1 {
      SplitPrefix(pieces[0], [], sep);
      assert pieces[0] + [] == pieces[0];
    } else {
      var rest := Join(pieces[1..], sep);
      SplitJoin(pieces[1..], sep);
      assert Join(pieces, sep) == pieces[0] + ([sep] + rest);
      SplitPrefix(pieces[0], [sep] + rest, sep);
      assert ([sep] + rest)[1..] == rest;
      assert Split([sep] + rest, sep) == [[]] + pieces[1..];
      assert pieces[0] + [] == pieces[0];
      assert pieces == [pieces[0]] + pieces[1..];
    }
  }
}
