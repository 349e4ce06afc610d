/** The text of the installed-package database: how lpkg prints it and reads it back. */
module PackageDb {

  const MAX_NAME := 64
  const MAX_VERSION := 32
  const MAX_TEXT := 256
  const MAX_FILES := 256
  const LINE_SIZE := 512

  datatype Package = Package(name: string, version: string, description: string, files: seq<string>)

  const NO_PACKAGE := Package("", "", "", [])

  /** The strings fit the arrays of the record. */
  ghost predicate Fits(p: Package) {
    && |p.name| < MAX_NAME && |p.version| < MAX_VERSION && |p.description| < MAX_TEXT && |p.files| <= MAX_FILES
    && forall j :: 0 <= j < |p.files| ==> |p.files[j]| < MAX_TEXT
  }

  // ------------------------------------------------------------- printing

  const TITLE := "/var/lib/lpkg/installed.toml" + " — " + "Managed by lpkg"
  const HEADER := "# " + TITLE + "\n"
  const PACKAGE := "[[package]]"
  const NAME := "name = \""
  const VERSION := "version = \""
  const DESCRIPTION := "description = \""
  const FILES := "files = ["

  /** A line `key = "value"`. */
  function FieldLine(key: string, value: string): string { key + value + "\"\n" }

  function FileLine(path: string, last: bool): string {
    "  \"" + path + (if last then "\"\n" else "\",\n")
  }

  function FileLines(files: seq<string>, j: nat): seq<string>
    requires j <= |files|
    decreases |files| - j
  {
    if j == |files| then [] else [FileLine(files[j], j + 1 == |files|)] + FileLines(files, j + 1)
  }

  function HeadLines(p: Package): seq<string> {
    [PACKAGE + "\n"] + [FieldLine(NAME, p.name)] + [FieldLine(VERSION, p.version)]
    + [FieldLine(DESCRIPTION, p.description)]
    + [FILES + "\n"]
  }

  function PackageLines(p: Package): seq<string> {
    HeadLines(p) + FileLines(p.files, 0) + ["]\n"] + ["\n"]
  }

  function AllLines(ps: seq<Package>, i: nat): seq<string>
    requires i <= |ps|
    decreases |ps| - i
  {
    if i == |ps| then [] else PackageLines(ps[i]) + AllLines(ps, i + 1)
  }

  function Join(lines: seq<string>): string {
    if lines == [] then "" else lines[0] + Join(lines[1..])
  }

  /** What db_save_installed writes. */
  function Save(ps: seq<Package>): string { Join([HEADER] + ["\n"] + AllLines(ps, 0)) }

  // -------------------------------------------------------------- reading

  /** The length of what fgets reads: up to a newline, at most `max` characters. */
  function LineLength(text: string, max: nat): (n: nat)
    ensures n <= |text| && n <= max && (text != "" && max > 0 ==> n > 0)
    ensures forall k :: 0 <= k < n - 1 ==> text[k] != '\n'
  {
    if text == "" || max == 0 then 0 else if text[0] == '\n' then 1 else 1 + LineLength(text[1..], max - 1)
  }

  function TrimLeft(s: string): string {
    if s != "" && (s[0] == ' ' || s[0] == '\t') then TrimLeft(s[1..]) else s
  }

  function TrimRight(s: string): string {
    if s != "" && (s[|s| - 1] == '\n' || s[|s| - 1] == '\r') then TrimRight(s[..|s| - 1]) else s
  }

  predicate StartsWith(s: string, p: string) { p <= s }

  /** The place of the first quote, or |s|. */
  function Quote(s: string): (q: nat)
    ensures q <= |s| && (q < |s| ==> s[q] == '"')
    ensures forall k :: 0 <= k < q ==> s[k] != '"'
  {
    if s == "" || s[0] == '"' then 0 else 1 + Quote(s[1..])
  }

  /** What fits an array of `size` characters with its terminator. */
  function Clip(s: string, size: nat): string
    requires size > 0
  {
    if |s| < size then s else s[..size - 1]
  }

  /** A line inside the record of a package. */
  function ReadField(p: Package, s: string): Package {
    if StartsWith(s, NAME) then
      var v := s[|NAME|..];
      if Quote(v) == |v| then p else p.(name := Clip(v[..Quote(v)], MAX_NAME))
    else if StartsWith(s, VERSION) then
      var v := s[|VERSION|..];
      if Quote(v) == |v| then p else p.(version := Clip(v[..Quote(v)], MAX_VERSION))
    else if StartsWith(s, DESCRIPTION) then
      var v := s[|DESCRIPTION|..];
      if Quote(v) == |v| then p else p.(description := Clip(v[..Quote(v)], MAX_TEXT))
    else if StartsWith(s, "\"/") then
      var v := s[1..];
      if Quote(v) == |v| || |p.files| >= MAX_FILES then p
      else p.(files := p.files + [Clip(v[..Quote(v)], MAX_TEXT)])
    else p
  }

  /** One line; false when the table is full and reading stops. */
  function ReadLine(ps: seq<Package>, line: string, max: nat): (seq<Package>, bool) {
    var s := TrimRight(TrimLeft(line));
    if s == PACKAGE then
      if |ps| >= max then (ps, false) else (ps + [NO_PACKAGE], true)
    else if ps == [] then (ps, true)
    else (ps[|ps| - 1 := ReadField(ps[|ps| - 1], s)], true)
  }

  function ReadLines(ps: seq<Package>, text: string, max: nat): seq<Package>
    decreases |text|
  {
    if text == "" then ps
    else
      var n := LineLength(text, LINE_SIZE - 1);
      var (ps', go) := ReadLine(ps, text[..n], max);
      if go then ReadLines(ps', text[n..], max) else ps'
  }

  /** What db_load_installed returns for a text. */
  function Load(text: string, max: nat): seq<Package> { ReadLines([], text, max) }

  // ------------------------------------------------------ what can be read

  predicate Plain(s: string) { '"' !in s && '\n' !in s }

  /** No field has a quote or a newline, and every path is absolute. */
  ghost predicate Clean(p: Package) {
    && Plain(p.name) && Plain(p.version) && Plain(p.description)
    && forall j :: 0 <= j < |p.files| ==> Plain(p.files[j]) && StartsWith(p.files[j], "/")
  }

  ghost predicate AllGood(ps: seq<Package>, max: nat) {
    |ps| <= max && forall i :: 0 <= i < |ps| ==> Clean(ps[i]) && Fits(ps[i])
  }

  lemma {:induction false} TrimLeftPart(s: string)
    ensures |TrimLeft(s)| <= |s| && TrimLeft(s) == s[|s| - |TrimLeft(s)|..]
  {
    if s != "" && (s[0] == ' ' || s[0] == '\t') { TrimLeftPart(s[1..]); }
  }

  lemma {:induction false} TrimRightPart(s: string)
    ensures TrimRight(s) <= s
    ensures TrimRight(s) != "" ==> TrimRight(s)[|TrimRight(s)| - 1] != '\n'
  {
    if s != "" && (s[|s| - 1] == '\n' || s[|s| - 1] == '\r') { TrimRightPart(s[..|s| - 1]); }
  }

  /** A trimmed line has no newline. */
  lemma TrimmedLine(line: string)
    requires forall k :: 0 <= k < |line| - 1 ==> line[k] != '\n'
    ensures '\n' !in TrimRight(TrimLeft(line))
  {
    var l := TrimLeft(line);
    TrimLeftPart(line);
    TrimRightPart(l);
    NoInnerNewline(line, |line| - |l|, |TrimRight(l)|, TrimRight(l));
  }

  lemma NoInnerNewline(line: string, from: nat, n: nat, s: string)
    requires forall k :: 0 <= k < |line| - 1 ==> line[k] != '\n'
    requires from + n <= |line| && s == line[from..][..n] && (n > 0 ==> s[n - 1] != '\n')
    ensures '\n' !in s
  {
    forall k | 0 <= k < |s| ensures s[k] != '\n' { assert s[k] == line[from + k]; }
  }

  lemma ValueIsPlain(v: string, size: nat)
    requires '\n' !in v && size > 1
    ensures Plain(Clip(v[..Quote(v)], size)) && |Clip(v[..Quote(v)], size)| < size
    ensures StartsWith(v, "/") ==> StartsWith(Clip(v[..Quote(v)], size), "/")
  {
  }

  lemma FieldIsGood(p: Package, s: string)
    requires '\n' !in s && Clean(p) && Fits(p)
    ensures Clean(ReadField(p, s)) && Fits(ReadField(p, s))
  {
    if StartsWith(s, NAME) { ValueIsPlain(s[|NAME|..], MAX_NAME); }
    else if StartsWith(s, VERSION) { ValueIsPlain(s[|VERSION|..], MAX_VERSION); }
    else if StartsWith(s, DESCRIPTION) { ValueIsPlain(s[|DESCRIPTION|..], MAX_TEXT); }
    else if StartsWith(s, "\"/") { assert s[1..][0] == '/'; ValueIsPlain(s[1..], MAX_TEXT); }
  }

  lemma {:induction false} ReadIsGood(ps: seq<Package>, text: string, max: nat)
    requires AllGood(ps, max)
    ensures AllGood(ReadLines(ps, text, max), max)
    decreases |text|
  {
    if text != "" {
      var n := LineLength(text, LINE_SIZE - 1);
      var line := text[..n];
      TrimmedLine(line);
      var s := TrimRight(TrimLeft(line));
      if ps != [] { FieldIsGood(ps[|ps| - 1], s); }
      var (ps', go) := ReadLine(ps, line, max);
      if go { ReadIsGood(ps', text[n..], max); }
    }
  }

  // ------------------------------------------------------------ round trip

  ghost predicate Proper(line: string) {
    && 0 < |line| < LINE_SIZE && line[|line| - 1] == '\n'
    && forall k :: 0 <= k < |line| - 1 ==> line[k] != '\n'
  }

  lemma {:induction false} LineLengthProper(line: string, rest: string, max: nat)
    requires line != "" && line[|line| - 1] == '\n' && |line| <= max
    requires forall k :: 0 <= k < |line| - 1 ==> line[k] != '\n'
    ensures LineLength(line + rest, max) == |line|
    decreases |line|
  {
    if |line| > 1 {
      assert (line + rest)[1..] == line[1..] + rest;
      LineLengthProper(line[1..], rest, max - 1);
    }
  }

  /** Reading a list of lines. */
  function ReadAll(ps: seq<Package>, lines: seq<string>, max: nat): seq<Package>
    decreases |lines|
  {
    if lines == [] then ps
    else var (ps', go) := ReadLine(ps, lines[0], max); if go then ReadAll(ps', lines[1..], max) else ps'
  }

  lemma {:induction false} ReadJoined(ps: seq<Package>, lines: seq<string>, max: nat)
    requires forall k :: 0 <= k < |lines| ==> Proper(lines[k])
    ensures ReadLines(ps, Join(lines), max) == ReadAll(ps, lines, max)
    decreases |lines|
  {
    if lines != [] {
      var line, rest := lines[0], Join(lines[1..]);
      LineLengthProper(line, rest, LINE_SIZE - 1);
      assert (line + rest)[..|line|] == line && (line + rest)[|line|..] == rest;
      var (ps', go) := ReadLine(ps, line, max);
      if go { ReadJoined(ps', lines[1..], max); }
    }
  }

  /** The list of lines is read without stopping and turns one table into another. */
  ghost predicate Reads(ps: seq<Package>, lines: seq<string>, max: nat, ps': seq<Package>)
    decreases |lines|
  {
    if lines == [] then ps == ps'
    else var (m, go) := ReadLine(ps, lines[0], max); go && Reads(m, lines[1..], max, ps')
  }

  lemma {:induction false} ReadsOn(ps: seq<Package>, a: seq<string>, m: seq<Package>, b: seq<string>, max: nat,
                                   ps': seq<Package>)
    requires Reads(ps, a, max, m) && Reads(m, b, max, ps')
    ensures Reads(ps, a + b, max, ps')
    decreases |a|
  {
    if a == [] {
      assert a + b == b;
    } else {
      assert (a + b)[1..] == a[1..] + b;
      ReadsOn(ReadLine(ps, a[0], max).0, a[1..], m, b, max, ps');
    }
  }

  lemma {:induction false} ReadsAll(ps: seq<Package>, lines: seq<string>, max: nat, ps': seq<Package>)
    requires Reads(ps, lines, max, ps')
    ensures ReadAll(ps, lines, max) == ps'
    decreases |lines|
  {
    if lines != [] { ReadsAll(ReadLine(ps, lines[0], max).0, lines[1..], max, ps'); }
  }

  lemma ReadsOne(ps: seq<Package>, line: string, max: nat)
    requires ReadLine(ps, line, max).1
    ensures Reads(ps, [line], max, ReadLine(ps, line, max).0)
  {
    assert [line][1..] == [];
  }

  // ------------------------------------------------------ single lines

  predicate Blank(c: char) { c == ' ' || c == '\t' || c == '\n' || c == '\r' }

  lemma TrimEnds(s: string)
    requires s != "" && !Blank(s[0]) && !Blank(s[|s| - 1])
    ensures TrimRight(TrimLeft(s + "\n")) == s
  {
    var line := s + "\n";
    assert line[..|line| - 1] == s;
  }

  lemma TrimIndented(s: string)
    requires s != "" && !Blank(s[0]) && !Blank(s[|s| - 1])
    ensures TrimRight(TrimLeft("  " + s + "\n")) == s
  {
    var line := "  " + s + "\n";
    assert line[1..][1..] == s + "\n";
    TrimEnds(s);
    assert TrimLeft(line) == TrimLeft(s + "\n");
  }

  lemma QuotedValue(v: string, end: string)
    requires Plain(v) && StartsWith(end, "\"")
    ensures Quote(v + end) == |v| && (v + end)[..|v|] == v
  {
  }

  lemma ReadName(p: Package, v: string)
    requires Plain(v) && |v| < MAX_NAME
    ensures ReadField(p, NAME + v + "\"") == p.(name := v)
  {
    var s := NAME + v + "\"";
    assert s[|NAME|..] == v + "\"";
    QuotedValue(v, "\"");
  }

  lemma ReadVersion(p: Package, v: string)
    requires Plain(v) && |v| < MAX_VERSION
    ensures ReadField(p, VERSION + v + "\"") == p.(version := v)
  {
    var s := VERSION + v + "\"";
    assert s[0] == 'v' && NAME[0] == 'n';
    assert s[|VERSION|..] == v + "\"";
    QuotedValue(v, "\"");
  }

  lemma ReadDescription(p: Package, v: string)
    requires Plain(v) && |v| < MAX_TEXT
    ensures ReadField(p, DESCRIPTION + v + "\"") == p.(description := v)
  {
    var s := DESCRIPTION + v + "\"";
    assert s[0] == 'd' && NAME[0] == 'n' && VERSION[0] == 'v';
    assert s[|DESCRIPTION|..] == v + "\"";
    QuotedValue(v, "\"");
  }

  lemma ReadFile(p: Package, v: string, end: string)
    requires Plain(v) && StartsWith(v, "/") && |v| < MAX_TEXT && |p.files| < MAX_FILES && StartsWith(end, "\"")
    ensures ReadField(p, "\"" + v + end) == p.(files := p.files + [v])
  {
    var s := "\"" + v + end;
    assert s[0] == '"' && s[1] == '/' && NAME[0] == 'n' && VERSION[0] == 'v' && DESCRIPTION[0] == 'd';
    assert s[1..] == v + end;
    assert s[..2] == "\"/";
    QuotedValue(v, end);
  }

  lemma ReadNothing(p: Package, s: string)
    requires s == "" || (s[0] != 'n' && s[0] != 'v' && s[0] != 'd' && s[0] != '"')
    ensures ReadField(p, s) == p
  {
    assert NAME[0] == 'n' && VERSION[0] == 'v' && DESCRIPTION[0] == 'd';
  }

  // ---------------------------------------------------- whole records

  /** A line that is not the start of a record changes the last package as its field says. */
  lemma LineRead(ps: seq<Package>, p: Package, line: string, s: string, max: nat, p': Package)
    requires TrimRight(TrimLeft(line)) == s && s != PACKAGE && ReadField(p, s) == p'
    ensures Reads(ps + [p], [line], max, ps + [p'])
  {
    assert (ps + [p])[|ps| := p'] == ps + [p'];
    ReadsOne(ps + [p], line, max);
  }

  lemma StartRead(ps: seq<Package>, max: nat)
    requires |ps| < max
    ensures Reads(ps, [PACKAGE + "\n"], max, ps + [NO_PACKAGE])
  {
    TrimEnds(PACKAGE);
    ReadsOne(ps, PACKAGE + "\n", max);
  }

  lemma NameRead(ps: seq<Package>, p: Package, v: string, max: nat)
    requires Plain(v) && |v| < MAX_NAME
    ensures Reads(ps + [p], [FieldLine(NAME, v)], max, ps + [p.(name := v)])
  {
    var s := NAME + v + "\"";
    assert s + "\n" == FieldLine(NAME, v);
    assert s[0] == 'n' && PACKAGE[0] == '[' && s[|s| - 1] == '"';
    TrimEnds(s);
    ReadName(p, v);
    LineRead(ps, p, FieldLine(NAME, v), s, max, p.(name := v));
  }

  lemma VersionRead(ps: seq<Package>, p: Package, v: string, max: nat)
    requires Plain(v) && |v| < MAX_VERSION
    ensures Reads(ps + [p], [FieldLine(VERSION, v)], max, ps + [p.(version := v)])
  {
    var s := VERSION + v + "\"";
    assert s + "\n" == FieldLine(VERSION, v);
    assert s[0] == 'v' && PACKAGE[0] == '[' && s[|s| - 1] == '"';
    TrimEnds(s);
    ReadVersion(p, v);
    LineRead(ps, p, FieldLine(VERSION, v), s, max, p.(version := v));
  }

  lemma DescriptionRead(ps: seq<Package>, p: Package, v: string, max: nat)
    requires Plain(v) && |v| < MAX_TEXT
    ensures Reads(ps + [p], [FieldLine(DESCRIPTION, v)], max, ps + [p.(description := v)])
  {
    var s := DESCRIPTION + v + "\"";
    assert s + "\n" == FieldLine(DESCRIPTION, v);
    assert s[0] == 'd' && PACKAGE[0] == '[' && s[|s| - 1] == '"';
    TrimEnds(s);
    ReadDescription(p, v);
    LineRead(ps, p, FieldLine(DESCRIPTION, v), s, max, p.(description := v));
  }

  lemma FileRead(ps: seq<Package>, p: Package, v: string, last: bool, max: nat)
    requires Plain(v) && StartsWith(v, "/") && |v| < MAX_TEXT && |p.files| < MAX_FILES
    ensures Reads(ps + [p], [FileLine(v, last)], max, ps + [p.(files := p.files + [v])])
  {
    var end := if last then "\"" else "\",";
    var s := "\"" + v + end;
    assert "  " + s + "\n" == FileLine(v, last);
    assert s[0] == '"' && PACKAGE[0] == '[' && !Blank(s[|s| - 1]);
    TrimIndented(s);
    ReadFile(p, v, end);
    LineRead(ps, p, FileLine(v, last), s, max, p.(files := p.files + [v]));
  }

  lemma {:induction false} FilesRead(ps: seq<Package>, p: Package, files: seq<string>, j: nat, max: nat)
    requires j <= |files| <= MAX_FILES
    requires forall k :: 0 <= k < |files| ==> Plain(files[k]) && StartsWith(files[k], "/") && |files[k]| < MAX_TEXT
    ensures Reads(ps + [p.(files := files[..j])], FileLines(files, j), max, ps + [p.(files := files)])
    decreases |files| - j
  {
    if j == |files| {
      assert files[..j] == files;
    } else {
      assert files[..j + 1] == files[..j] + [files[j]];
      FileRead(ps, p.(files := files[..j]), files[j], j + 1 == |files|, max);
      FilesRead(ps, p, files, j + 1, max);
      ReadsOn(ps + [p.(files := files[..j])], [FileLine(files[j], j + 1 == |files|)],
              ps + [p.(files := files[..j + 1])],
              FileLines(files, j + 1), max, ps + [p.(files := files)]);
    }
  }

  /** Lines that mean nothing: the opening of the list, its end, and the empty line. */
  lemma IgnoredRead(ps: seq<Package>, p: Package, max: nat)
    ensures Reads(ps + [p], [FILES + "\n"], max, ps + [p])
    ensures Reads(ps + [p], ["]\n"], max, ps + [p])
    ensures Reads(ps + [p], ["\n"], max, ps + [p])
  {
    assert FILES[0] == 'f' && PACKAGE[0] == '[' && FILES[|FILES| - 1] == '[';
    TrimEnds(FILES);
    ReadNothing(p, FILES);
    LineRead(ps, p, FILES + "\n", FILES, max, p);
    TrimEnds("]");
    assert "]" + "\n" == "]\n";
    ReadNothing(p, "]");
    LineRead(ps, p, "]\n", "]", max, p);
    EmptyLine();
    ReadNothing(p, "");
    LineRead(ps, p, "\n", "", max, p);
  }

  lemma EmptyLine()
    ensures TrimRight(TrimLeft("\n")) == ""
  {
    assert "\n"[..0] == "";
  }

  lemma HeadRead(ps: seq<Package>, p: Package, max: nat)
    requires Clean(p) && Fits(p) && |ps| < max
    ensures Reads(ps, HeadLines(p), max, ps + [p.(files := [])])
  {
    var p0, p1, p2 := NO_PACKAGE, NO_PACKAGE.(name := p.name), NO_PACKAGE.(name := p.name, version := p.version);
    var p3 := p.(files := []);
    StartRead(ps, max);
    NameRead(ps, p0, p.name, max);
    VersionRead(ps, p1, p.version, max);
    DescriptionRead(ps, p2, p.description, max);
    IgnoredRead(ps, p3, max);
    var l0, l1 := [PACKAGE + "\n"], [FieldLine(NAME, p.name)];
    var l2, l3 := [FieldLine(VERSION, p.version)], [FieldLine(DESCRIPTION, p.description)];
    ReadsOn(ps, l0, ps + [p0], l1, max, ps + [p1]);
    ReadsOn(ps, l0 + l1, ps + [p1], l2, max, ps + [p2]);
    ReadsOn(ps, l0 + l1 + l2, ps + [p2], l3, max, ps + [p3]);
    ReadsOn(ps, l0 + l1 + l2 + l3, ps + [p3], [FILES + "\n"], max, ps + [p3]);
  }

  lemma PackageRead(ps: seq<Package>, p: Package, max: nat)
    requires Clean(p) && Fits(p) && |ps| < max
    ensures Reads(ps, PackageLines(p), max, ps + [p])
  {
    HeadRead(ps, p, max);
    FilesRead(ps, p, p.files, 0, max);
    assert p.files[..0] == [];
    ReadsOn(ps, HeadLines(p), ps + [p.(files := [])], FileLines(p.files, 0), max, ps + [p]);
    IgnoredRead(ps, p, max);
    ReadsOn(ps, HeadLines(p) + FileLines(p.files, 0), ps + [p], ["]\n"], max, ps + [p]);
    ReadsOn(ps, HeadLines(p) + FileLines(p.files, 0) + ["]\n"], ps + [p], ["\n"], max, ps + [p]);
  }

  lemma {:induction false} AllRead(ps: seq<Package>, i: nat, max: nat)
    requires AllGood(ps, max) && i <= |ps|
    ensures Reads(ps[..i], AllLines(ps, i), max, ps)
    decreases |ps| - i
  {
    if i == |ps| {
      assert ps[..i] == ps;
    } else {
      PackageRead(ps[..i], ps[i], max);
      assert ps[..i] + [ps[i]] == ps[..i + 1];
      AllRead(ps, i + 1, max);
      ReadsOn(ps[..i], PackageLines(ps[i]), ps[..i + 1], AllLines(ps, i + 1), max, ps);
    }
  }

  // ------------------------------------------------- the lines are proper

  lemma FieldLineProper(key: string, v: string)
    requires '\n' !in key && '\n' !in v && |key| + |v| + 2 < LINE_SIZE
    ensures Proper(FieldLine(key, v))
  {
  }

  lemma KeysProper(p: Package)
    requires Clean(p) && Fits(p)
    ensures Proper(PACKAGE + "\n") && Proper(FieldLine(NAME, p.name)) && Proper(FieldLine(VERSION, p.version))
    ensures Proper(FieldLine(DESCRIPTION, p.description)) && Proper(FILES + "\n") && Proper("]\n") && Proper("\n")
  {
    FieldLineProper(NAME, p.name);
    FieldLineProper(VERSION, p.version);
    FieldLineProper(DESCRIPTION, p.description);
  }

  lemma {:induction false} FileLinesProper(files: seq<string>, j: nat)
    requires j <= |files| && forall k :: 0 <= k < |files| ==> Plain(files[k]) && |files[k]| < MAX_TEXT
    ensures forall k :: 0 <= k < |FileLines(files, j)| ==> Proper(FileLines(files, j)[k])
    decreases |files| - j
  {
    if j < |files| { FileLinesProper(files, j + 1); }
  }

  lemma {:induction false} AllLinesProper(ps: seq<Package>, i: nat, max: nat)
    requires AllGood(ps, max) && i <= |ps|
    ensures forall k :: 0 <= k < |AllLines(ps, i)| ==> Proper(AllLines(ps, i)[k])
    decreases |ps| - i
  {
    if i < |ps| {
      KeysProper(ps[i]);
      FileLinesProper(ps[i].files, 0);
      AllLinesProper(ps, i + 1, max);
    }
  }

  lemma TitlePlain()
    ensures '\n' !in TITLE && 0 < |TITLE| < 100 && TITLE[|TITLE| - 1] == 'g'
  {
  }

  lemma HeaderProper()
    ensures Proper(HEADER) && TrimRight(TrimLeft(HEADER)) != PACKAGE
  {
    TitlePlain();
    var s := "# " + TITLE;
    assert s[0] == '#' && s[|s| - 1] == 'g' && PACKAGE[0] == '[';
    TrimEnds(s);
  }

  lemma HeaderRead(max: nat)
    ensures Proper(HEADER) && Proper("\n") && Reads([], [HEADER] + ["\n"], max, [])
  {
    HeaderProper();
    EmptyLine();
    ReadsOne([], HEADER, max);
    ReadsOne([], "\n", max);
    ReadsOn([], [HEADER], [], ["\n"], max, []);
  }

  lemma SavedRead(ps: seq<Package>, max: nat)
    requires AllGood(ps, max)
    ensures Load(Save(ps), max) == ps
  {
    var lines := [HEADER] + ["\n"] + AllLines(ps, 0);
    HeaderRead(max);
    AllLinesProper(ps, 0, max);
    AllRead(ps, 0, max);
    ReadsOn([], [HEADER] + ["\n"], [], AllLines(ps, 0), max, ps);
    ReadJoined([], lines, max);
    ReadsAll([], lines, max, ps);
  }

  /** A saved table is read back unchanged, exactly when it fits the reader's table, no field has a quote or
      a newline, and every path is absolute. */
  lemma LoadSave(ps: seq<Package>, max: nat)
    requires forall i :: 0 <= i < |ps| ==> Fits(ps[i])
    ensures Load(Save(ps), max) == ps <==> |ps| <= max && forall i :: 0 <= i < |ps| ==> Clean(ps[i])
  {
    ReadIsGood([], Save(ps), max);
    if AllGood(ps, max) { SavedRead(ps, max); }
  }

  /** For example, a package with a quote in its name and one with a relative path are not read back. */
  lemma NotReadBack(max: nat)
    ensures Load(Save([QUOTE_IN_NAME]), max) != [QUOTE_IN_NAME]
    ensures Load(Save([RELATIVE_PATH]), max) != [RELATIVE_PATH]
  {
    assert Fits(QUOTE_IN_NAME) && QUOTE_IN_NAME.name[1] == '"' && !Clean([QUOTE_IN_NAME][0]);
    assert RELATIVE_PATH.files[0][0] == 'b';
    assert Fits(RELATIVE_PATH) && !StartsWith(RELATIVE_PATH.files[0], "/") && !Clean([RELATIVE_PATH][0]);
    LoadSave([QUOTE_IN_NAME], max);
    LoadSave([RELATIVE_PATH], max);
  }

  const QUOTE_IN_NAME := Package("a\"b", "1.0", "", ["/bin/a"])

  const RELATIVE_PATH := Package("a", "1.0", "", ["bin/a"])
}
