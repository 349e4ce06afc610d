/** The TOML subset of luna-init: what each line means, and the documents that can be written in it. */
module Toml {

  const MAX_ENTRIES := 128
  const MAX_TABLES := 32
  const MAX_LINE := 512
  const MAX_KEY := 64
  const MAX_SECTION := 64
  const MAX_STR := 256
  const MAX_ITEMS := 16
  const MAX_DOC := 65536
  const INT_MIN := -0x8000_0000_0000_0000
  const INT_MAX := 0x7FFF_FFFF_FFFF_FFFF

  datatype Error = Malformed | Overflow | NotFound | Unsupported | TooLarge

  datatype Result<T> = Ok(value: T) | Err(error: Error)

  datatype Value = Str(s: string) | Int(n: int) | Bool(b: bool) | Arr(items: seq<string>)

  /** A binding; `index` is -1 outside [[tables]]. */
  datatype Entry = Entry(section: string, key: string, value: Value, index: int)

  datatype Table = Table(name: string, count: nat)

  /** The document read so far and the section the next line belongs to. */
  datatype Doc = Doc(entries: seq<Entry>, tables: seq<Table>, section: string, index: int)

  const NO_DOC := Doc([], [], "", -1)

  // ----------------------------------------------------------- characters

  predicate Space(c: char) { c == ' ' || ('\t' <= c <= '\r') }

  function TrimLeft(s: string): string {
    if s != "" && Space(s[0]) then TrimLeft(s[1..]) else s
  }

  function TrimRight(s: string): string {
    if s != "" && Space(s[|s| - 1]) then TrimRight(s[..|s| - 1]) else s
  }

  function Trim(s: string): string { TrimRight(TrimLeft(s)) }

  /** The place of the first `c`, or |s|. */
  function IndexOf(s: string, c: char): (i: nat)
    ensures i <= |s| && (i < |s| ==> s[i] == c)
    ensures forall k :: 0 <= k < i ==> s[k] != c
  {
    if s == "" || s[0] == c then 0 else 1 + IndexOf(s[1..], c)
  }

  /** The place of the first "]]", or |s|. */
  function TableEnd(s: string): (i: nat)
    ensures i <= |s| && (i < |s| ==> i + 1 < |s| && s[i] == ']' && s[i + 1] == ']')
  {
    if |s| < 2 then |s| else if s[0] == ']' && s[1] == ']' then 0
    else var i := TableEnd(s[1..]); 1 + i
  }

  // --------------------------------------------------------------- values

  // A pointer into a text is given as the rest of the text from there.

  /** The text of a string after its opening quote; only \" is an escape. */
  function StringFrom(p: string, out: string): Result<string>
    decreases |p|
  {
    if p != "" && p[0] != '"' && |out| < MAX_STR - 1 then
      if p[0] == '\\' && |p| > 1 && p[1] == '"' then StringFrom(p[2..], out + ['"'])
      else StringFrom(p[1..], out + [p[0]])
    else if p == "" then Err(Malformed)
    else if p[0] == '"' then Ok(out)
    else Err(Overflow)
  }

  function ParseString(p: string): Result<string> {
    if p == "" || p[0] != '"' then Err(Malformed) else StringFrom(p[1..], "")
  }

  /** Where the array parser resumes after the opening quote of a string; it skips any escaped character. */
  function SkipString(p: string): (r: string)
    ensures |r| <= |p|
    decreases |p|
  {
    if p == "" then p
    else if p[0] == '"' then p[1..]
    else if p[0] == '\\' then (if |p| > 1 then SkipString(p[2..]) else "")
    else SkipString(p[1..])
  }

  /** Skipping does not run past the end of the text. */
  ghost predicate SkipsInside(p: string)
    decreases |p|
  {
    || p == "" || p[0] == '"'
    || if p[0] == '\\' then |p| > 1 && SkipsInside(p[2..]) else SkipsInside(p[1..])
  }

  /** A string that was accepted is skipped without running past the end, although its escapes are read in
      another way. */
  lemma {:induction false} AcceptedSkipsInside(p: string, out: string)
    requires StringFrom(p, out).Ok?
    ensures SkipsInside(p)
    decreases |p|
  {
    if p[0] == '"' {
    } else if p[0] == '\\' && |p| > 1 && p[1] == '"' {
      AcceptedSkipsInside(p[2..], out + ['"']);
    } else if p[0] == '\\' {
      var q, out' := p[1..], out + [p[0]];
      if q[0] == '\\' && |q| > 1 && q[1] == '"' {
        assert p[2..][0] == '"';
      } else {
        assert q[1..] == p[2..];
        AcceptedSkipsInside(q[1..], out' + [q[0]]);
      }
    } else {
      AcceptedSkipsInside(p[1..], out + [p[0]]);
    }
  }

  function SkipBlanks(p: string): (r: string)
    ensures |r| <= |p|
    decreases |p|
  {
    if p != "" && (Space(p[0]) || p[0] == ',') then SkipBlanks(p[1..]) else p
  }

  function ItemsFrom(p: string, items: seq<string>): Result<seq<string>>
    decreases |p|
  {
    if p == "" then Err(Malformed)
    else
      var q := SkipBlanks(p);
      if q == "" then Err(Malformed)
      else if q[0] == ']' then (if TrimLeft(q[1..]) == "" then Ok(items) else Err(Malformed))
      else if q[0] != '"' then Err(Unsupported)
      else if |items| >= MAX_ITEMS then Err(Overflow)
      else
        match ParseString(q)
        case Err(e) => Err(e)
        case Ok(item) => ItemsFrom(SkipString(q[1..]), items + [item])
  }

  predicate Digit(c: char) { '0' <= c <= '9' }

  function DigitValue(c: char): (n: nat)
    requires Digit(c)
    ensures n < 10
  {
    c as int - '0' as int
  }

  /** The value of a list of digits. */
  function Digits(s: string): nat
    requires forall k :: 0 <= k < |s| ==> Digit(s[k])
  {
    if s == "" then 0 else 10 * Digits(s[..|s| - 1]) + DigitValue(s[|s| - 1])
  }

  /** How many digits stand at the start. */
  function DigitCount(s: string): (n: nat)
    ensures n <= |s| && forall k :: 0 <= k < n ==> Digit(s[k])
    ensures n < |s| ==> !Digit(s[n])
  {
    if s != "" && Digit(s[0]) then 1 + DigitCount(s[1..]) else 0
  }

  /** A number without its sign; one that does not fit 64 bits is refused like other text. */
  function ParseNumber(body: string, minus: bool): Result<Value> {
    var n := DigitCount(body);
    if n == 0 then Err(Unsupported)
    else
      var v := if minus then 0 - Digits(body[..n]) else Digits(body[..n]);
      if v < INT_MIN || v > INT_MAX then Err(Unsupported)
      else if n < |body| then Err(Malformed)
      else Ok(Int(v))
  }

  /** strtoll: an optional sign and digits. */
  function ParseInt(s: string): Result<Value> {
    if s != "" && (s[0] == '-' || s[0] == '+') then ParseNumber(s[1..], s[0] == '-') else ParseNumber(s, false)
  }

  predicate Word(s: string, w: string) {
    w <= s && (|s| == |w| || Space(s[|w|]) || s[|w|] == '#')
  }

  function ParseValue(s: string): Result<Value> {
    if s != "" && s[0] == '"' then
      match ParseString(s) case Ok(v) => Ok(Str(v)) case Err(e) => Err(e)
    else if s != "" && s[0] == '[' then
      match ItemsFrom(s[1..], []) case Ok(v) => Ok(Arr(v)) case Err(e) => Err(e)
    else if Word(s, "true") then Ok(Bool(true))
    else if Word(s, "false") then Ok(Bool(false))
    else ParseInt(s)
  }

  // ---------------------------------------------------------------- lines

  /** The text before the first # outside quotes. */
  function BeforeComment(s: string, quoted: bool): string {
    if s == "" then ""
    else
      var quoted' := if s[0] == '"' then !quoted else quoted;
      if !quoted' && s[0] == '#' then "" else [s[0]] + BeforeComment(s[1..], quoted')
  }

  /** The place of a table name in the list, or |tables|. */
  function FindTable(tables: seq<Table>, name: string): (i: nat)
    ensures i <= |tables| && (i < |tables| ==> tables[i].name == name)
    ensures forall k :: 0 <= k < i ==> tables[k].name != name
  {
    if tables == [] || tables[0].name == name then 0 else 1 + FindTable(tables[1..], name)
  }

  function TableHeader(d: Doc, name: string): Result<Doc> {
    if |name| >= MAX_SECTION then Err(Overflow)
    else
      var i := FindTable(d.tables, name);
      if i < |d.tables| then
        var t := d.tables[i];
        Ok(d.(section := name, index := t.count, tables := d.tables[i := t.(count := t.count + 1)]))
      else if |d.tables| >= MAX_TABLES then Err(Overflow)
      else Ok(d.(section := name, index := 0, tables := d.tables + [Table(name, 1)]))
  }

  function Binding(d: Doc, line: string): Result<Doc> {
    var eq := IndexOf(line, '=');
    if eq == |line| then Err(Malformed)
    else if eq >= MAX_KEY then Err(Overflow)
    else
      var key := Trim(line[..eq]);
      if |line| - eq - 1 >= 2 * MAX_STR then Err(Overflow)
      else
        var raw := Trim(line[eq + 1..]);
        var text := Trim(BeforeComment(raw, false));
        if |d.entries| >= MAX_ENTRIES then Err(Overflow)
        else
          match ParseValue(text)
          case Err(e) => Err(e)
          case Ok(v) => Ok(d.(entries := d.entries + [Entry(d.section, key, v, d.index)]))
  }

  function ParseLine(d: Doc, untrimmed: string): Result<Doc> {
    var line := Trim(untrimmed);
    if line == "" || line[0] == '#' then Ok(d)
    else if line[0] == '[' && |line| > 1 && line[1] == '[' then
      var rest := line[2..];
      if TableEnd(rest) == |rest| then Err(Malformed) else TableHeader(d, rest[..TableEnd(rest)])
    else if line[0] == '[' then
      var rest := line[1..];
      var e := IndexOf(rest, ']');
      if e == |rest| then Err(Malformed)
      else if e >= MAX_SECTION then Err(Overflow)
      else Ok(d.(section := rest[..e], index := -1))
    else Binding(d, line)
  }

  function DropReturn(line: string): string {
    if line != "" && line[|line| - 1] == '\r' then line[..|line| - 1] else line
  }

  function LoadFrom(d: Doc, text: string): Result<Doc>
    decreases |text|
  {
    if text == "" then Ok(d)
    else
      var n := IndexOf(text, '\n');
      if n >= MAX_LINE then Err(Overflow)
      else
        match ParseLine(d, DropReturn(text[..n]))
        case Err(e) => Err(e)
        case Ok(d') => LoadFrom(d', if n < |text| then text[n + 1..] else "")
  }

  /** What toml_load_buffer makes of a text. */
  function Load(text: string): Result<Doc> {
    if text == "" || |text| > MAX_DOC then Err(TooLarge) else LoadFrom(NO_DOC, text)
  }

  // -------------------------------------------------------------- lookups

  /** The value of the first entry that belongs to the section, table index and key. */
  function Lookup(entries: seq<Entry>, section: string, index: int, key: string): Result<Value> {
    if entries == [] then Err(NotFound)
    else if entries[0].index == index && entries[0].section == section && entries[0].key == key
    then Ok(entries[0].value)
    else Lookup(entries[1..], section, index, key)
  }
}
