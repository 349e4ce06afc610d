/** The TOML parser in the form in which it walks over its buffers. */
module TomlParser {
  import T = Toml
  import opened TomlDocument
  import opened TomlLookup

  method StrTrim(s: string) returns (r: string)
    ensures r == T.Trim(s)
  {
    r := s;
    while r != "" && T.Space(r[0])
      invariant T.TrimLeft(r) == T.TrimLeft(s)
      decreases |r|
    {
      r := r[1..];
    }
    while r != "" && T.Space(r[|r| - 1])
      invariant T.TrimRight(r) == T.Trim(s)
      decreases |r|
    {
      r := r[..|r| - 1];
    }
  }

  method ParseStringValue(src: string) returns (r: T.Result<string>)
    ensures r == T.ParseString(src)
  {
    if src == "" || src[0] != '"' { return T.Err(T.Malformed); }
    var p, out := src[1..], "";
    while p != "" && p[0] != '"' && |out| < T.MAX_STR - 1
      invariant T.StringFrom(p, out) == T.ParseString(src)
      decreases |p|
    {
      if p[0] == '\\' && |p| > 1 && p[1] == '"' {
        out := out + ['"'];
        p := p[2..];
      } else {
        out := out + [p[0]];
        p := p[1..];
      }
    }
    if p == "" { return T.Err(T.Malformed); }
    if p[0] != '"' { return T.Err(T.Overflow); }
    return T.Ok(out);
  }

  method SkipItem(start: string) returns (p: string)
    ensures p == T.SkipString(start)
  {
    p := start;
    while p != "" && p[0] != '"'
      invariant T.SkipString(p) == T.SkipString(start)
      decreases |p|
    {
      if p[0] == '\\' && |p| > 1 { p := p[1..]; }
      p := p[1..];
    }
    if p != "" { p := p[1..]; }
  }

  method SkipBlanksFrom(start: string) returns (p: string)
    ensures p == T.SkipBlanks(start)
  {
    p := start;
    while p != "" && (T.Space(p[0]) || p[0] == ',')
      invariant T.SkipBlanks(p) == T.SkipBlanks(start)
      decreases |p|
    {
      p := p[1..];
    }
  }

  /** The items of an array, from behind its opening bracket. */
  method ParseArrayValue(src: string) returns (r: T.Result<seq<string>>)
    ensures r == T.ItemsFrom(src, [])
  {
    var p, items := src, [];
    while p != ""
      invariant T.ItemsFrom(p, items) == T.ItemsFrom(src, [])
      decreases |p|
    {
      var q := SkipBlanksFrom(p);
      if q == "" { return T.Err(T.Malformed); }
      if q[0] == ']' {
        var rest := StrTrim(q[1..]);
        TrimEmpty(q[1..]);
        return if rest == "" then T.Ok(items) else T.Err(T.Malformed);
      }
      if q[0] != '"' { return T.Err(T.Unsupported); }
      if |items| >= T.MAX_ITEMS { return T.Err(T.Overflow); }
      var item := ParseStringValue(q);
      if item.Err? { return T.Err(item.error); }
      items := items + [item.value];
      p := SkipItem(q[1..]);
    }
    return T.Err(T.Malformed);
  }

  lemma {:induction false} TrimEmpty(s: string)
    ensures T.Trim(s) == "" <==> T.TrimLeft(s) == ""
  {
    var l := T.TrimLeft(s);
    TrimLeftStarts(s);
    if l != "" { TrimRightKeeps(l); }
  }

  lemma {:induction false} TrimLeftStarts(s: string)
    ensures T.TrimLeft(s) != "" ==> !T.Space(T.TrimLeft(s)[0])
  {
    if s != "" && T.Space(s[0]) { TrimLeftStarts(s[1..]); }
  }

  lemma {:induction false} TrimRightKeeps(s: string)
    requires s != "" && !T.Space(s[0])
    ensures T.TrimRight(s) != ""
  {
    if T.Space(s[|s| - 1]) { TrimRightKeeps(s[..|s| - 1]); }
  }

  method ParseValue(raw: string) returns (r: T.Result<T.Value>)
    ensures r == T.ParseValue(raw)
  {
    if raw != "" && raw[0] == '"' {
      var s := ParseStringValue(raw);
      return if s.Ok? then T.Ok(T.Str(s.value)) else T.Err(s.error);
    }
    if raw != "" && raw[0] == '[' {
      var items := ParseArrayValue(raw[1..]);
      return if items.Ok? then T.Ok(T.Arr(items.value)) else T.Err(items.error);
    }
    if T.Word(raw, "true") { return T.Ok(T.Bool(true)); }
    if T.Word(raw, "false") { return T.Ok(T.Bool(false)); }
    return T.ParseInt(raw);
  }

  /** Cuts off an inline comment. */
  method StripComment(raw: string) returns (text: string)
    ensures text == T.BeforeComment(raw, false)
  {
    var i, quoted := 0, false;
    while i < |raw|
      invariant i <= |raw| && T.BeforeComment(raw, false) == raw[..i] + T.BeforeComment(raw[i..], quoted)
    {
      if raw[i] == '"' { quoted := !quoted; }
      if !quoted && raw[i] == '#' { return raw[..i]; }
      assert raw[..i + 1] == raw[..i] + [raw[i]] && raw[i..][1..] == raw[i + 1..];
      i := i + 1;
    }
    assert raw[..i] == raw;
    text := raw;
  }

  class Parser {
    var entries: seq<T.Entry>
    var tables: seq<T.Table>
    var section: string
    var index: int

    ghost function Value(): T.Doc
      reads this
    {
      T.Doc(entries, tables, section, index)
    }

    constructor ()
      ensures Value() == T.NO_DOC
    {
      entries, tables, section, index := [], [], "", -1;
    }

    /** The new state is the one the result says, if it says one. */
    ghost predicate Became(r: T.Result<T.Doc>, ok: bool, error: T.Error)
      reads this
    {
      match r
      case Ok(d) => ok && Value() == d
      case Err(e) => !ok && error == e
    }

    method FindArrayTable(name: string) returns (i: nat)
      ensures i == T.FindTable(tables, name)
    {
      i := 0;
      while i < |tables|
        invariant i <= |tables|
        invariant forall k :: 0 <= k < i ==> tables[k].name != name
      {
        if tables[i].name == name { break; }
        i := i + 1;
      }
    }

    method OpenTable(name: string) returns (ok: bool, error: T.Error)
      modifies this
      ensures Became(T.TableHeader(old(Value()), name), ok, error)
    {
      error := T.Overflow;
      if |name| >= T.MAX_SECTION { return false, error; }
      section := name;
      var i := FindArrayTable(name);
      if i == |tables| {
        if |tables| >= T.MAX_TABLES { return false, error; }
        tables := tables + [T.Table(name, 0)];
      }
      index := tables[i].count;
      tables := tables[i := T.Table(name, tables[i].count + 1)];
      return true, error;
    }

    method AddBinding(line: string) returns (ok: bool, error: T.Error)
      modifies this`entries
      ensures Became(T.Binding(old(Value()), line), ok, error)
    {
      var eq := T.IndexOf(line, '=');
      if eq == |line| { return false, T.Malformed; }
      if eq >= T.MAX_KEY { return false, T.Overflow; }
      var key := StrTrim(line[..eq]);
      if |line| - eq - 1 >= 2 * T.MAX_STR { return false, T.Overflow; }
      var raw := StrTrim(line[eq + 1..]);
      raw := StripComment(raw);
      raw := StrTrim(raw);
      if |entries| >= T.MAX_ENTRIES { return false, T.Overflow; }
      var value := ParseValue(raw);
      if value.Err? { return false, value.error; }
      entries := entries + [T.Entry(section, key, value.value, index)];
      return true, T.Malformed;
    }

    method ParseLine(untrimmed: string) returns (ok: bool, error: T.Error)
      modifies this
      ensures Became(T.ParseLine(old(Value()), untrimmed), ok, error)
    {
      var line := StrTrim(untrimmed);
      if line == "" || line[0] == '#' { return true, T.Malformed; }
      if line[0] == '[' && |line| > 1 && line[1] == '[' {
        var rest := line[2..];
        var e := T.TableEnd(rest);
        if e == |rest| { return false, T.Malformed; }
        ok, error := OpenTable(rest[..e]);
        return;
      }
      if line[0] == '[' {
        var rest := line[1..];
        var e := T.IndexOf(rest, ']');
        if e == |rest| { return false, T.Malformed; }
        if e >= T.MAX_SECTION { return false, T.Overflow; }
        section, index := rest[..e], -1;
        return true, T.Malformed;
      }
      ok, error := AddBinding(line);
    }
  }

  method LoadBuffer(buf: string) returns (r: T.Result<T.Doc>)
    ensures r == T.Load(buf)
  {
    if buf == "" || |buf| > T.MAX_DOC { return T.Err(T.TooLarge); }
    var parser := new Parser();
    var rest := buf;
    while rest != ""
      invariant T.LoadFrom(parser.Value(), rest) == T.LoadFrom(T.NO_DOC, buf)
      decreases |rest|
    {
      var n := T.IndexOf(rest, '\n');
      if n >= T.MAX_LINE { return T.Err(T.Overflow); }
      var ok, error := parser.ParseLine(T.DropReturn(rest[..n]));
      if !ok { return T.Err(error); }
      rest := if n < |rest| then rest[n + 1..] else "";
    }
    return T.Ok(T.Doc(parser.entries, parser.tables, parser.section, parser.index));
  }

  /** toml_get, with index -1, and toml_array_table_get. */
  method Get(d: T.Doc, section: string, index: int, key: string) returns (r: T.Result<T.Value>)
    ensures r == T.Lookup(d.entries, section, index, key)
  {
    var i := 0;
    while i < |d.entries|
      invariant i <= |d.entries|
      invariant T.Lookup(d.entries[i..], section, index, key) == T.Lookup(d.entries, section, index, key)
    {
      var e := d.entries[i];
      assert d.entries[i..][1..] == d.entries[i + 1..];
      if e.index == index && e.section == section && e.key == key { return T.Ok(e.value); }
      i := i + 1;
    }
    return T.Err(T.NotFound);
  }

  /** The bindings that toml_enumerate_section passes to its callback. */
  method EnumerateSection(d: T.Doc, section: string) returns (visited: seq<Bind>)
    ensures visited == Enumerated(d.entries, section)
  {
    visited := [];
    for i := 0 to |d.entries|
      invariant visited + Enumerated(d.entries[i..], section) == Enumerated(d.entries, section)
    {
      var e := d.entries[i];
      assert d.entries[i..][1..] == d.entries[i + 1..];
      if e.index < 0 && e.section == section { visited := visited + [Bind(e.key, e.value)]; }
    }
  }

  method ArrayTableCount(d: T.Doc, name: string) returns (count: nat)
    ensures count == TableCount(d.tables, name)
  {
    for i := 0 to |d.tables|
      invariant forall k :: 0 <= k < i ==> d.tables[k].name != name
    {
      if d.tables[i].name == name { return d.tables[i].count; }
    }
    return 0;
  }

  /** Reading back what was written, and looking it up. */
  method ReadBack(doc: Document, section: string, key: string) returns (r: T.Result<T.Value>)
    requires DocumentOk(doc)
    ensures r == FirstOf(PlainBinds(doc, |doc.blocks|, section), key)
  {
    ReadLookups(doc, section, key);
    var d := LoadBuffer(Render(doc));
    r := Get(d.value, section, -1, key);
  }
}
