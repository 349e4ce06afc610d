/** Documents of the TOML subset: how they are written, and that they are read back as they were meant. */
module TomlDocument {
  import opened Toml

  datatype Bind = Bind(key: string, value: Value)

  /** A [section] or a [[table]] with its bindings. */
  datatype Block = Block(table: bool, name: string, binds: seq<Bind>)

  datatype Document = Document(top: seq<Bind>, blocks: seq<Block>)

  // -------------------------------------------------------------- writing

  function Quoted(s: string): string { "\"" + s + "\"" }

  /** What follows an item: the further items with their separators, and the end of the array. */
  function Rest(items: seq<string>): string {
    if items == [] then "]" else ", " + (Quoted(items[0]) + Rest(items[1..]))
  }

  function ShowItems(items: seq<string>): string {
    if items == [] then "]" else Quoted(items[0]) + Rest(items[1..])
  }

  function Decimal(n: nat): (s: string)
    ensures s != "" && forall k :: 0 <= k < |s| ==> Digit(s[k])
  {
    if n < 10 then [('0' as int + n) as char] else Decimal(n / 10) + [('0' as int + n % 10) as char]
  }

  function Show(v: Value): string {
    match v
    case Str(s) => Quoted(s)
    case Int(n) => if n < 0 then "-" + Decimal(-n) else Decimal(n)
    case Bool(b) => if b then "true" else "false"
    case Arr(items) => "[" + ShowItems(items)
  }

  function BindLine(b: Bind): string { b.key + " = " + Show(b.value) }

  function HeaderLine(b: Block): string {
    if b.table then "[[" + b.name + "]]" else "[" + b.name + "]"
  }

  function BindLines(binds: seq<Bind>): string {
    if binds == [] then "" else BindLine(binds[0]) + "\n" + BindLines(binds[1..])
  }

  function BlockLines(blocks: seq<Block>): string {
    if blocks == [] then ""
    else HeaderLine(blocks[0]) + "\n" + BindLines(blocks[0].binds) + BlockLines(blocks[1..])
  }

  function Render(doc: Document): string { BindLines(doc.top) + BlockLines(doc.blocks) }

  // --------------------------------------------------------- well-formedness

  /** Text that a string value can have: the parser knows no other escapes than \". */
  predicate PlainText(s: string) { '"' !in s && '\\' !in s && '\n' !in s && |s| < MAX_STR }

  ghost predicate ValueOk(v: Value) {
    match v
    case Str(s) => PlainText(s)
    case Int(n) => INT_MIN <= n <= INT_MAX
    case Bool(_) => true
    case Arr(items) => |items| <= MAX_ITEMS && forall i :: 0 <= i < |items| ==> PlainText(items[i])
  }

  /** A key with the space behind it must fit the parser's buffer. */
  ghost predicate KeyOk(k: string) {
    && 0 < |k| < MAX_KEY - 1 && '=' !in k && '\n' !in k
    && !Space(k[0]) && !Space(k[|k| - 1]) && k[0] != '#' && k[0] != '['
  }

  ghost predicate BindOk(b: Bind) {
    KeyOk(b.key) && ValueOk(b.value) && |BindLine(b)| < MAX_LINE
  }

  ghost predicate BindsOk(binds: seq<Bind>) {
    forall i :: 0 <= i < |binds| ==> BindOk(binds[i])
  }

  ghost predicate BlockOk(b: Block) {
    && |b.name| < MAX_SECTION && ']' !in b.name && '\n' !in b.name
    && (!b.table && b.name != "" ==> b.name[0] != '[') && BindsOk(b.binds)
  }

  /** The table names in the order of their first headers. */
  function Names(blocks: seq<Block>, i: nat): seq<string>
    requires i <= |blocks|
  {
    if i == 0 then []
    else
      var names, b := Names(blocks, i - 1), blocks[i - 1];
      if b.table && b.name !in names then names + [b.name] else names
  }

  /** How many of the first `i` blocks are tables of this name. */
  function Earlier(blocks: seq<Block>, i: nat, name: string): nat
    requires i <= |blocks|
  {
    if i == 0 then 0
    else Earlier(blocks, i - 1, name) + if blocks[i - 1].table && blocks[i - 1].name == name then 1 else 0
  }

  function BindCount(blocks: seq<Block>): nat {
    if blocks == [] then 0 else |blocks[0].binds| + BindCount(blocks[1..])
  }

  ghost predicate DocumentOk(doc: Document) {
    && BindsOk(doc.top) && (forall i :: 0 <= i < |doc.blocks| ==> BlockOk(doc.blocks[i]))
    && |doc.top| + BindCount(doc.blocks) <= MAX_ENTRIES
    && |Names(doc.blocks, |doc.blocks|)| <= MAX_TABLES
    && 0 < |Render(doc)| <= MAX_DOC
  }

  // --------------------------------------------------------------- meaning

  function EntriesOf(section: string, index: int, binds: seq<Bind>): seq<Entry> {
    seq(|binds|, i requires 0 <= i < |binds| => Entry(section, binds[i].key, binds[i].value, index))
  }

  /** The table index of block `i`. */
  function BlockIndex(blocks: seq<Block>, i: nat): int
    requires i < |blocks|
  {
    if blocks[i].table then Earlier(blocks, i, blocks[i].name) else -1
  }

  /** All entries of the top and of the first `i` blocks. */
  function Entries(doc: Document, i: nat): seq<Entry>
    requires i <= |doc.blocks|
  {
    if i == 0 then EntriesOf("", -1, doc.top)
    else
      var b := doc.blocks[i - 1];
      Entries(doc, i - 1) + EntriesOf(b.name, BlockIndex(doc.blocks, i - 1), b.binds)
  }

  function Tables(blocks: seq<Block>, i: nat): seq<Table>
    requires i <= |blocks|
  {
    var names := Names(blocks, i);
    seq(|names|, k requires 0 <= k < |names| => Table(names[k], Earlier(blocks, i, names[k])))
  }

  // ------------------------------------------------------------- characters

  lemma TrimNothing(s: string)
    requires s != "" ==> !Space(s[0]) && !Space(s[|s| - 1])
    ensures Trim(s) == s
  {
  }

  lemma TrimKey(k: string)
    requires k != "" && !Space(k[0]) && !Space(k[|k| - 1])
    ensures Trim(k + " ") == k
  {
    var s := k + " ";
    assert s[0] == k[0] && s[|s| - 1] == ' ' && s[..|s| - 1] == k;
    assert TrimRight(s) == TrimRight(k);
  }

  lemma TrimOneBefore(v: string)
    requires v != "" && !Space(v[0]) && !Space(v[|v| - 1])
    ensures Trim(" " + v) == v
  {
    assert (" " + v)[0] == ' ' && (" " + v)[1..] == v;
    assert TrimLeft(" " + v) == TrimLeft(v);
  }

  lemma {:induction false} IndexOfIs(s: string, c: char, t: string)
    requires c !in s
    ensures IndexOf(s + [c] + t, c) == |s|
    decreases |s|
  {
    if s != "" {
      assert (s + [c] + t)[1..] == s[1..] + [c] + t;
      IndexOfIs(s[1..], c, t);
    }
  }

  lemma {:induction false} TableEndIs(s: string)
    requires ']' !in s
    ensures TableEnd(s + "]]") == |s|
  {
    if s != "" {
      assert (s + "]]")[1..] == s[1..] + "]]";
      TableEndIs(s[1..]);
    }
  }

  // ----------------------------------------------------------------- values

  lemma {:induction false} StringRead(s: string, e: string, out: string)
    requires PlainText(s) && |out| + |s| < MAX_STR && e != "" && e[0] == '"'
    ensures StringFrom(s + e, out) == Ok(out + s)
    decreases |s|
  {
    if s == "" {
      assert s + e == e && out + s == out;
    } else {
      assert (s + e)[0] == s[0] && (s + e)[1..] == s[1..] + e;
      StringRead(s[1..], e, out + [s[0]]);
      assert out + [s[0]] + s[1..] == out + s;
    }
  }

  lemma {:induction false} SkipRead(s: string, e: string)
    requires PlainText(s) && e != "" && e[0] == '"'
    ensures SkipString(s + e) == e[1..]
    decreases |s|
  {
    if s == "" {
      assert s + e == e;
    } else {
      assert (s + e)[0] == s[0] && (s + e)[1..] == s[1..] + e;
      SkipRead(s[1..], e);
    }
  }

  lemma QuotedRead(s: string, t: string)
    requires PlainText(s)
    ensures var q := Quoted(s) + t; q[0] == '"' && ParseString(q) == Ok(s) && SkipString(q[1..]) == t
  {
    var q, e := Quoted(s) + t, "\"" + t;
    assert q[0] == '"' && q[1..] == s + e && e[1..] == t;
    StringRead(s, e, "");
    SkipRead(s, e);
    assert "" + s == s;
  }

  lemma SeparatorSkipped(q: string)
    requires q != "" && q[0] == '"'
    ensures SkipBlanks(", " + q) == q && SkipBlanks(q) == q
  {
    var p := ", " + q;
    assert p[0] == ',' && p[1..][0] == ' ' && p[1..][1..] == q;
    assert SkipBlanks(p) == SkipBlanks(p[1..]) == SkipBlanks(q);
  }

  /** One item: `p` is the text before it, with or without a separator. */
  lemma ItemRead(p: string, x: string, t: string, done: seq<string>)
    requires PlainText(x) && |done| < MAX_ITEMS && (p == Quoted(x) + t || p == ", " + (Quoted(x) + t))
    ensures ItemsFrom(p, done) == ItemsFrom(t, done + [x])
  {
    QuotedRead(x, t);
    SeparatorSkipped(Quoted(x) + t);
  }

  lemma {:induction false} RestRead(items: seq<string>, done: seq<string>)
    requires |done| + |items| <= MAX_ITEMS && forall k :: 0 <= k < |items| ==> PlainText(items[k])
    ensures ItemsFrom(Rest(items), done) == Ok(done + items)
    decreases |items|
  {
    if items == [] {
      assert "]"[1..] == "" && done + items == done;
    } else {
      ItemRead(Rest(items), items[0], Rest(items[1..]), done);
      RestRead(items[1..], done + [items[0]]);
      assert done + [items[0]] + items[1..] == done + items;
    }
  }

  lemma ItemsRead(items: seq<string>)
    requires |items| <= MAX_ITEMS && forall k :: 0 <= k < |items| ==> PlainText(items[k])
    ensures ItemsFrom(ShowItems(items), []) == Ok(items)
  {
    if items == [] {
      assert "]"[1..] == "";
    } else {
      ItemRead(ShowItems(items), items[0], Rest(items[1..]), []);
      RestRead(items[1..], [items[0]]);
      assert [items[0]] + items[1..] == items && [] + [items[0]] == [items[0]];
    }
  }

  lemma {:induction false} DigitsAll(s: string)
    requires forall k :: 0 <= k < |s| ==> Digit(s[k])
    ensures DigitCount(s) == |s|
  {
    if s != "" { DigitsAll(s[1..]); }
  }

  lemma {:induction false} DecimalRead(n: nat)
    ensures Digits(Decimal(n)) == n
  {
    var s := Decimal(n);
    if n < 10 {
      assert s[..0] == "";
    } else {
      DecimalRead(n / 10);
      assert s[..|s| - 1] == Decimal(n / 10);
    }
  }

  lemma NumberRead(n: nat, minus: bool)
    requires if minus then 0 - n >= INT_MIN else n <= INT_MAX
    ensures ParseNumber(Decimal(n), minus) == Ok(Int(if minus then 0 - n else n))
  {
    var s := Decimal(n);
    DigitsAll(s);
    DecimalRead(n);
    assert s[..|s|] == s;
  }

  lemma IntRead(n: int)
    requires INT_MIN <= n <= INT_MAX
    ensures ParseInt(Show(Int(n))) == Ok(Int(n))
  {
    var s := Show(Int(n));
    if n < 0 {
      NumberRead(-n, true);
      assert s[0] == '-' && s[1..] == Decimal(-n);
    } else {
      NumberRead(n, false);
      assert Digit(s[0]);
    }
  }

  lemma ValueRead(v: Value)
    requires ValueOk(v)
    ensures ParseValue(Show(v)) == Ok(v)
  {
    match v
    case Str(s) =>
      QuotedRead(s, "");
      assert Quoted(s) + "" == Quoted(s);
    case Int(n) =>
      IntRead(n);
      assert Show(v)[0] == '-' || Digit(Show(v)[0]);
    case Bool(b) =>
    case Arr(items) =>
      var s := Show(v);
      assert s[0] == '[' && s[1..] == ShowItems(items);
      ItemsRead(items);
  }

  // --------------------------------------------------------------- comments

  lemma {:induction false} InQuotes(s: string, t: string)
    requires '"' !in s
    ensures BeforeComment(s + ("\"" + t), true) == s + ("\"" + BeforeComment(t, false))
    decreases |s|
  {
    var text := s + ("\"" + t);
    if s == "" {
      assert text[0] == '"' && text[1..] == t;
    } else {
      assert text[0] == s[0] && text[1..] == s[1..] + ("\"" + t);
      InQuotes(s[1..], t);
      assert [s[0]] + (s[1..] + ("\"" + BeforeComment(t, false))) == s + ("\"" + BeforeComment(t, false));
    }
  }

  lemma PastQuoted(s: string, t: string)
    requires '"' !in s
    ensures BeforeComment(Quoted(s) + t, false) == Quoted(s) + BeforeComment(t, false)
  {
    var text := Quoted(s) + t;
    assert text[0] == '"' && text[1..] == s + ("\"" + t);
    InQuotes(s, t);
    assert "\"" + (s + ("\"" + BeforeComment(t, false))) == Quoted(s) + BeforeComment(t, false);
  }

  lemma {:induction false} NoMarks(s: string)
    requires forall k :: 0 <= k < |s| ==> s[k] != '"' && s[k] != '#'
    ensures BeforeComment(s, false) == s
  {
    if s != "" { NoMarks(s[1..]); }
  }

  lemma {:induction false} RestNoComment(items: seq<string>)
    requires forall k :: 0 <= k < |items| ==> PlainText(items[k])
    ensures BeforeComment(Rest(items), false) == Rest(items)
    decreases |items|
  {
    if items == [] {
      NoMarks("]");
    } else {
      var q := Quoted(items[0]) + Rest(items[1..]);
      RestNoComment(items[1..]);
      PastQuoted(items[0], Rest(items[1..]));
      SeparatorKept(q);
    }
  }

  lemma SeparatorKept(q: string)
    ensures BeforeComment(", " + q, false) == ", " + BeforeComment(q, false)
  {
    var p := ", " + q;
    assert p[0] == ',' && p[1..][0] == ' ' && p[1..][1..] == q;
    assert BeforeComment(p[1..], false) == " " + BeforeComment(q, false);
    assert "," + (" " + BeforeComment(q, false)) == ", " + BeforeComment(q, false);
  }

  lemma ValueNoComment(v: Value)
    requires ValueOk(v)
    ensures BeforeComment(Show(v), false) == Show(v)
  {
    var s := Show(v);
    match v
    case Str(x) =>
      PastQuoted(x, "");
      assert Quoted(x) + "" == s;
    case Int(n) =>
      assert forall k :: 0 <= k < |s| ==> s[k] == '-' || Digit(s[k]);
      NoMarks(s);
    case Bool(b) => NoMarks(s);
    case Arr(items) =>
      assert s[0] == '[' && s[1..] == ShowItems(items);
      if items == [] {
        NoMarks(s);
      } else {
        PastQuoted(items[0], Rest(items[1..]));
        RestNoComment(items[1..]);
      }
  }

  // ------------------------------------------------------------------ lines

  lemma {:induction false} RestEnds(items: seq<string>)
    requires forall k :: 0 <= k < |items| ==> PlainText(items[k])
    ensures Rest(items) != "" && Rest(items)[|Rest(items)| - 1] == ']' && '\n' !in Rest(items)
    decreases |items|
  {
    if items != [] { RestEnds(items[1..]); }
  }

  /** A shown value is one word of a line. */
  lemma ShowEnds(v: Value)
    requires ValueOk(v)
    ensures var s := Show(v); s != "" && !Space(s[0]) && !Space(s[|s| - 1]) && '\n' !in s
  {
    var s := Show(v);
    match v
    case Str(x) =>
    case Int(n) => assert forall k :: 0 <= k < |s| ==> s[k] == '-' || Digit(s[k]);
    case Bool(b) =>
    case Arr(items) => if items != [] { RestEnds(items[1..]); }
  }

  lemma BindParts(b: Bind)
    requires BindOk(b)
    ensures var line, v := BindLine(b), Show(b.value);
            && line != "" && line[0] == b.key[0] && line[|line| - 1] == v[|v| - 1]
            && IndexOf(line, '=') == |b.key| + 1
            && line[..|b.key| + 1] == b.key + " " && line[|b.key| + 2..] == " " + v
  {
    var line, v := BindLine(b), Show(b.value);
    ShowEnds(b.value);
    IndexOfIs(b.key + " ", '=', " " + v);
    assert line == (b.key + " ") + ['='] + (" " + v);
  }

  lemma BindRead(d: Doc, b: Bind)
    requires BindOk(b) && |d.entries| < MAX_ENTRIES
    ensures ParseLine(d, BindLine(b)) == Ok(d.(entries := d.entries + [Entry(d.section, b.key, b.value, d.index)]))
  {
    var line, v := BindLine(b), Show(b.value);
    BindParts(b);
    ShowEnds(b.value);
    TrimNothing(line);
    TrimKey(b.key);
    TrimOneBefore(v);
    ValueNoComment(b.value);
    TrimNothing(v);
    ValueRead(b.value);
  }

  lemma SectionRead(d: Doc, b: Block)
    requires BlockOk(b) && !b.table
    ensures ParseLine(d, HeaderLine(b)) == Ok(d.(section := b.name, index := -1))
  {
    var line := HeaderLine(b);
    assert line[0] == '[' && line[|line| - 1] == ']';
    TrimNothing(line);
    assert line[1] != '[';
    assert line[1..] == b.name + [']'] + "";
    IndexOfIs(b.name, ']', "");
    assert line[1..][..|b.name|] == b.name;
  }

  lemma TableRead(d: Doc, b: Block)
    requires BlockOk(b) && b.table
    ensures ParseLine(d, HeaderLine(b)) == TableHeader(d, b.name)
  {
    var line := HeaderLine(b);
    assert line[0] == '[' && line[1] == '[' && line[|line| - 1] == ']';
    TrimNothing(line);
    assert line[2..] == b.name + "]]";
    TableEndIs(b.name);
    assert line[2..][..|b.name|] == b.name;
  }

  /** Loading goes on behind a line that was read. */
  lemma LineLoaded(d: Doc, line: string, rest: string, d': Doc)
    requires line != "" && '\n' !in line && |line| < MAX_LINE && line[|line| - 1] != '\r'
    requires ParseLine(d, line) == Ok(d')
    ensures LoadFrom(d, line + "\n" + rest) == LoadFrom(d', rest)
  {
    LineOfText(line, rest);
  }

  lemma LineOfText(line: string, rest: string)
    requires '\n' !in line
    ensures var text := line + "\n" + rest;
            text != "" && IndexOf(text, '\n') == |line| && text[..|line|] == line && text[|line| + 1..] == rest
  {
    var text := line + "\n" + rest;
    assert text == line + ['\n'] + rest;
    IndexOfIs(line, '\n', rest);
    assert text[..|line|] == line && text[|line| + 1..] == rest;
  }

  function WithBinds(d: Doc, binds: seq<Bind>): Doc {
    d.(entries := d.entries + EntriesOf(d.section, d.index, binds))
  }

  lemma WithBindsStep(d: Doc, binds: seq<Bind>)
    requires binds != []
    ensures WithBinds(WithBinds(d, binds[..1]), binds[1..]) == WithBinds(d, binds)
    ensures WithBinds(d, binds[..1]).entries == d.entries + [Entry(d.section, binds[0].key, binds[0].value, d.index)]
  {
    var d' := WithBinds(d, binds[..1]);
    assert EntriesOf(d.section, d.index, binds)
           == EntriesOf(d.section, d.index, binds[..1]) + EntriesOf(d.section, d.index, binds[1..]);
    assert d'.entries + EntriesOf(d.section, d.index, binds[1..]) == d.entries + EntriesOf(d.section, d.index, binds);
  }

  lemma WithNoBinds(d: Doc)
    ensures WithBinds(d, []) == d
  {
    assert d.entries + EntriesOf(d.section, d.index, []) == d.entries;
  }

  lemma BindLoaded(d: Doc, binds: seq<Bind>, rest: string)
    requires BindsOk(binds) && |d.entries| + |binds| <= MAX_ENTRIES && binds != []
    ensures LoadFrom(d, BindLine(binds[0]) + "\n" + rest) == LoadFrom(WithBinds(d, binds[..1]), rest)
  {
    BindRead(d, binds[0]);
    BindParts(binds[0]);
    ShowEnds(binds[0].value);
    WithBindsStep(d, binds);
    LineLoaded(d, BindLine(binds[0]), rest, WithBinds(d, binds[..1]));
  }

  lemma Regroup(a: string, b: string, c: string)
    ensures a + b + c == a + (b + c)
  {
  }

  lemma {:induction false} BindsLoaded(d: Doc, binds: seq<Bind>, rest: string)
    requires BindsOk(binds) && |d.entries| + |binds| <= MAX_ENTRIES
    ensures LoadFrom(d, BindLines(binds) + rest) == LoadFrom(WithBinds(d, binds), rest)
    decreases |binds|
  {
    if binds == [] {
      assert BindLines(binds) + rest == rest;
      WithNoBinds(d);
    } else {
      var more := binds[1..];
      Regroup(BindLine(binds[0]) + "\n", BindLines(more), rest);
      BindLoaded(d, binds, BindLines(more) + rest);
      WithBindsStep(d, binds);
      BindsLoaded(WithBinds(d, binds[..1]), more, rest);
    }
  }

  // --------------------------------------------------------------- documents

  /** The document when the top and the first `i` blocks have been read. */
  ghost predicate ReadTo(doc: Document, i: nat, d: Doc)
    requires i <= |doc.blocks|
  {
    d.entries == Entries(doc, i) && d.tables == Tables(doc.blocks, i)
  }

  lemma {:induction false} NamesOk(blocks: seq<Block>, i: nat, name: string)
    requires i <= |blocks|
    ensures name in Names(blocks, i) <==> Earlier(blocks, i, name) > 0
    ensures forall a, b :: 0 <= a < b < |Names(blocks, i)| ==> Names(blocks, i)[a] != Names(blocks, i)[b]
    decreases i
  {
    if i > 0 { NamesOk(blocks, i - 1, name); }
  }

  lemma {:induction false} NamesGrow(blocks: seq<Block>, i: nat, j: nat)
    requires i <= j <= |blocks|
    ensures |Names(blocks, i)| <= |Names(blocks, j)|
    decreases j
  {
    if i < j { NamesGrow(blocks, i, j - 1); }
  }

  lemma FindTableIs(tables: seq<Table>, name: string, k: nat)
    requires k < |tables| && tables[k].name == name
    requires forall a :: 0 <= a < |tables| && a != k ==> tables[a].name != name
    ensures FindTable(tables, name) == k
  {
  }

  lemma TableMissing(tables: seq<Table>, name: string)
    requires forall a :: 0 <= a < |tables| ==> tables[a].name != name
    ensures FindTable(tables, name) == |tables|
  {
  }

  /** A table header counts the table. */
  lemma TableCounted(blocks: seq<Block>, i: nat, d: Doc)
    requires i < |blocks| && BlockOk(blocks[i]) && blocks[i].table && d.tables == Tables(blocks, i)
    requires |Names(blocks, i + 1)| <= MAX_TABLES
    ensures TableHeader(d, blocks[i].name)
            == Ok(d.(section := blocks[i].name, index := BlockIndex(blocks, i), tables := Tables(blocks, i + 1)))
  {
    var name, names := blocks[i].name, Names(blocks, i);
    NamesOk(blocks, i, name);
    if name in names {
      var k :| 0 <= k < |names| && names[k] == name;
      FindTableIs(d.tables, name, k);
      CountedAgain(blocks, i, k);
    } else {
      TableMissing(d.tables, name);
      CountedFirst(blocks, i);
    }
  }

  lemma CountedAgain(blocks: seq<Block>, i: nat, k: nat)
    requires i < |blocks| && blocks[i].table && k < |Names(blocks, i)| && Names(blocks, i)[k] == blocks[i].name
    ensures var t := Tables(blocks, i); Tables(blocks, i + 1) == t[k := t[k].(count := t[k].count + 1)]
  {
    NamesOk(blocks, i, blocks[i].name);
    assert Names(blocks, i + 1) == Names(blocks, i);
  }

  lemma CountedFirst(blocks: seq<Block>, i: nat)
    requires i < |blocks| && blocks[i].table && blocks[i].name !in Names(blocks, i)
    ensures Tables(blocks, i + 1) == Tables(blocks, i) + [Table(blocks[i].name, 1)]
    ensures Earlier(blocks, i, blocks[i].name) == 0
  {
    NamesOk(blocks, i, blocks[i].name);
    assert Names(blocks, i + 1) == Names(blocks, i) + [blocks[i].name];
  }

  lemma SectionNotCounted(blocks: seq<Block>, i: nat)
    requires i < |blocks| && !blocks[i].table
    ensures Tables(blocks, i + 1) == Tables(blocks, i)
  {
    assert Names(blocks, i + 1) == Names(blocks, i);
  }

  lemma HeaderLoaded(doc: Document, i: nat, d: Doc, rest: string)
    requires i < |doc.blocks| && BlockOk(doc.blocks[i]) && ReadTo(doc, i, d)
    requires |Names(doc.blocks, i + 1)| <= MAX_TABLES
    ensures var b := doc.blocks[i];
            LoadFrom(d, HeaderLine(b) + "\n" + rest)
            == LoadFrom(d.(section := b.name, index := BlockIndex(doc.blocks, i), tables := Tables(doc.blocks, i + 1)),
                        rest)
  {
    var b := doc.blocks[i];
    var d' := d.(section := b.name, index := BlockIndex(doc.blocks, i), tables := Tables(doc.blocks, i + 1));
    if b.table {
      TableRead(d, b);
      TableCounted(doc.blocks, i, d);
    } else {
      SectionRead(d, b);
      SectionNotCounted(doc.blocks, i);
    }
    HeaderPlain(b);
    LineLoaded(d, HeaderLine(b), rest, d');
  }

  lemma HeaderPlain(b: Block)
    requires BlockOk(b)
    ensures var l := HeaderLine(b); l != "" && '\n' !in l && |l| < MAX_LINE && l[|l| - 1] != '\r'
  {
  }

  lemma {:induction false} EntryCount(doc: Document, i: nat)
    requires i <= |doc.blocks|
    ensures |Entries(doc, i)| + BindCount(doc.blocks[i..]) == |doc.top| + BindCount(doc.blocks)
    decreases i
  {
    if i == 0 {
      assert doc.blocks[0..] == doc.blocks;
    } else {
      EntryCount(doc, i - 1);
      assert doc.blocks[i - 1..][1..] == doc.blocks[i..];
    }
  }

  lemma {:induction false} BlocksLoaded(doc: Document, i: nat, d: Doc)
    requires DocumentOk(doc) && i <= |doc.blocks| && ReadTo(doc, i, d)
    ensures var r := LoadFrom(d, BlockLines(doc.blocks[i..])); r.Ok? && ReadTo(doc, |doc.blocks|, r.value)
    decreases |doc.blocks| - i
  {
    if i < |doc.blocks| {
      var b, rest := doc.blocks[i], BlockLines(doc.blocks[i + 1..]);
      assert doc.blocks[i..][0] == b && doc.blocks[i..][1..] == doc.blocks[i + 1..];
      NamesGrow(doc.blocks, i + 1, |doc.blocks|);
      EntryCount(doc, i);
      Regroup(HeaderLine(b) + "\n", BindLines(b.binds), rest);
      HeaderLoaded(doc, i, d, BindLines(b.binds) + rest);
      var d' := d.(section := b.name, index := BlockIndex(doc.blocks, i), tables := Tables(doc.blocks, i + 1));
      BindsLoaded(d', b.binds, rest);
      BlocksLoaded(doc, i + 1, WithBinds(d', b.binds));
    }
  }

  /** A well-formed document is read back with exactly its bindings, in order and in their sections. */
  lemma LoadRendered(doc: Document)
    requires DocumentOk(doc)
    ensures var r := Load(Render(doc)); r.Ok? && ReadTo(doc, |doc.blocks|, r.value)
  {
    var rest := BlockLines(doc.blocks);
    EntryCount(doc, 0);
    BindsLoaded(NO_DOC, doc.top, rest);
    var d := WithBinds(NO_DOC, doc.top);
    assert d.entries == Entries(doc, 0) && d.tables == Tables(doc.blocks, 0);
    assert doc.blocks[0..] == doc.blocks;
    BlocksLoaded(doc, 0, d);
  }
}
