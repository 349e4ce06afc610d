/** Looking up the bindings of a document that was read. */
module TomlLookup {
  import opened Toml
  import opened TomlDocument

  /** The value of the first binding of a key. */
  function FirstOf(binds: seq<Bind>, key: string): Result<Value> {
    if binds == [] then Err(NotFound)
    else if binds[0].key == key then Ok(binds[0].value) else FirstOf(binds[1..], key)
  }

  /** The bindings outside [[tables]] that belong to a section, in order; "" is the top. */
  function PlainBinds(doc: Document, i: nat, section: string): seq<Bind>
    requires i <= |doc.blocks|
  {
    if i == 0 then (if section == "" then doc.top else [])
    else
      var b := doc.blocks[i - 1];
      PlainBinds(doc, i - 1, section) + if !b.table && b.name == section then b.binds else []
  }

  lemma {:induction false} LookupOn(a: seq<Entry>, b: seq<Entry>, section: string, index: int, key: string)
    ensures Lookup(a + b, section, index, key)
            == if Lookup(a, section, index, key).Ok? then Lookup(a, section, index, key)
               else Lookup(b, section, index, key)
    decreases |a|
  {
    if a == [] {
      assert a + b == b;
    } else {
      assert (a + b)[1..] == a[1..] + b;
      LookupOn(a[1..], b, section, index, key);
    }
  }

  lemma {:induction false} FirstOn(a: seq<Bind>, b: seq<Bind>, key: string)
    ensures FirstOf(a + b, key) == if FirstOf(a, key).Ok? then FirstOf(a, key) else FirstOf(b, key)
    decreases |a|
  {
    if a == [] {
      assert a + b == b;
    } else {
      assert (a + b)[1..] == a[1..] + b;
      FirstOn(a[1..], b, key);
    }
  }

  lemma {:induction false} LookupBlock(name: string, at: int, binds: seq<Bind>, section: string, index: int,
                                       key: string)
    ensures Lookup(EntriesOf(name, at, binds), section, index, key)
            == if name == section && at == index then FirstOf(binds, key) else Err(NotFound)
    decreases |binds|
  {
    if binds != [] {
      LookupBlock(name, at, binds[1..], section, index, key);
      assert EntriesOf(name, at, binds)[1..] == EntriesOf(name, at, binds[1..]);
    }
  }

  /** A plain lookup finds the first binding of the key in its sections, never one of a [[table]]. */
  lemma {:induction false} PlainLookup(doc: Document, i: nat, section: string, key: string)
    requires i <= |doc.blocks|
    ensures Lookup(Entries(doc, i), section, -1, key) == FirstOf(PlainBinds(doc, i, section), key)
    decreases i
  {
    if i == 0 {
      LookupBlock("", -1, doc.top, section, -1, key);
    } else {
      var b, at := doc.blocks[i - 1], BlockIndex(doc.blocks, i - 1);
      PlainLookup(doc, i - 1, section, key);
      LookupBlock(b.name, at, b.binds, section, -1, key);
      LookupOn(Entries(doc, i - 1), EntriesOf(b.name, at, b.binds), section, -1, key);
      FirstOn(PlainBinds(doc, i - 1, section), if !b.table && b.name == section then b.binds else [], key);
    }
  }

  /** Nothing belongs to a table that has not been opened yet. */
  lemma {:induction false} NotYet(doc: Document, i: nat, name: string, k: nat, key: string)
    requires i <= |doc.blocks| && Earlier(doc.blocks, i, name) <= k
    ensures Lookup(Entries(doc, i), name, k, key) == Err(NotFound)
    decreases i
  {
    if i == 0 {
      LookupBlock("", -1, doc.top, name, k, key);
    } else {
      var b, at := doc.blocks[i - 1], BlockIndex(doc.blocks, i - 1);
      NotYet(doc, i - 1, name, k, key);
      LookupBlock(b.name, at, b.binds, name, k, key);
      LookupOn(Entries(doc, i - 1), EntriesOf(b.name, at, b.binds), name, k, key);
    }
  }

  lemma {:induction false} EarlierGrows(blocks: seq<Block>, i: nat, j: nat, name: string)
    requires i <= j <= |blocks|
    ensures Earlier(blocks, i, name) <= Earlier(blocks, j, name)
    decreases j
  {
    if i < j { EarlierGrows(blocks, i, j - 1, name); }
  }

  /** A table lookup finds the binding in the block that opened the table. */
  lemma {:induction false} TableLookup(doc: Document, i: nat, j: nat, key: string)
    requires j < i <= |doc.blocks| && doc.blocks[j].table
    ensures Lookup(Entries(doc, i), doc.blocks[j].name, Earlier(doc.blocks, j, doc.blocks[j].name), key)
            == FirstOf(doc.blocks[j].binds, key)
    decreases i
  {
    var name := doc.blocks[j].name;
    var k := Earlier(doc.blocks, j, name);
    var b, at := doc.blocks[i - 1], BlockIndex(doc.blocks, i - 1);
    LookupBlock(b.name, at, b.binds, name, k, key);
    LookupOn(Entries(doc, i - 1), EntriesOf(b.name, at, b.binds), name, k, key);
    if j == i - 1 {
      NotYet(doc, j, name, k, key);
    } else {
      TableLookup(doc, i - 1, j, key);
      EarlierGrows(doc.blocks, j + 1, i - 1, name);
    }
    NotFoundOnly(b.binds, key);
    NotFoundOnly(doc.blocks[j].binds, key);
  }

  lemma {:induction false} NotFoundOnly(binds: seq<Bind>, key: string)
    ensures FirstOf(binds, key).Err? ==> FirstOf(binds, key) == Err(NotFound)
  {
    if binds != [] { NotFoundOnly(binds[1..], key); }
  }

  /** How many [[tables]] of a name the reader counted. */
  function TableCount(tables: seq<Table>, name: string): nat {
    var i := FindTable(tables, name);
    if i < |tables| then tables[i].count else 0
  }

  lemma TablesCounted(blocks: seq<Block>, i: nat, name: string)
    requires i <= |blocks|
    ensures TableCount(Tables(blocks, i), name) == Earlier(blocks, i, name)
  {
    NamesOk(blocks, i, name);
    var tables, names := Tables(blocks, i), Names(blocks, i);
    if name in names {
      var k :| 0 <= k < |names| && names[k] == name;
      FindTableIs(tables, name, k);
    } else {
      TableMissing(tables, name);
    }
  }

  /** The bindings that enumerating a section visits. */
  function Enumerated(entries: seq<Entry>, section: string): seq<Bind> {
    if entries == [] then []
    else
      var e := entries[0];
      (if e.index < 0 && e.section == section then [Bind(e.key, e.value)] else []) + Enumerated(entries[1..], section)
  }

  lemma {:induction false} EnumeratedOn(a: seq<Entry>, b: seq<Entry>, section: string)
    ensures Enumerated(a + b, section) == Enumerated(a, section) + Enumerated(b, section)
    decreases |a|
  {
    if a == [] {
      assert a + b == b;
    } else {
      assert (a + b)[1..] == a[1..] + b;
      EnumeratedOn(a[1..], b, section);
    }
  }

  lemma {:induction false} EnumeratedBlock(name: string, at: int, binds: seq<Bind>, section: string)
    ensures Enumerated(EntriesOf(name, at, binds), section) == if name == section && at < 0 then binds else []
    decreases |binds|
  {
    if binds != [] {
      EnumeratedBlock(name, at, binds[1..], section);
      assert EntriesOf(name, at, binds)[1..] == EntriesOf(name, at, binds[1..]);
      assert [binds[0]] + binds[1..] == binds;
    }
  }

  /** Enumerating visits exactly the bindings of the plain sections, in order. */
  lemma {:induction false} EnumeratedIsPlain(doc: Document, i: nat, section: string)
    requires i <= |doc.blocks|
    ensures Enumerated(Entries(doc, i), section) == PlainBinds(doc, i, section)
    decreases i
  {
    if i == 0 {
      EnumeratedBlock("", -1, doc.top, section);
    } else {
      var b, at := doc.blocks[i - 1], BlockIndex(doc.blocks, i - 1);
      EnumeratedIsPlain(doc, i - 1, section);
      EnumeratedBlock(b.name, at, b.binds, section);
      EnumeratedOn(Entries(doc, i - 1), EntriesOf(b.name, at, b.binds), section);
    }
  }

  /** The lookups on what is read from a well-formed document. */
  lemma ReadLookups(doc: Document, section: string, key: string)
    requires DocumentOk(doc)
    ensures Load(Render(doc)).Ok?
    ensures var d := Load(Render(doc)).value;
            && Lookup(d.entries, section, -1, key) == FirstOf(PlainBinds(doc, |doc.blocks|, section), key)
            && TableCount(d.tables, section) == Earlier(doc.blocks, |doc.blocks|, section)
            && Enumerated(d.entries, section) == PlainBinds(doc, |doc.blocks|, section)
            && (forall j: nat :: j < |doc.blocks| && doc.blocks[j].table && doc.blocks[j].name == section ==>
                  Lookup(d.entries, section, Earlier(doc.blocks, j, section), key) == FirstOf(doc.blocks[j].binds, key))
            && (forall k: nat :: k >= Earlier(doc.blocks, |doc.blocks|, section) ==>
                  Lookup(d.entries, section, k, key) == Err(NotFound))
  {
    var n := |doc.blocks|;
    LoadRendered(doc);
    PlainLookup(doc, n, section, key);
    TablesCounted(doc.blocks, n, section);
    EnumeratedIsPlain(doc, n, section);
    forall j: nat | j < n && doc.blocks[j].table && doc.blocks[j].name == section
      ensures Lookup(Entries(doc, n), section, Earlier(doc.blocks, j, section), key)
              == FirstOf(doc.blocks[j].binds, key)
    {
      TableLookup(doc, n, j, key);
    }
    forall k: nat | k >= Earlier(doc.blocks, n, section)
      ensures Lookup(Entries(doc, n), section, k, key) == Err(NotFound)
    {
      NotYet(doc, n, section, k, key);
    }
  }
}
