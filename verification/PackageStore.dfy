/** The installed packages of lpkg: saving, loading, installing and removing. */
module PackageStore {
  import opened PackageDb

  const MAX_PACKAGES := 128

  // ------------------------------------------------------ saving and loading

  lemma {:induction false} JoinOn(a: seq<string>, b: seq<string>)
    ensures Join(a + b) == Join(a) + Join(b)
    decreases |a|
  {
    if a == [] {
      assert a + b == b;
    } else {
      JoinOn(a[1..], b);
      assert (a + b)[1..] == a[1..] + b;
    }
  }

  lemma JoinLine(line: string)
    ensures Join([line]) == line
  {
    assert [line][1..] == [];
  }

  /** Writes the table as text, line by line. */
  method DbSave(ps: seq<Package>) returns (text: string)
    ensures text == Save(ps)
  {
    text := HEADER + "\n";
    JoinLine(HEADER);
    JoinLine("\n");
    JoinOn([HEADER], ["\n"]);
    JoinOn([HEADER] + ["\n"], AllLines(ps, 0));
    for i := 0 to |ps|
      invariant text + Join(AllLines(ps, i)) == Save(ps)
    {
      var block := SavePackage(ps[i]);
      JoinOn(PackageLines(ps[i]), AllLines(ps, i + 1));
      text := text + block;
    }
  }

  method SavePackage(p: Package) returns (text: string)
    ensures text == Join(PackageLines(p))
  {
    var head := SaveHead(p);
    var files := SaveFiles(p.files);
    JoinOn(HeadLines(p), FileLines(p.files, 0));
    JoinOn(HeadLines(p) + FileLines(p.files, 0), ["]\n"]);
    JoinOn(HeadLines(p) + FileLines(p.files, 0) + ["]\n"], ["\n"]);
    JoinLine("]\n");
    JoinLine("\n");
    text := head + files + "]\n" + "\n";
  }

  method SaveHead(p: Package) returns (text: string)
    ensures text == Join(HeadLines(p))
  {
    var l0, l1, l2, l3, l4 := PACKAGE + "\n", FieldLine(NAME, p.name), FieldLine(VERSION, p.version),
                              FieldLine(DESCRIPTION, p.description), FILES + "\n";
    text := l0 + l1 + l2 + l3 + l4;
    JoinFive(l0, l1, l2, l3, l4);
  }

  lemma JoinFive(l0: string, l1: string, l2: string, l3: string, l4: string)
    ensures Join([l0] + [l1] + [l2] + [l3] + [l4]) == l0 + l1 + l2 + l3 + l4
  {
    JoinOn([l0] + [l1] + [l2] + [l3], [l4]);
    JoinOn([l0] + [l1] + [l2], [l3]);
    JoinOn([l0] + [l1], [l2]);
    JoinOn([l0], [l1]);
    JoinLine(l0);
    JoinLine(l1);
    JoinLine(l2);
    JoinLine(l3);
    JoinLine(l4);
  }

  method SaveFiles(files: seq<string>) returns (text: string)
    ensures text == Join(FileLines(files, 0))
  {
    text := "";
    for j := 0 to |files|
      invariant text + Join(FileLines(files, j)) == Join(FileLines(files, 0))
    {
      text := text + FileLine(files[j], j + 1 == |files|);
    }
  }

  /** Skips blanks at the start of a line and drops the line end. */
  method StripLine(line: string) returns (s: string)
    ensures s == TrimRight(TrimLeft(line))
  {
    s := line;
    while s != "" && (s[0] == ' ' || s[0] == '\t')
      invariant TrimLeft(s) == TrimLeft(line)
      decreases |s|
    {
      s := s[1..];
    }
    while s != "" && (s[|s| - 1] == '\n' || s[|s| - 1] == '\r')
      invariant TrimRight(s) == TrimRight(TrimLeft(line))
      decreases |s|
    {
      s := s[..|s| - 1];
    }
  }

  /** Reads the text line by line into a table of at most `max` packages. */
  method DbLoad(text: string, max: nat) returns (ps: seq<Package>)
    ensures ps == Load(text, max)
  {
    ps := [];
    var rest := text;
    while rest != ""
      invariant ReadLines(ps, rest, max) == Load(text, max)
      decreases |rest|
    {
      var n := LineLength(rest, LINE_SIZE - 1);
      var s := StripLine(rest[..n]);
      if s == PACKAGE {
        if |ps| >= max { break; }
        ps := ps + [NO_PACKAGE];
      } else if ps != [] {
        ps := ps[|ps| - 1 := ReadField(ps[|ps| - 1], s)];
      }
      rest := rest[n..];
    }
  }

  // ------------------------------------------------- installing and removing

  /** The place of the package with this name, or |ps|. */
  function Find(ps: seq<Package>, name: string): (i: nat)
    ensures i <= |ps| && (i < |ps| ==> ps[i].name == name)
    ensures forall k :: 0 <= k < i ==> ps[k].name != name
  {
    if ps == [] || ps[0].name == name then 0 else 1 + Find(ps[1..], name)
  }

  /** A package replaces the one of the same name, or comes last; a full table stays as it is. */
  function Install(ps: seq<Package>, p: Package): seq<Package> {
    var i := Find(ps, p.name);
    if i < |ps| then ps[i := p] else if |ps| >= MAX_PACKAGES then ps else ps + [p]
  }

  function Remove(ps: seq<Package>, name: string): seq<Package> {
    var i := Find(ps, name);
    if i == |ps| then ps else ps[..i] + ps[i + 1..]
  }

  datatype Op = Installed(p: Package) | Removed(name: string)

  function Do(ps: seq<Package>, op: Op): seq<Package> {
    match op
    case Installed(p) => Install(ps, p)
    case Removed(name) => Remove(ps, name)
  }

  function Target(op: Op): string { if op.Installed? then op.p.name else op.name }

  function DoAll(ps: seq<Package>, ops: seq<Op>): seq<Package>
    decreases |ops|
  {
    if ops == [] then ps else DoAll(Do(ps, ops[0]), ops[1..])
  }

  ghost predicate NamesUnique(ps: seq<Package>) {
    forall i, j :: 0 <= i < j < |ps| ==> ps[i].name != ps[j].name
  }

  /** The packages with other names, in order. */
  function Others(ps: seq<Package>, name: string): seq<Package> {
    if ps == [] then []
    else if ps[0].name == name then Others(ps[1..], name) else [ps[0]] + Others(ps[1..], name)
  }

  lemma {:induction false} OthersOn(a: seq<Package>, b: seq<Package>, name: string)
    ensures Others(a + b, name) == Others(a, name) + Others(b, name)
    decreases |a|
  {
    if a == [] {
      assert a + b == b;
    } else {
      assert (a + b)[1..] == a[1..] + b;
      OthersOn(a[1..], b, name);
    }
  }

  lemma OthersOne(p: Package, name: string)
    ensures Others([p], name) == if p.name == name then [] else [p]
  {
    assert [p][1..] == [];
  }

  /** Neither operation touches a package with another name. */
  lemma OthersKept(ps: seq<Package>, op: Op)
    ensures Others(Do(ps, op), Target(op)) == Others(ps, Target(op))
  {
    var name := Target(op);
    var i := Find(ps, name);
    if i < |ps| {
      var a, b := ps[..i], ps[i + 1..];
      OthersAround(a, ps[i], b, name);
      assert a + [ps[i]] + b == ps;
      if op.Installed? {
        OthersAround(a, op.p, b, name);
        assert a + [op.p] + b == ps[i := op.p];
      } else {
        OthersOn(a, b, name);
      }
    } else if op.Installed? && |ps| < MAX_PACKAGES {
      OthersOn(ps, [op.p], name);
      OthersOne(op.p, name);
    }
  }

  lemma OthersAround(a: seq<Package>, p: Package, b: seq<Package>, name: string)
    requires p.name == name
    ensures Others(a + [p] + b, name) == Others(a, name) + Others(b, name)
  {
    OthersOn(a + [p], b, name);
    OthersOn(a, [p], name);
    OthersOne(p, name);
  }

  lemma NamesStayUnique(ps: seq<Package>, op: Op)
    requires NamesUnique(ps) && |ps| <= MAX_PACKAGES
    ensures NamesUnique(Do(ps, op)) && |Do(ps, op)| <= MAX_PACKAGES
  {
  }

  /** What is installed is there, unless the table is full; what is removed is not. */
  lemma DoneAsAsked(ps: seq<Package>, op: Op)
    requires NamesUnique(ps)
    ensures op.Removed? ==> Find(Do(ps, op), op.name) == |Do(ps, op)|
    ensures op.Installed? ==> (op.p in Do(ps, op) || (|ps| >= MAX_PACKAGES && Find(ps, op.p.name) == |ps|))
  {
    if op.Installed? {
      var i := Find(ps, op.p.name);
      assert i < |ps| ==> ps[i := op.p][i] == op.p;
    }
  }

  ghost predicate OpGood(op: Op) { op.Installed? ==> Clean(op.p) && Fits(op.p) }

  /** Any sequence of installs and removes keeps names unique and the table such that saving and loading
      gives it back. */
  lemma {:induction false} StoreKept(ps: seq<Package>, ops: seq<Op>)
    requires NamesUnique(ps) && AllGood(ps, MAX_PACKAGES) && forall k :: 0 <= k < |ops| ==> OpGood(ops[k])
    ensures NamesUnique(DoAll(ps, ops)) && AllGood(DoAll(ps, ops), MAX_PACKAGES)
    ensures Load(Save(DoAll(ps, ops)), MAX_PACKAGES) == DoAll(ps, ops)
    decreases |ops|
  {
    if ops == [] {
      LoadSave(ps, MAX_PACKAGES);
    } else {
      NamesStayUnique(ps, ops[0]);
      assert OpGood(ops[0]);
      StoreKept(Do(ps, ops[0]), ops[1..]);
    }
  }

  class Database {
    const db: array<Package>
    var count: nat
    var stored: string   // the text of the database file

    ghost predicate Valid()
      reads this
    {
      db.Length == MAX_PACKAGES && count <= MAX_PACKAGES
    }

    ghost function Contents(): seq<Package>
      requires Valid()
      reads this, db
    {
      db[..count]
    }

    constructor (text: string)
      ensures Valid() && Contents() == [] && stored == text && fresh(db)
    {
      db := new Package[MAX_PACKAGES](_ => NO_PACKAGE);
      count, stored := 0, text;
    }

    /** Writes the table to its file, if that can be opened. */
    method SaveInstalled(writable: bool) returns (ok: bool)
      requires Valid()
      modifies this`stored
      ensures ok == writable && stored == if ok then Save(Contents()) else old(stored)
    {
      if !writable { return false; }
      stored := DbSave(db[..count]);
      return true;
    }

    method FindIndex(name: string) returns (i: nat)
      requires Valid()
      ensures i == Find(Contents(), name)
    {
      i := 0;
      while i < count
        invariant i <= count
        invariant forall k :: 0 <= k < i ==> db[k].name != name
      {
        if db[i].name == name { break; }
        i := i + 1;
      }
      FindIsFirst(Contents(), name, i);
    }

    /** Enters a package and saves the table; the table changes also when saving fails. */
    method InstallLocal(p: Package, writable: bool) returns (ok: bool)
      requires Valid()
      modifies this`count, this`stored, db
      ensures Valid() && Contents() == Install(old(Contents()), p)
      ensures ok <==> (Find(old(Contents()), p.name) < old(count) || old(count) < MAX_PACKAGES) && writable
      ensures stored == if ok then Save(Contents()) else old(stored)
    {
      var i := FindIndex(p.name);
      if i == count {
        if count >= MAX_PACKAGES { return false; }
        count := count + 1;
      }
      db[i] := p;
      ok := SaveInstalled(writable);
    }

    /** Takes a package out of the table and saves it; the table changes also when saving fails. */
    method HandleRemove(name: string, writable: bool) returns (ok: bool)
      requires Valid()
      modifies this`count, this`stored, db
      ensures Valid() && Contents() == Remove(old(Contents()), name)
      ensures ok <==> Find(old(Contents()), name) < old(count) && writable
      ensures stored == if ok then Save(Contents()) else old(stored)
    {
      var i := FindIndex(name);
      if i == count { return false; }
      ShiftDown(i);
      count := count - 1;
      ok := SaveInstalled(writable);
    }

    /** Moves the packages behind place `i` one place down. */
    method ShiftDown(i: nat)
      requires Valid() && i < count
      modifies db
      ensures db[..count - 1] == old(db[..i]) + old(db[i + 1..count])
    {
      for k := i to count - 1
        invariant forall j :: 0 <= j < i ==> db[j] == old(db[j])
        invariant forall j :: i <= j < k ==> db[j] == old(db[j + 1])
        invariant forall j :: k <= j < count ==> db[j] == old(db[j])
      {
        db[k] := db[k + 1];
      }
    }
  }

  lemma FindIsFirst(ps: seq<Package>, name: string, i: nat)
    requires i <= |ps| && (i < |ps| ==> ps[i].name == name)
    requires forall k :: 0 <= k < i ==> ps[k].name != name
    ensures i == Find(ps, name)
  {
    var f := Find(ps, name);
    assert !(f < i) && !(i < f);
  }
}
