/** The decoding tables of the inflate code and their construction. */
module Huffman {
  import opened Bits
  import opened CanonicalCode

  const ZFAST_BITS := 9
  const ZFAST_SIZE := 512
  const ZNSYMS := 288

  /** A cast to a 16-bit unsigned integer. */
  function U16(n: nat): nat { n % 0x10000 }

  /** A fast-table entry: code length above bit 9, symbol below. */
  function Pack(s: nat, v: nat): nat { U16(Or(v, Shl(s, ZFAST_BITS))) }

  lemma Shl9(n: nat)
    ensures Shl(n, ZFAST_BITS) == 512 * n
  {
  }

  lemma PackParts(s: nat, v: nat)
    requires s <= MAX_LEN && v < ZFAST_SIZE
    ensures Pack(s, v) == 512 * s + v
    ensures Shr(Pack(s, v), ZFAST_BITS) == s && And(Pack(s, v), 511) == v
  {
    Shl9(1);
    Shl9(s);
    PackedField(s, v, ZFAST_BITS);
    FitsU16(512 * s + v);
  }

  lemma PackedField(s: nat, v: nat, w: nat)
    requires v < 512 && Shl(1, w) == 512 && Shl(s, w) == 512 * s
    ensures Or(v, Shl(s, w)) == 512 * s + v && Shr(512 * s + v, w) == s && And(512 * s + v, 511) == v
  {
    FieldParts(v, s, w);
  }

  lemma FitsU16(n: nat)
    requires n < 0x10000
    ensures U16(n) == n
  {
  }

  /** Symbol `v` has a short code, and the low bits of the table index `j` spell it LSB-first. */
  predicate ShortSpelled(lens: seq<nat>, v: nat, j: nat) {
    v < |lens| && 0 < lens[v] <= ZFAST_BITS && RevLow(j, lens[v]) == Code(lens, v)
  }

  /** The entry at index `j` names the one of the first `n` symbols with a short code spelled by `j`. */
  ghost predicate FastEntry(lens: seq<nat>, n: nat, j: nat, e: nat) {
    if e == 0 then
      forall v :: 0 <= v < n ==> !ShortSpelled(lens, v, j)
    else
      exists v :: 0 <= v < n && ShortSpelled(lens, v, j) && e == Pack(lens[v], v)
  }

  /** What one step of the per-length loop needs: the first code fits 16 bits, and the length is
      over-subscribed exactly when the weight passes one. */
  lemma AssignStep(lens: seq<nat>, l: nat)
    requires 0 < l <= MAX_LEN && |lens| <= ZNSYMS
    requires Weight(lens, |lens|, l - 1) <= 0x10000
    ensures First(lens, l) < 0x10000 && Start(lens, l) < 0x10000
    ensures Shl(First(lens, l) + Count(lens, l), 16 - l) == Weight(lens, |lens|, l)
    ensures Count(lens, l) > 0 && First(lens, l) + Count(lens, l) - 1 >= Shl(1, l)
            <==> Weight(lens, |lens|, l) > 0x10000
  {
    var c, m := First(lens, l) + Count(lens, l), Shl(1, l);
    LimitIsWeight(lens, l);
    StartBound(lens, l);
    ShlOne16();
    ShlShl(1, l, 16 - l);
    ShlMono(m, c, 16 - l);
    ShlMono(c, m, 16 - l);
    ShlMono(m, First(lens, l), 16 - l);
    ShlStep(First(lens, l), 15 - l);
  }

  /** More codes of one length than the length has values break the Kraft inequality. */
  lemma TooMany(lens: seq<nat>, l: nat)
    requires 0 < l <= MAX_LEN && Count(lens, l) > Shl(1, l)
    ensures Weight(lens, |lens|, MAX_LEN) > 0x10000
  {
    WeightStep(lens, |lens|, l);
    ShlOne16();
    ShlShl(1, l, 16 - l);
    ShlMono(Shl(1, l), Count(lens, l), 16 - l);
    WeightMono(lens, l, MAX_LEN);
  }

  /** The index where the fill of symbol `i` starts is the first one that spells its code. */
  lemma HitsStart(lens: seq<nat>, i: nat, j: nat, hits: seq<bool>)
    requires KraftOk(lens) && i < |lens| && 0 < lens[i] <= ZFAST_BITS
    requires hits == seq(ZFAST_SIZE, (m: nat) => ShortSpelled(lens, i, m))
    requires j == BitReverse(Code(lens, i), lens[i])
    ensures j < ZFAST_SIZE ==> hits[j]
    ensures forall m :: 0 <= m < ZFAST_SIZE && m < j ==> !hits[m]
  {
    var s := lens[i];
    BitReverseIsRevLow(Code(lens, i), s);
    CodeFits(lens, i);
    RevLowTwice(Code(lens, i), s);
    RevLowBound(Code(lens, i), s);
    forall m | 0 <= m < ZFAST_SIZE && m < j ensures !hits[m] {
      if hits[m] { RevLowGap(m, j, s); }
    }
  }

  /** The indices that spell a code of `s` bits are 2^s apart. */
  lemma HitsStride(lens: seq<nat>, i: nat, hits: seq<bool>)
    requires i < |lens| && 0 < lens[i] <= ZFAST_BITS
    requires hits == seq(ZFAST_SIZE, (m: nat) => ShortSpelled(lens, i, m))
    ensures forall m, n :: 0 <= m < n < ZFAST_SIZE && hits[m] && n < m + Shl(1, lens[i]) ==> !hits[n]
    ensures forall m :: 0 <= m < ZFAST_SIZE && hits[m] && m + Shl(1, lens[i]) < ZFAST_SIZE ==> hits[m + Shl(1, lens[i])]
  {
    var s := lens[i];
    forall m, n | 0 <= m < n < ZFAST_SIZE && hits[m] && n < m + Shl(1, s) ensures !hits[n] {
      if hits[n] { RevLowGap(m, n, s); }
    }
    forall m | 0 <= m < ZFAST_SIZE && hits[m] && m + Shl(1, s) < ZFAST_SIZE ensures hits[m + Shl(1, s)] {
      RevLowPeriod(m, s, s);
    }
  }

  /** A symbol without a short code leaves the fast table as it is. */
  lemma SkipFast(lens: seq<nat>, i: nat, fast: seq<nat>)
    requires i < |lens| && !(0 < lens[i] <= ZFAST_BITS) && |fast| == ZFAST_SIZE
    requires forall j :: 0 <= j < ZFAST_SIZE ==> FastEntry(lens, i, j, fast[j])
    ensures forall j :: 0 <= j < ZFAST_SIZE ==> FastEntry(lens, i + 1, j, fast[j])
  {
    forall j | 0 <= j < ZFAST_SIZE ensures FastEntry(lens, i + 1, j, fast[j]) {
      assert !ShortSpelled(lens, i, j);
      EntryKept(lens, i, j, fast[j]);
    }
  }

  lemma EntryKept(lens: seq<nat>, i: nat, j: nat, e: nat)
    requires FastEntry(lens, i, j, e) && !ShortSpelled(lens, i, j)
    ensures FastEntry(lens, i + 1, j, e)
  {
  }

  lemma SmallIsLow(n: nat, k: nat)
    requires n < Shl(1, k)
    ensures Low(n, k) == n
  {
    Split(n, k);
    if Shr(n, k) > 0 { ShlMono(1, Shr(n, k), k); }
    ShlZero(k);
  }

  /** No two symbols are entered at the same place of the fast table. */
  lemma ShortUnique(lens: seq<nat>, u: nat, v: nat, j: nat)
    requires j < ZFAST_SIZE && ShortSpelled(lens, u, j) && ShortSpelled(lens, v, j)
    ensures u == v
  {
    Shl9(1);
    SmallIsLow(j, ZFAST_BITS);
    ShortInWindow(lens, u, j);
    ShortInWindow(lens, v, j);
    SpelledUnique(lens, u, v, RevLow(j, 16));
  }

  /** Writing the hits of symbol `i` accounts for it, and none of them held an earlier symbol. */
  lemma EnterFast(lens: seq<nat>, i: nat, before: seq<nat>, after: seq<nat>, hits: seq<bool>)
    requires i < |lens| <= ZNSYMS && 0 < lens[i] <= ZFAST_BITS
    requires |before| == |after| == |hits| == ZFAST_SIZE
    requires hits == seq(ZFAST_SIZE, (m: nat) => ShortSpelled(lens, i, m))
    requires forall j :: 0 <= j < ZFAST_SIZE ==> FastEntry(lens, i, j, before[j])
    requires forall j :: 0 <= j < ZFAST_SIZE ==> after[j] == if hits[j] then Pack(lens[i], i) else before[j]
    ensures forall j :: 0 <= j < ZFAST_SIZE ==> FastEntry(lens, i + 1, j, after[j])
    ensures forall j :: 0 <= j < ZFAST_SIZE && hits[j] ==> before[j] == 0
  {
    PackParts(lens[i], i);
    forall j | 0 <= j < ZFAST_SIZE ensures FastEntry(lens, i + 1, j, after[j]) && (hits[j] ==> before[j] == 0) {
      if hits[j] { PlaceFree(lens, i, j, before[j]); } else { EntryKept(lens, i, j, before[j]); }
    }
  }

  lemma PlaceFree(lens: seq<nat>, i: nat, j: nat, e: nat)
    requires j < ZFAST_SIZE && FastEntry(lens, i, j, e) && ShortSpelled(lens, i, j)
    ensures e == 0
  {
    if e != 0 {
      var v :| 0 <= v < i && ShortSpelled(lens, v, j) && e == Pack(lens[v], v);
      ShortUnique(lens, v, i, j);
    }
  }

  lemma IndexFits(lens: seq<nat>, v: nat)
    requires v < |lens| <= ZNSYMS && lens[v] > 0
    ensures Index(lens, v) < |lens|
  {
    StartBound(lens, lens[v]);
    RankMono(lens, v, |lens|, lens[v]);
  }

  // ---------------------------------------------------------- reading the tables

  /** The mask of the fast table takes the low nine bits. */
  lemma FastIndex(n: nat)
    ensures And(n, ZFAST_SIZE - 1) == Low(n, ZFAST_BITS) < ZFAST_SIZE
  {
    assert Shl(1, ZFAST_BITS) == ZFAST_SIZE;
    AndMask(n, ZFAST_BITS);
    Split(n, ZFAST_BITS);
  }

  /** For a short code, spelling in the 16-bit window is spelling in the low nine bits. */
  lemma ShortInWindow(lens: seq<nat>, v: nat, n: nat)
    requires v < |lens| && lens[v] <= ZFAST_BITS
    ensures ShortSpelled(lens, v, Low(n, ZFAST_BITS)) <==> Spelled(lens, v, RevLow(n, 16))
  {
    RevLowOfLow(n, ZFAST_BITS, lens[v]);
    RevLowPrefix(n, 16, lens[v]);
  }

  /** A nonzero entry names the symbol that the window spells. */
  lemma FastHit(lens: seq<nat>, n: nat, e: nat)
    requires |lens| <= ZNSYMS && e != 0 && FastEntry(lens, |lens|, Low(n, ZFAST_BITS), e)
    ensures var v := And(e, ZFAST_SIZE - 1);
            v < |lens| && Shr(e, ZFAST_BITS) == lens[v] && Spelled(lens, v, RevLow(n, 16))
  {
    var v :| 0 <= v < |lens| && ShortSpelled(lens, v, Low(n, ZFAST_BITS)) && e == Pack(lens[v], v);
    PackParts(lens[v], v);
    ShortInWindow(lens, v, n);
  }

  /** A zero entry means that the window lies beyond all short codes. */
  lemma FastMiss(lens: seq<nat>, n: nat)
    requires FastEntry(lens, |lens|, Low(n, ZFAST_BITS), 0)
    ensures Weight(lens, |lens|, ZFAST_BITS) <= RevLow(n, 16)
  {
    if RevLow(n, 16) < Weight(lens, |lens|, ZFAST_BITS) {
      WeightZero(lens, |lens|);
      var l := Band(lens, ZFAST_BITS, RevLow(n, 16));
      var v := SpelledExists(lens, l, RevLow(n, 16));
      ShortInWindow(lens, v, n);
      assert false;
    }
  }

  /** The band that holds a window below the weight of length `m`. */
  lemma {:induction false} Band(lens: seq<nat>, m: nat, k: nat) returns (l: nat)
    requires m <= MAX_LEN && Weight(lens, |lens|, 0) <= k < Weight(lens, |lens|, m)
    ensures 0 < l <= m && Weight(lens, |lens|, l - 1) <= k < Weight(lens, |lens|, l)
    decreases m
  {
    if Weight(lens, |lens|, m - 1) <= k {
      l := m;
    } else {
      l := Band(lens, m - 1, k);
    }
  }

  /** The table index that the slow path computes is the index of the spelled symbol. */
  lemma SlowHit(lens: seq<nat>, s: nat, k: nat) returns (v: nat)
    requires 0 < s <= MAX_LEN && |lens| <= ZNSYMS
    requires Weight(lens, |lens|, s - 1) <= k < Weight(lens, |lens|, s)
    ensures Spelled(lens, v, k) && lens[v] == s
    ensures Shr(k, 16 - s) - First(lens, s) + Start(lens, s) == Index(lens, v) < ZNSYMS
  {
    v := SpelledExists(lens, s, k);
    IndexFits(lens, v);
  }

  /** Beyond the last band no symbol is spelled. */
  lemma SlowMiss(lens: seq<nat>, k: nat)
    requires LengthsOk(lens) && Weight(lens, |lens|, MAX_LEN) <= k
    ensures forall v :: 0 <= v < |lens| ==> !Spelled(lens, v, k)
  {
    forall v | 0 <= v < |lens| ensures !Spelled(lens, v, k) { NotSpelledAbove(lens, MAX_LEN, k, v); }
  }

  class ZHuffman {
    const fast: array<nat>
    const firstcode: array<nat>
    const maxcode: array<nat>
    const firstsymbol: array<nat>
    const size: array<nat>
    const value: array<nat>
    ghost const Repr: set<object>   // the six tables

    ghost predicate Shape() {
      && fast.Length == ZFAST_SIZE && firstcode.Length == 16 && maxcode.Length == 17
      && firstsymbol.Length == 16 && size.Length == ZNSYMS && value.Length == ZNSYMS
      && firstcode != firstsymbol && size != value
      && Repr == {fast, firstcode, maxcode, firstsymbol, size, value}
    }

    /** The per-length tables hold the canonical code of `lens` up to (not including) length `n`. */
    ghost predicate LengthTables(lens: seq<nat>, n: nat)
      requires Shape() && n <= 16
      reads firstcode, maxcode, firstsymbol
    {
      && (forall l {:trigger firstcode[l]} :: 1 <= l < n ==> firstcode[l] == First(lens, l))
      && (forall l {:trigger firstsymbol[l]} :: 1 <= l < n ==> firstsymbol[l] == Start(lens, l))
      && (forall l {:trigger maxcode[l]} :: 1 <= l < n ==> maxcode[l] == Weight(lens, |lens|, l))
    }

    /** The sorted symbol table holds the first `n` symbols. */
    ghost predicate SymbolTable(lens: seq<nat>, n: nat)
      requires Shape() && n <= |lens| <= ZNSYMS
      reads size, value
    {
      forall v {:trigger lens[v]} :: 0 <= v < n && lens[v] > 0 ==>
        && Index(lens, v) < ZNSYMS
        && size[Index(lens, v)] == lens[v] && value[Index(lens, v)] == v
    }

    ghost predicate FastTable(lens: seq<nat>, n: nat)
      requires Shape() && n <= |lens| <= ZNSYMS
      reads fast
    {
      forall j :: 0 <= j < ZFAST_SIZE ==> FastEntry(lens, n, j, fast[j])
    }

    /** All tables describe the canonical prefix code of `lens`. */
    ghost predicate Encodes(lens: seq<nat>)
      reads Repr
    {
      && Shape() && |lens| <= ZNSYMS && KraftOk(lens)
      && LengthTables(lens, 16) && maxcode[16] == 0x10000
      && SymbolTable(lens, |lens|) && FastTable(lens, |lens|)
    }

    constructor ()
      ensures Shape() && fresh(Repr)
    {
      fast := new nat[ZFAST_SIZE];
      firstcode := new nat[16];
      maxcode := new nat[17];
      firstsymbol := new nat[16];
      size := new nat[ZNSYMS];
      value := new nat[ZNSYMS];
      Repr := {fast, firstcode, maxcode, firstsymbol, size, value};
    }

    /** The number of symbols of each nonzero length. */
    method CountSizes(sizelist: seq<nat>) returns (sizes: array<nat>)
      requires LengthsOk(sizelist)
      ensures fresh(sizes) && sizes.Length == 17
      ensures forall l {:trigger sizes[l]} :: 0 <= l <= MAX_LEN ==> sizes[l] == Count(sizelist, l)
    {
      sizes := new nat[17](_ => 0);
      for i := 0 to |sizelist|
        invariant forall l {:trigger sizes[l]} :: 0 <= l < 17 ==> sizes[l] == Rank(sizelist, i, l)
      {
        sizes[sizelist[i]] := sizes[sizelist[i]] + 1;
      }
      sizes[0] := 0;
    }

    /** First code, first symbol and widened limit of each length; fails on over-subscription. */
    method AssignFirst(lens: seq<nat>, sizes: array<nat>, next_code: array<nat>) returns (ok: bool)
      requires Shape() && |lens| <= ZNSYMS
      requires sizes.Length == 17 && sizes != maxcode
      requires forall l {:trigger sizes[l]} :: 0 <= l <= MAX_LEN ==> sizes[l] == Count(lens, l)
      requires next_code.Length == 16 && next_code != firstcode && next_code != firstsymbol
      modifies firstcode, maxcode, firstsymbol, next_code
      ensures ok <==> Weight(lens, |lens|, MAX_LEN) <= 0x10000
      ensures ok ==> LengthTables(lens, 16)
      ensures ok ==> forall l {:trigger next_code[l]} :: 1 <= l <= MAX_LEN ==> next_code[l] == First(lens, l)
    {
      var code, k := 0, 0;
      WeightZero(lens, |lens|);
      for i := 1 to 16
        invariant code == First(lens, i) && k == Start(lens, i)
        invariant Weight(lens, |lens|, i - 1) <= 0x10000
        invariant LengthTables(lens, i)
        invariant forall l {:trigger next_code[l]} :: 1 <= l < i ==> next_code[l] == First(lens, l)
      {
        next_code[i] := code;
        ok := AssignLength(lens, i, code, k, sizes[i]);
        if !ok {
          WeightMono(lens, i, MAX_LEN);
          return;
        }
        code := 2 * (code + sizes[i]);
        k := k + sizes[i];
      }
      return true;
    }

    method AssignLength(lens: seq<nat>, i: nat, first: nat, k: nat, count: nat) returns (ok: bool)
      requires Shape() && |lens| <= ZNSYMS && 0 < i <= MAX_LEN
      requires first == First(lens, i) && k == Start(lens, i) && count == Count(lens, i)
      requires Weight(lens, |lens|, i - 1) <= 0x10000 && LengthTables(lens, i)
      modifies firstcode, maxcode, firstsymbol
      ensures ok <==> Weight(lens, |lens|, i) <= 0x10000
      ensures ok ==> LengthTables(lens, i + 1)
    {
      AssignStep(lens, i);
      var code := first + count;
      if count > 0 {
        if code - 1 >= Shl(1, i) { return false; }
      }
      EnterLength(lens, i, U16(first), U16(k), Shl(code, 16 - i));
      return true;
    }

    method EnterLength(ghost lens: seq<nat>, i: nat, first: nat, k: nat, limit: nat)
      requires Shape() && 0 < i <= MAX_LEN && LengthTables(lens, i)
      requires first == First(lens, i) && k == Start(lens, i) && limit == Weight(lens, |lens|, i)
      modifies firstcode, maxcode, firstsymbol
      ensures LengthTables(lens, i + 1)
    {
      firstcode[i] := first;
      firstsymbol[i] := k;
      maxcode[i] := limit;
    }

    /** Enters every used symbol into the sorted table and, if its code is short, the fast table. */
    method EnterSymbols(lens: seq<nat>, next_code: array<nat>)
      requires Shape() && |lens| <= ZNSYMS && KraftOk(lens)
      requires LengthTables(lens, 16) && FastTable(lens, 0)
      requires next_code.Length == 16 && next_code != firstcode && next_code != firstsymbol
      requires forall l {:trigger next_code[l]} :: 1 <= l <= MAX_LEN ==> next_code[l] == First(lens, l)
      modifies fast, size, value, next_code
      ensures SymbolTable(lens, |lens|) && FastTable(lens, |lens|)
    {
      for i := 0 to |lens|
        invariant forall l {:trigger next_code[l]} :: 1 <= l <= MAX_LEN ==>
          next_code[l] == First(lens, l) + Rank(lens, i, l)
        invariant SymbolTable(lens, i) && FastTable(lens, i)
      {
        var s := lens[i];
        if s > 0 {
          EnterSorted(lens, i, next_code[s] - firstcode[s] + firstsymbol[s]);
          if s <= ZFAST_BITS {
            FillFast(lens, i, next_code[s]);
          } else {
            SkipFast(lens, i, fast[..]);
          }
          next_code[s] := next_code[s] + 1;
        } else {
          SkipFast(lens, i, fast[..]);
        }
      }
    }

    method EnterSorted(lens: seq<nat>, i: nat, c: nat)
      requires Shape() && i < |lens| <= ZNSYMS && 0 < lens[i]
      requires c == Index(lens, i) && SymbolTable(lens, i)
      modifies size, value
      ensures SymbolTable(lens, i + 1)
    {
      IndexFits(lens, i);
      forall v | 0 <= v < i && lens[v] > 0 ensures Index(lens, v) != c { IndexInjective(lens, v, i); }
      size[c] := lens[i];
      value[c] := i;
    }

    /** Writes symbol `i` at every fast-table index whose low bits spell its code, all of them free before. */
    method FillFast(lens: seq<nat>, i: nat, code: nat)
      requires Shape() && i < |lens| <= ZNSYMS && KraftOk(lens)
      requires 0 < lens[i] <= ZFAST_BITS && code == Code(lens, i)
      requires FastTable(lens, i)
      modifies fast
      ensures FastTable(lens, i + 1)
      ensures forall j :: 0 <= j < ZFAST_SIZE ==>
        if ShortSpelled(lens, i, j) then old(fast[j]) == 0 && fast[j] == Pack(lens[i], i) else fast[j] == old(fast[j])
    {
      var s := lens[i];
      var fastv := Pack(s, i);
      var j := BitReverse(code, s);
      ghost var hits := seq(ZFAST_SIZE, (m: nat) => ShortSpelled(lens, i, m));
      HitsStart(lens, i, j, hits);
      HitsStride(lens, i, hits);
      WriteEvery(j, Shl(1, s), fastv, hits);
      EnterFast(lens, i, old(fast[..]), fast[..], hits);
    }

    /** Writes an entry at `start` and at every `d`-th place behind it, which are the hits. */
    method WriteEvery(start: nat, d: nat, v: nat, ghost hits: seq<bool>)
      requires fast.Length == |hits| == ZFAST_SIZE && d > 0
      requires start < ZFAST_SIZE ==> hits[start]
      requires forall m :: 0 <= m < ZFAST_SIZE && m < start ==> !hits[m]
      requires forall m, n :: 0 <= m < n < ZFAST_SIZE && hits[m] && n < m + d ==> !hits[n]
      requires forall m :: 0 <= m < ZFAST_SIZE && hits[m] && m + d < ZFAST_SIZE ==> hits[m + d]
      modifies fast
      ensures forall m :: 0 <= m < ZFAST_SIZE ==> fast[m] == if hits[m] then v else old(fast[m])
    {
      var j := start;
      while j < ZFAST_SIZE
        invariant j < ZFAST_SIZE ==> hits[j]
        invariant forall m :: 0 <= m < ZFAST_SIZE ==> fast[m] == if m < j && hits[m] then v else old(fast[m])
      {
        fast[j] := v;
        j := j + d;
      }
    }

    /** Builds the tables; succeeds exactly when the lengths satisfy the Kraft inequality. */
    method Build(sizelist: seq<nat>) returns (ok: bool)
      requires Shape() && |sizelist| <= ZNSYMS && LengthsOk(sizelist)
      modifies Repr
      ensures ok <==> KraftSum(sizelist) <= 0x10000
      ensures ok ==> Encodes(sizelist)
    {
      for j := 0 to ZFAST_SIZE
        invariant forall m :: 0 <= m < j ==> fast[m] == 0
      {
        fast[j] := 0;
      }
      var sizes := CountSizes(sizelist);
      assert sizelist[..|sizelist|] == sizelist;
      WeightIsKraft(sizelist, |sizelist|);
      for i := 1 to 16 {
        if sizes[i] > Shl(1, i) {
          TooMany(sizelist, i);
          return false;
        }
      }
      var next_code := new nat[16];
      ok := AssignFirst(sizelist, sizes, next_code);
      if ok {
        maxcode[16] := 0x10000;
        EnterSymbols(sizelist, next_code);
      }
    }

    /** The least length above the fast ones whose limit exceeds the window; 16 if there is none. */
    method FindLength(k: nat, ghost lens: seq<nat>) returns (s: nat)
      requires Encodes(lens) && Weight(lens, |lens|, ZFAST_BITS) <= k < 0x10000
      ensures ZFAST_BITS < s <= 16 && Weight(lens, |lens|, s - 1) <= k
      ensures s < 16 ==> k < Weight(lens, |lens|, s)
    {
      s := ZFAST_BITS + 1;
      while k >= maxcode[s]
        invariant ZFAST_BITS < s <= 16 && Weight(lens, |lens|, s - 1) <= k
        decreases 16 - s
      {
        s := s + 1;
      }
    }

    /** The symbol that the window spells, or -1 if there is none, when its code is longer than the fast ones. */
    method FindSymbol(k: nat, ghost lens: seq<nat>) returns (v: int, s: nat)
      requires Encodes(lens) && Weight(lens, |lens|, ZFAST_BITS) <= k < 0x10000
      ensures v >= 0 ==> v < |lens| && Spelled(lens, v, k) && lens[v] == s <= MAX_LEN
      ensures v < 0 ==> forall u :: 0 <= u < |lens| ==> !Spelled(lens, u, k)
    {
      s := FindLength(k, lens);
      if s >= 16 {
        SlowMiss(lens, k);
        return -1, s;
      }
      v := Lookup(k, s, lens);
    }

    /** The symbol of length `s` that the window spells, from the sorted table. */
    method Lookup(k: nat, s: nat, ghost lens: seq<nat>) returns (v: nat)
      requires Encodes(lens) && 0 < s <= MAX_LEN
      requires Weight(lens, |lens|, s - 1) <= k < Weight(lens, |lens|, s)
      ensures Spelled(lens, v, k) && lens[v] == s
    {
      ghost var u := SlowHit(lens, s, k);
      var b := Shr(k, 16 - s) - firstcode[s] + firstsymbol[s];
      if b >= ZNSYMS {
        assert false;             // the index is always inside the table
      }
      if size[b] != s {
        assert false;             // and the entry always has the length that was found
      }
      v := value[b];
    }
  }
}
