/** Reading the code lengths of a block with dynamic Huffman codes. */
module InflateHeader {
  import opened CanonicalCode
  import opened BitStream
  import opened Huffman
  import opened BitBuffer
  import opened InflateReader
  import opened DeflateStream
  import opened DeflateReads
  import opened Inflate

  /** No valid header lies where the reader stands that it could read to the end. */
  ghost predicate NoHeaderAt(bits: seq<nat>, r: Reader) {
    r.Live? && forall cl, its, lit, dist, q: nat :: HeaderAt(bits, r.at, cl, its, lit, dist, q) ==>
      HeaderRead(bits, r, cl, its).Exhausted?
  }

  /** No valid list of `total` code lengths lies where the reader stands that it could read to the end. */
  ghost predicate NoItemsAt(bits: seq<nat>, r: Reader, cl: seq<nat>, total: nat) {
    r.Live? && forall us :: ItemsEnd(bits, r.at, cl, us) >= 0 && RunsOk(us) && TotalRun(us) == total ==>
      ItemsRead(|bits|, r, cl, us).Exhausted?
  }

  // ------------------------------------------------------------ reading

  /** Reads the lengths of the code length code. */
  method ReadCodeLengths(a: ZBuf, hclen: nat) returns (sizes: seq<nat>)
    requires a.BitsOk() && hclen <= 19
    modifies a`pos, a`num_bits, a`code_buffer, a`fill, a`consumed
    ensures a.BitsOk() && a.ReaderMoved() && a.consumed == old(a.consumed) + 3 * hclen
    ensures sizes == CodeLengths(a.bits, old(a.consumed), hclen) && LengthsOk(sizes)
    ensures a.View() == LengthsRead(old(a.View()), hclen)
  {
    var buf := new nat[19](_ => 0);
    assert buf[..] == seq(19, _ => 0);
    ghost var v := a.View();
    for i := 0 to hclen
      invariant a.BitsOk() && a.ReaderMoved() && LengthsSoFar(a.bits, v, i, buf[..], a.View())
    {
      ReadOneLength(a, buf, i, v);
    }
    sizes := buf[..];
  }

  /** The first `i` lengths have been read from `v` on, up to `e`. */
  ghost predicate LengthsSoFar(bits: seq<nat>, v: Reader, i: nat, sizes: seq<nat>, e: Reader) {
    && i <= 19 && v.Live? && e.Live? && e == LengthsRead(v, i) && e.at == v.at + 3 * i
    && sizes == CodeLengths(bits, v.at, i) && LengthsOk(sizes)
  }

  method ReadOneLength(a: ZBuf, buf: array<nat>, i: nat, ghost v: Reader)
    requires a.BitsOk() && buf.Length == 19 && i < 19 && LengthsSoFar(a.bits, v, i, buf[..], a.View())
    modifies a`pos, a`num_bits, a`code_buffer, a`fill, a`consumed, buf
    ensures a.BitsOk() && a.ReaderMoved() && LengthsSoFar(a.bits, v, i + 1, buf[..], a.View())
  {
    LsbBound(a.bits, a.consumed, 3);
    var s := a.Receive(3);
    assert s <= 7;
    buf[DEZIGZAG[i]] := s;
  }

  /** Reads one item; a negative symbol reports that none stands here. */
  method ReadItem(a: ZBuf, z: ZHuffman, ghost cl: seq<nat>) returns (c: int, extra: nat)
    requires a.BitsOk() && z.Encodes(cl) && |cl| == 19
    modifies a`pos, a`num_bits, a`code_buffer, a`fill, a`hit_zeof_once, a`consumed
    ensures a.BitsOk() && a.ReaderMoved()
    ensures c < 0 ==> NoSymbolAt(a.bits, old(a.consumed), cl) || Refilled(old(a.View()), |a.bits|).Exhausted?
    ensures c >= 0 ==> ItemEnd(a.bits, old(a.consumed), cl, Item(c, extra)) == a.consumed && c < 19
    ensures c >= 0 ==> a.View() == ItemRead(|a.bits|, old(a.View()), cl, Item(c, extra))
  {
    extra := 0;
    c := a.Decode(z, cl);
    if c == 16 {
      extra := a.Receive(2);
    } else if c == 17 {
      extra := a.Receive(3);
    } else if c == 18 {
      extra := a.Receive(7);
    }
  }

  /** The items `its` stand between `p` and `q` and stand for the lengths `lens`. */
  ghost predicate Listed(bits: seq<nat>, p: nat, cl: seq<nat>, its: seq<Item>, q: nat, lens: seq<nat>) {
    ItemsEnd(bits, p, cl, its) == q && RunsOk(its) && lens == Lengths(its) && LengthsOk(lens)
  }

  /** Reads run-length coded lengths until there are `total` of them. */
  method ReadLengths(a: ZBuf, z: ZHuffman, total: nat, lencodes: array<nat>, ghost cl: seq<nat>)
    returns (st: Status, ghost its: seq<Item>)
    requires a.BitsOk() && z.Encodes(cl) && |cl| == 19 && total <= lencodes.Length && lencodes !in z.Repr
    modifies a`pos, a`num_bits, a`code_buffer, a`fill, a`hit_zeof_once, a`consumed, lencodes
    ensures a.BitsOk() && a.ReaderMoved()
    ensures st == Done ==> Listed(a.bits, old(a.consumed), cl, its, a.consumed, lencodes[..total])
    ensures st == Done ==> a.View() == ItemsRead(|a.bits|, old(a.View()), cl, its)
    ensures st != Done ==> st == Corrupt && NoItemsAt(a.bits, old(a.View()), cl, total)
  {
    its := [];
    var n := 0;
    ghost var v := a.View();
    while n < total
      invariant a.BitsOk() && a.ReaderMoved() && z.Encodes(cl) && n <= total
      invariant Listed(a.bits, v.at, cl, its, a.consumed, lencodes[..n])
      invariant a.View() == ItemsRead(|a.bits|, v, cl, its)
      decreases total - n
    {
      ghost var m := a.consumed;
      var c, extra := ReadItem(a, z, cl);
      if c < 0 {
        NoNextItem(a.bits, v, cl, its, total);
        return Corrupt, its;
      }
      st, n := AppendRun(lencodes, n, total, Item(c, extra), a.bits, v, cl, its, m);
      if st != Done { return; }
      ReadOneItemMore(|a.bits|, v, cl, its, Item(c, extra));
      its := its + [Item(c, extra)];
    }
    return Done, its;
  }

  /** Appends the lengths of one item, unless it repeats nothing or runs past the total. */
  method AppendRun(lencodes: array<nat>, n: nat, total: nat, it: Item,
                   ghost bits: seq<nat>, ghost v: Reader, ghost cl: seq<nat>, ghost its: seq<Item>, ghost m: nat)
    returns (st: Status, n': nat)
    requires Binary(bits) && n < total <= lencodes.Length && v.Live?
    requires Listed(bits, v.at, cl, its, m, lencodes[..n]) && ItemEnd(bits, m, cl, it) >= 0
    modifies lencodes
    ensures st == Done ==> n < n' <= total
    ensures st == Done ==> Listed(bits, v.at, cl, its + [it], ItemEnd(bits, m, cl, it), lencodes[..n'])
    ensures st != Done ==> st == Corrupt && NoItemsAt(bits, v, cl, total)
  {
    n' := n;
    var c := it.sym;
    if c == 16 && n == 0 {
      NoFirstRepeat(bits, v, cl, it, total);
      return Corrupt, n;
    }
    if total - n < RunLength(it) {
      Overrun(bits, v, cl, its, it, total);
      return Corrupt, n;
    }
    ExtendItems(bits, v.at, cl, its, it);
    var fill := if c < 16 then c else if c == 16 then lencodes[n - 1] else 0;
    FillRun(lencodes, n, RunLength(it), fill);
    return Done, n + RunLength(it);
  }

  method FillRun(lencodes: array<nat>, n: nat, c: nat, fill: nat)
    requires n + c <= lencodes.Length
    modifies lencodes
    ensures lencodes[..n + c] == old(lencodes[..n]) + seq(c, _ => fill)
  {
    for i := 0 to c
      invariant lencodes[..n] == old(lencodes[..n])
      invariant forall j :: n <= j < n + i ==> lencodes[j] == fill
    {
      lencodes[n + i] := fill;
    }
  }

  /** Reads a dynamic header and builds both decoding tables. The tables encode the codes that the
      header declares; data is rejected exactly if no valid header stands here that can be read to the end. */
  method ComputeHuffmanCodes(a: ZBuf)
    returns (st: Status, ghost cl: seq<nat>, ghost its: seq<Item>, ghost lit: seq<nat>, ghost dist: seq<nat>)
    requires a.BitsOk() && a.z_length.Shape() && a.z_distance.Shape()
    requires a.z_length.Repr !! a.z_distance.Repr && a.out !in a.z_length.Repr + a.z_distance.Repr
    modifies a`pos, a`num_bits, a`code_buffer, a`fill, a`hit_zeof_once, a`consumed
    modifies a.z_length.Repr, a.z_distance.Repr
    ensures a.BitsOk() && a.ReaderMoved()
    ensures st == Done ==> HeaderAt(a.bits, old(a.consumed), cl, its, lit, dist, a.consumed)
    ensures st == Done ==> a.View() == HeaderRead(a.bits, old(a.View()), cl, its)
    ensures st == Done ==> a.z_length.Encodes(lit) && a.z_distance.Encodes(dist)
    ensures st != Done ==> st == Corrupt && NoHeaderAt(a.bits, old(a.View()))
    ensures a.out[..] == old(a.out[..]) && unchanged(a`out, a`zout)
  {
    ghost var v := a.View();
    lit, dist := [], [];
    var hlit, hdist, lencodes;
    st, hlit, hdist, lencodes, cl, its := ReadAllLengths(a);
    if st != Done { return; }
    lit, dist := lencodes[..hlit], lencodes[hlit..hlit + hdist];
    assert lencodes[..hlit + hdist] == lit + dist;
    var ok := BuildBoth(a, lencodes[..hlit], lencodes[hlit..hlit + hdist]);
    if !ok { st := Corrupt; }
    HeaderJudged(a.bits, v, cl, its, a.consumed, lit, dist);
  }

  /** A list of lengths makes a header exactly when both codes are possible. */
  lemma HeaderJudged(bits: seq<nat>, r: Reader, cl: seq<nat>, its: seq<Item>, q: nat, lit: seq<nat>, dist: seq<nat>)
    requires Binary(bits) && r.Live? && ItemsOfHeader(bits, r.at, cl, its, q)
    requires Lengths(its) == lit + dist && |lit| == Hlit(bits, r.at)
    ensures KraftOk(lit) && KraftOk(dist) ==> HeaderAt(bits, r.at, cl, its, lit, dist, q)
    ensures !(KraftOk(lit) && KraftOk(dist)) ==> NoHeaderAt(bits, r)
  {
    if !(KraftOk(lit) && KraftOk(dist)) { OverfullHeader(bits, r, cl, its, q, lit, dist); }
  }

  /** Reads everything of a dynamic header up to the list of code lengths. */
  method ReadAllLengths(a: ZBuf)
    returns (st: Status, hlit: nat, hdist: nat, lencodes: array<nat>, ghost cl: seq<nat>, ghost its: seq<Item>)
    requires a.BitsOk()
    modifies a`pos, a`num_bits, a`code_buffer, a`fill, a`hit_zeof_once, a`consumed
    ensures a.BitsOk() && a.ReaderMoved() && fresh(lencodes)
    ensures hlit == Hlit(a.bits, old(a.consumed)) <= ZNSYMS && hdist == Hdist(a.bits, old(a.consumed)) <= 32
    ensures hlit + hdist <= lencodes.Length
    ensures st == Done ==> ItemsOfHeader(a.bits, old(a.consumed), cl, its, a.consumed)
    ensures st == Done ==> a.View() == HeaderRead(a.bits, old(a.View()), cl, its)
    ensures st == Done ==> lencodes[..hlit + hdist] == Lengths(its) && LengthsOk(Lengths(its))
    ensures st != Done ==> st == Corrupt && NoHeaderAt(a.bits, old(a.View()))
  {
    ghost var v := a.View();
    var hclen;
    hlit, hdist, hclen := ReadCounts(a);
    lencodes := new nat[286 + 32 + 137];
    st, cl, its := ReadList(a, hclen, hlit + hdist, lencodes, v);
  }

  /** Reads the code length code and the lengths that are written in it; the header starts at `v`. */
  method ReadList(a: ZBuf, hclen: nat, total: nat, lencodes: array<nat>, ghost v: Reader)
    returns (st: Status, ghost cl: seq<nat>, ghost its: seq<Item>)
    requires a.BitsOk() && v.Live? && hclen == Hclen(a.bits, v.at) <= 19 && a.consumed == v.at + 14
    requires a.View() == CountsRead(v) && total == Hlit(a.bits, v.at) + Hdist(a.bits, v.at) <= lencodes.Length
    modifies a`pos, a`num_bits, a`code_buffer, a`fill, a`hit_zeof_once, a`consumed, lencodes
    ensures a.BitsOk() && a.ReaderMoved()
    ensures st == Done ==> ItemsOfHeader(a.bits, v.at, cl, its, a.consumed)
    ensures st == Done ==> a.View() == HeaderRead(a.bits, v, cl, its)
    ensures st == Done ==> lencodes[..total] == Lengths(its) && LengthsOk(Lengths(its))
    ensures st != Done ==> st == Corrupt && NoHeaderAt(a.bits, v)
  {
    its := [];
    var ok, z_codelength;
    ok, z_codelength, cl := ReadCodeLengthCode(a, hclen, v);
    if ok {
      st, its := ReadLengths(a, z_codelength, total, lencodes, cl);
      if st != Done { NoItemsNoHeader(a.bits, v, cl); }
    } else {
      NoCodeNoHeader(a.bits, v, cl);
      st := Corrupt;
    }
  }

  method ReadCodeLengthCode(a: ZBuf, hclen: nat, ghost v: Reader) returns (ok: bool, z: ZHuffman, ghost cl: seq<nat>)
    requires a.BitsOk() && v.Live? && hclen == Hclen(a.bits, v.at) <= 19 && a.consumed == v.at + 14
    requires a.View() == CountsRead(v)
    modifies a`pos, a`num_bits, a`code_buffer, a`fill, a`consumed
    ensures a.BitsOk() && a.ReaderMoved() && a.consumed == ItemsStart(a.bits, v.at)
    ensures a.View() == CodeRead(a.bits, v)
    ensures CodeOfHeader(a.bits, v.at, cl) && |cl| == 19
    ensures ok <==> KraftOk(cl)
    ensures fresh(z.Repr) && (ok ==> z.Encodes(cl))
  {
    var sizes := ReadCodeLengths(a, hclen);
    z := new ZHuffman();
    ok := z.Build(sizes);
    cl := sizes;
  }

  method ReadCounts(a: ZBuf) returns (hlit: nat, hdist: nat, hclen: nat)
    requires a.BitsOk()
    modifies a`pos, a`num_bits, a`code_buffer, a`fill, a`consumed
    ensures a.BitsOk() && a.ReaderMoved() && a.consumed == old(a.consumed) + 14
    ensures hlit == Hlit(a.bits, old(a.consumed)) <= 288 && hdist == Hdist(a.bits, old(a.consumed)) <= 32
    ensures hclen == Hclen(a.bits, old(a.consumed)) <= 19
    ensures a.View() == CountsRead(old(a.View()))
  {
    LsbBound(a.bits, a.consumed, 5);
    LsbBound(a.bits, a.consumed + 5, 5);
    LsbBound(a.bits, a.consumed + 10, 4);
    hlit := a.Receive(5);
    hdist := a.Receive(5);
    hclen := a.Receive(4);
    hlit, hdist, hclen := hlit + 257, hdist + 1, hclen + 4;
  }

  method BuildBoth(a: ZBuf, lit: seq<nat>, dist: seq<nat>) returns (ok: bool)
    requires a.z_length.Shape() && a.z_distance.Shape()
    requires a.z_length.Repr !! a.z_distance.Repr && a.out !in a.z_length.Repr + a.z_distance.Repr
    requires LengthsOk(lit) && LengthsOk(dist) && |lit| <= ZNSYMS && |dist| <= ZNSYMS
    modifies a.z_length.Repr, a.z_distance.Repr
    ensures ok <==> KraftOk(lit) && KraftOk(dist)
    ensures ok ==> a.z_length.Encodes(lit) && a.z_distance.Encodes(dist)
    ensures a.out[..] == old(a.out[..]) && unchanged(a)
  {
    ok := a.z_length.Build(lit);
    if ok { ok := a.z_distance.Build(dist); }
  }

  // ------------------------------------------------------------- lemmas

  lemma ExtendItems(bits: seq<nat>, p: nat, cl: seq<nat>, its: seq<Item>, it: Item)
    requires ItemsEnd(bits, p, cl, its) >= 0 && RunsOk(its) && LengthsOk(Lengths(its))
    requires ItemEnd(bits, ItemsEnd(bits, p, cl, its), cl, it) >= 0
    requires it.sym == 16 ==> Lengths(its) != []
    ensures ItemsEnd(bits, p, cl, its + [it]) == ItemEnd(bits, ItemsEnd(bits, p, cl, its), cl, it)
    ensures RunsOk(its + [it]) && LengthsOk(Lengths(its + [it]))
    ensures Lengths(its + [it]) == Lengths(its) + seq(RunLength(it), _ => RunValue(Lengths(its), it))
  {
    assert (its + [it])[..|its|] == its;
  }

  /** Every complete item list at `p` continues the items found so far. */
  lemma ItemsForced(bits: seq<nat>, p: nat, cl: seq<nat>, its: seq<Item>, us: seq<Item>)
    requires Binary(bits) && ItemsEnd(bits, p, cl, its) >= 0 && ItemsEnd(bits, p, cl, us) >= 0
    requires TotalRun(its) < TotalRun(us)
    ensures |its| < |us| && us[..|its|] == its
    ensures ItemEnd(bits, ItemsEnd(bits, p, cl, its), cl, us[|its|]) >= 0
    ensures ItemsEnd(bits, p, cl, its) <= ItemsEnd(bits, p, cl, us)
  {
    if |us| <= |its| {
      ItemsComparable(bits, p, cl, us, its);
      assert its[..|us|] == us;
      ItemsPrefix(bits, p, cl, its, |us|);
    } else {
      ItemsComparable(bits, p, cl, its, us);
      assert us[..|its|] == its;
      ItemsPrefix(bits, p, cl, us, |its|);
    }
  }

  lemma ReadOneItemMore(size: nat, r: Reader, cl: seq<nat>, its: seq<Item>, it: Item)
    ensures ItemsRead(size, r, cl, its + [it]) == ItemRead(size, ItemsRead(size, r, cl, its), cl, it)
  {
    assert (its + [it])[..|its|] == its;
  }

  lemma NoNextItem(bits: seq<nat>, r: Reader, cl: seq<nat>, its: seq<Item>, total: nat)
    requires Binary(bits) && r.Live? && ItemsEnd(bits, r.at, cl, its) >= 0 && TotalRun(its) < total
    requires NoSymbolAt(bits, ItemsEnd(bits, r.at, cl, its), cl)
             || Refilled(ItemsRead(|bits|, r, cl, its), |bits|).Exhausted?
    ensures NoItemsAt(bits, r, cl, total)
  {
    forall us | ItemsEnd(bits, r.at, cl, us) >= 0 && RunsOk(us) && TotalRun(us) == total
      ensures ItemsRead(|bits|, r, cl, us).Exhausted?
    {
      ItemsForced(bits, r.at, cl, its, us);
      assert us[..|its| + 1] == its + [us[|its|]];
      ReadOneItemMore(|bits|, r, cl, its, us[|its|]);
      ItemsStayExhausted(|bits|, r, cl, us, |its| + 1);
    }
  }

  lemma NoFirstRepeat(bits: seq<nat>, r: Reader, cl: seq<nat>, it: Item, total: nat)
    requires Binary(bits) && r.Live? && ItemEnd(bits, r.at, cl, it) >= 0 && it.sym == 16 && total > 0
    ensures NoItemsAt(bits, r, cl, total)
  {
    forall us | ItemsEnd(bits, r.at, cl, us) >= 0 && TotalRun(us) == total ensures !RunsOk(us) {
      ItemsForced(bits, r.at, cl, [], us);
      ItemUnique(bits, r.at, cl, it, us[0]);
      if RunsOk(us) { RunsPrefix(us, 1); }
    }
  }

  lemma {:induction false} RunsPrefix(us: seq<Item>, n: nat)
    requires n <= |us| && RunsOk(us)
    ensures RunsOk(us[..n])
    decreases |us|
  {
    if n == |us| {
      assert us[..n] == us;
    } else {
      RunsPrefix(us[..|us| - 1], n);
      assert us[..|us| - 1][..n] == us[..n];
    }
  }

  lemma Overrun(bits: seq<nat>, r: Reader, cl: seq<nat>, its: seq<Item>, it: Item, total: nat)
    requires Binary(bits) && r.Live? && ItemsEnd(bits, r.at, cl, its) >= 0
    requires ItemEnd(bits, ItemsEnd(bits, r.at, cl, its), cl, it) >= 0
    requires TotalRun(its) < total < TotalRun(its) + RunLength(it)
    ensures NoItemsAt(bits, r, cl, total)
  {
    forall us | ItemsEnd(bits, r.at, cl, us) >= 0 && RunsOk(us) && TotalRun(us) == total ensures false {
      ItemsForced(bits, r.at, cl, its, us);
      assert us[..|its| + 1][..|its|] == its;
      ItemsPrefix(bits, r.at, cl, us, |its| + 1);
      ItemUnique(bits, ItemsEnd(bits, r.at, cl, its), cl, it, us[|its|]);
    }
  }

  lemma NoCodeNoHeader(bits: seq<nat>, r: Reader, cl: seq<nat>)
    requires r.Live? && CodeOfHeader(bits, r.at, cl) && !KraftOk(cl)
    ensures NoHeaderAt(bits, r)
  {
  }

  lemma NoItemsNoHeader(bits: seq<nat>, r: Reader, cl: seq<nat>)
    requires r.Live? && CodeOfHeader(bits, r.at, cl)
    requires var e := CodeRead(bits, r);
             e.Live? && e.at == ItemsStart(bits, r.at) && NoItemsAt(bits, e, cl, Hlit(bits, r.at) + Hdist(bits, r.at))
    ensures NoHeaderAt(bits, r)
  {
  }

  /** If the lengths found do not describe prefix codes, no header there declares others. */
  lemma OverfullHeader(bits: seq<nat>, r: Reader, cl: seq<nat>, its: seq<Item>, q: nat, lit: seq<nat>, dist: seq<nat>)
    requires Binary(bits) && r.Live? && ItemsOfHeader(bits, r.at, cl, its, q)
    requires Lengths(its) == lit + dist && |lit| == Hlit(bits, r.at) && !(KraftOk(lit) && KraftOk(dist))
    ensures NoHeaderAt(bits, r)
  {
    forall cl', us, lit', dist', q': nat | HeaderAt(bits, r.at, cl', us, lit', dist', q') ensures false {
      assert (lit + dist)[..|lit|] == lit && (lit + dist)[|lit|..] == dist;
      assert (lit' + dist')[..|lit'|] == lit' && (lit' + dist')[|lit'|..] == dist';
      ItemsOfHeaderUnique(bits, r.at, cl, its, q, cl', us, q');
    }
  }
}
