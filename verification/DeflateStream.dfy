/** Block headers and whole streams, as sections 3.2.3, 3.2.4, 3.2.6 and 3.2.7 of RFC 1951 define them. */
module DeflateStream {
  import opened CanonicalCode
  import opened BitStream
  import opened Deflate

  // ------------------------------------------------- dynamic code lengths

  const DEZIGZAG: seq<nat> := [16, 17, 18, 0, 8, 7, 9, 6, 10, 5, 11, 4, 12, 3, 13, 2, 14, 1, 15]

  /** The code length code: `n` lengths of three bits each, in the order of the table. */
  function CodeLengths(bits: seq<nat>, p: nat, n: nat): (r: seq<nat>)
    requires n <= 19
    ensures |r| == 19
  {
    if n == 0 then seq(19, _ => 0)
    else CodeLengths(bits, p, n - 1)[DEZIGZAG[n - 1] := Lsb(bits, p + 3 * (n - 1), 3)]
  }

  /** One entry of the run-length coded list of code lengths. */
  datatype Item = Item(sym: nat, extra: nat)

  function ItemExtra(sym: nat): nat {
    if sym == 16 then 2 else if sym == 17 then 3 else if sym == 18 then 7 else 0
  }

  /** Where the item ends if it stands at `p`; -1 if it does not stand there. */
  function ItemEnd(bits: seq<nat>, p: nat, cl: seq<nat>, it: Item): int {
    if it.sym < 19 && SymbolAt(bits, p, cl, it.sym)
       && it.extra == Lsb(bits, p + cl[it.sym], ItemExtra(it.sym))
    then p + cl[it.sym] + ItemExtra(it.sym) else -1
  }

  function ItemsEnd(bits: seq<nat>, p: nat, cl: seq<nat>, its: seq<Item>): int {
    if its == [] then p else
    var m := ItemsEnd(bits, p, cl, its[..|its| - 1]);
    if m < 0 then -1 else ItemEnd(bits, m, cl, its[|its| - 1])
  }

  /** How many lengths an item stands for. */
  function RunLength(it: Item): (n: nat)
    ensures n >= 1
  {
    if it.sym < 16 then 1 else if it.sym == 18 then it.extra + 11 else it.extra + 3
  }

  /** The length an item repeats; symbol 16 repeats the one before it. */
  function RunValue(lens: seq<nat>, it: Item): nat
    requires it.sym == 16 ==> lens != []
  {
    if it.sym < 16 then it.sym else if it.sym == 16 then lens[|lens| - 1] else 0
  }

  predicate RunsOk(its: seq<Item>) {
    its == [] || (RunsOk(its[..|its| - 1]) && (its[|its| - 1].sym == 16 ==> |its| > 1))
  }

  /** The list of code lengths that the items stand for. */
  function Lengths(its: seq<Item>): (r: seq<nat>)
    requires RunsOk(its)
    ensures its != [] ==> r != []
    ensures |r| == TotalRun(its)
  {
    if its == [] then [] else
    var before := Lengths(its[..|its| - 1]);
    var it := its[|its| - 1];
    before + seq(RunLength(it), _ => RunValue(before, it))
  }

  function TotalRun(its: seq<Item>): nat {
    if its == [] then 0 else TotalRun(its[..|its| - 1]) + RunLength(its[|its| - 1])
  }

  /** The three counts at the start of a dynamic header. */
  function Hlit(bits: seq<nat>, p: nat): nat { Lsb(bits, p, 5) + 257 }
  function Hdist(bits: seq<nat>, p: nat): nat { Lsb(bits, p + 5, 5) + 1 }
  function Hclen(bits: seq<nat>, p: nat): nat { Lsb(bits, p + 10, 4) + 4 }

  /** Where the run-length coded lengths start. */
  function ItemsStart(bits: seq<nat>, p: nat): nat { p + 14 + 3 * Hclen(bits, p) }

  /** The code they are written in. */
  predicate CodeOfHeader(bits: seq<nat>, p: nat, cl: seq<nat>) {
    Hclen(bits, p) <= 19 && cl == CodeLengths(bits, p + 14, Hclen(bits, p))
  }

  /** The items stand in the header at `p`, written in the code `cl`, and complete it at `q`. */
  ghost predicate ItemsOfHeader(bits: seq<nat>, p: nat, cl: seq<nat>, its: seq<Item>, q: nat) {
    && CodeOfHeader(bits, p, cl) && KraftOk(cl)
    && ItemsEnd(bits, ItemsStart(bits, p), cl, its) == q
    && RunsOk(its) && TotalRun(its) == Hlit(bits, p) + Hdist(bits, p)
  }

  /** The items form the header at `p` that ends at `q` and declares the codes `lit` and `dist`. */
  ghost predicate HeaderAt(bits: seq<nat>, p: nat, cl: seq<nat>, its: seq<Item>, lit: seq<nat>, dist: seq<nat>,
                           q: nat)
  {
    && ItemsOfHeader(bits, p, cl, its, q)
    && Lengths(its) == lit + dist && |lit| == Hlit(bits, p)
    && KraftOk(lit) && KraftOk(dist)
  }

  // ----------------------------------------------------- blocks and streams

  /** The codes of blocks with fixed Huffman codes. */
  function FixedLit(): (r: seq<nat>)
    ensures |r| == 288
  {
    seq(144, _ => 8) + seq(112, _ => 9) + seq(24, _ => 7) + seq(8, _ => 8)
  }

  function FixedDist(): (r: seq<nat>)
    ensures |r| == 32
  {
    seq(32, _ => 5)
  }

  datatype Block =
    | Stored(data: seq<Byte>)
    | Fixed(tokens: seq<Token>)
    | Dynamic(cl: seq<nat>, items: seq<Item>, lit: seq<nat>, dist: seq<nat>, m: nat, tokens: seq<Token>)

  /** The next byte boundary. */
  function Aligned(p: nat): nat { p + (8 - p % 8) % 8 }

  /** A stored block: alignment, length, complemented length, and the bytes themselves. */
  ghost predicate StoredAt(bits: seq<nat>, p: nat, data: seq<Byte>, q: nat) {
    var s := Aligned(p);
    && Lsb(bits, s, 16) == |data| && Lsb(bits, s + 16, 16) == 0xFFFF - |data|
    && q == s + 32 + 8 * |data| <= |bits|
    && forall i :: 0 <= i < |data| ==> data[i] == Lsb(bits, s + 32 + 8 * i, 8)
  }

  /** The block occupies the bits from its header bit at `p` to `q`. */
  ghost predicate StandsAt(bits: seq<nat>, p: nat, b: Block, q: nat) {
    match b
    case Stored(data) => Lsb(bits, p + 1, 2) == 0 && StoredAt(bits, p + 3, data, q)
    case Fixed(ts) => Lsb(bits, p + 1, 2) == 1 && BlockAt(bits, p + 3, FixedLit(), FixedDist(), ts, q)
    case Dynamic(cl, its, lit, dist, m, ts) =>
      Lsb(bits, p + 1, 2) == 2 && HeaderAt(bits, p + 3, cl, its, lit, dist, m) && BlockAt(bits, m, lit, dist, ts, q)
  }

  predicate BlockInReach(out: seq<Byte>, b: Block) {
    b.Stored? || AllInReach(out, b.tokens)
  }

  function Meaning(out: seq<Byte>, b: Block): seq<Byte>
    requires BlockInReach(out, b)
  {
    if b.Stored? then out + b.data else EmitAll(out, b.tokens)
  }

  /** A block of a stream, whether it is marked final, and where it ends. */
  datatype Placed = Placed(block: Block, final: bool, end: nat)

  ghost predicate PlacedAt(bits: seq<nat>, p: nat, b: Placed) {
    Lsb(bits, p, 1) == (if b.final then 1 else 0) && StandsAt(bits, p, b.block, b.end)
  }

  ghost function Placing(bits: seq<nat>): (nat, Placed) -> bool {
    (p: nat, b: Placed) => PlacedAt(bits, p, b)
  }

  function EndOf(p: nat, bs: seq<Placed>): nat {
    if bs == [] then p else bs[|bs| - 1].end
  }

  /** The blocks stand one after the other from `p` on, by the relation `at`. */
  ghost predicate Chain(at: (nat, Placed) -> bool, p: nat, bs: seq<Placed>) {
    bs == [] || (Chain(at, p, bs[..|bs| - 1]) && at(EndOf(p, bs[..|bs| - 1]), bs[|bs| - 1]))
  }

  ghost predicate NoneFinal(bs: seq<Placed>, n: nat)
    requires n <= |bs|
  {
    forall i :: 0 <= i < n ==> !bs[i].final
  }

  /** A complete stream: exactly the last block is marked final. */
  ghost predicate Stream(at: (nat, Placed) -> bool, p: nat, bs: seq<Placed>) {
    Chain(at, p, bs) && bs != [] && NoneFinal(bs, |bs| - 1) && bs[|bs| - 1].final
  }

  predicate StreamInReach(out: seq<Byte>, bs: seq<Placed>)
    decreases |bs|, 0
  {
    bs == [] || (
      var before := bs[..|bs| - 1];
      StreamInReach(out, before) && BlockInReach(StreamMeaning(out, before), bs[|bs| - 1].block))
  }

  /** The output after the blocks. */
  function StreamMeaning(out: seq<Byte>, bs: seq<Placed>): seq<Byte>
    requires StreamInReach(out, bs)
    decreases |bs|, 1
  {
    if bs == [] then out else Meaning(StreamMeaning(out, bs[..|bs| - 1]), bs[|bs| - 1].block)
  }

  // ---------------------------------------------------------- determinism

  lemma ItemUnique(bits: seq<nat>, p: nat, cl: seq<nat>, a: Item, b: Item)
    requires Binary(bits) && ItemEnd(bits, p, cl, a) >= 0 && ItemEnd(bits, p, cl, b) >= 0
    ensures a == b
  {
    SymbolUnique(bits, p, cl, a.sym, b.sym);
  }

  lemma {:induction false} ItemsPrefix(bits: seq<nat>, p: nat, cl: seq<nat>, its: seq<Item>, n: nat)
    requires n <= |its| && ItemsEnd(bits, p, cl, its) >= 0
    ensures 0 <= ItemsEnd(bits, p, cl, its[..n]) <= ItemsEnd(bits, p, cl, its)
    ensures TotalRun(its[..n]) <= TotalRun(its)
    ensures n < |its| ==> TotalRun(its[..n]) < TotalRun(its)
    ensures n < |its| ==> ItemEnd(bits, ItemsEnd(bits, p, cl, its[..n]), cl, its[n]) >= 0
    decreases |its|
  {
    if n == |its| {
      assert its[..n] == its;
    } else {
      var k := |its| - 1;
      ItemsPrefix(bits, p, cl, its[..k], n);
      assert its[..k][..n] == its[..n];
    }
  }

  /** Of two item lists at the same place, one continues the other. */
  lemma {:induction false} ItemsComparable(bits: seq<nat>, p: nat, cl: seq<nat>, a: seq<Item>, b: seq<Item>)
    requires Binary(bits) && ItemsEnd(bits, p, cl, a) >= 0 && ItemsEnd(bits, p, cl, b) >= 0
    requires |a| <= |b|
    ensures a <= b
    decreases |a|
  {
    if a != [] {
      var n := |a| - 1;
      ItemsComparable(bits, p, cl, a[..n], b);
      assert b[..n] == a[..n];
      ItemsPrefix(bits, p, cl, b, n);
      ItemUnique(bits, ItemsEnd(bits, p, cl, a[..n]), cl, a[n], b[n]);
      assert b[..n + 1] == a;
    }
  }

  /** The header at a position is determined by the bits. */
  lemma HeaderUnique(bits: seq<nat>, p: nat, cl: seq<nat>, its: seq<Item>, lit: seq<nat>, dist: seq<nat>, q: nat,
                     cl': seq<nat>, its': seq<Item>, lit': seq<nat>, dist': seq<nat>, q': nat)
    requires Binary(bits)
    requires HeaderAt(bits, p, cl, its, lit, dist, q) && HeaderAt(bits, p, cl', its', lit', dist', q')
    ensures cl == cl' && its == its' && lit == lit' && dist == dist' && q == q'
  {
    ItemsOfHeaderUnique(bits, p, cl, its, q, cl', its', q');
    assert (lit + dist)[..|lit|] == lit && (lit + dist)[|lit|..] == dist;
    assert (lit' + dist')[..|lit|] == lit' && (lit' + dist')[|lit|..] == dist';
  }

  lemma ItemsOfHeaderUnique(bits: seq<nat>, p: nat, cl: seq<nat>, its: seq<Item>, q: nat,
                            cl': seq<nat>, its': seq<Item>, q': nat)
    requires Binary(bits) && ItemsOfHeader(bits, p, cl, its, q) && ItemsOfHeader(bits, p, cl', its', q')
    ensures cl == cl' && its == its' && q == q'
  {
    SameTotal(bits, ItemsStart(bits, p), cl, its, its');
  }

  lemma SameTotal(bits: seq<nat>, p: nat, cl: seq<nat>, a: seq<Item>, b: seq<Item>)
    requires Binary(bits) && ItemsEnd(bits, p, cl, a) >= 0 && ItemsEnd(bits, p, cl, b) >= 0
    requires TotalRun(a) == TotalRun(b)
    ensures a == b
    decreases if |a| <= |b| then 0 else 1
  {
    if |a| <= |b| {
      ItemsComparable(bits, p, cl, a, b);
      assert b[..|a|] == a;
      ItemsPrefix(bits, p, cl, b, |a|);
    } else {
      SameTotal(bits, p, cl, b, a);
    }
  }

  lemma StoredUnique(bits: seq<nat>, p: nat, d: seq<Byte>, q: nat, d': seq<Byte>, q': nat)
    requires StoredAt(bits, p, d, q) && StoredAt(bits, p, d', q')
    ensures d == d' && q == q'
  {
  }

  lemma FixedUnique(bits: seq<nat>, p: nat, b: Block, q: nat, b': Block, q': nat)
    requires Binary(bits) && b.Fixed? && b'.Fixed?
    requires StandsAt(bits, p, b, q) && StandsAt(bits, p, b', q')
    ensures b == b' && q == q'
  {
    BlockUnique(bits, p + 3, FixedLit(), FixedDist(), b.tokens, q, b'.tokens, q');
  }

  lemma DynamicUnique(bits: seq<nat>, p: nat, b: Block, q: nat, b': Block, q': nat)
    requires Binary(bits) && b.Dynamic? && b'.Dynamic?
    requires StandsAt(bits, p, b, q) && StandsAt(bits, p, b', q')
    ensures b == b' && q == q'
  {
    HeaderUnique(bits, p + 3, b.cl, b.items, b.lit, b.dist, b.m, b'.cl, b'.items, b'.lit, b'.dist, b'.m);
    BlockUnique(bits, b.m, b.lit, b.dist, b.tokens, q, b'.tokens, q');
  }

  /** The type bits of the block at `p`. */
  function Kind(b: Block): nat {
    match b case Stored(_) => 0 case Fixed(_) => 1 case Dynamic(_, _, _, _, _, _) => 2
  }

  lemma StandsKind(bits: seq<nat>, p: nat, b: Block, q: nat)
    requires StandsAt(bits, p, b, q)
    ensures Lsb(bits, p + 1, 2) == Kind(b)
  {
  }

  /** The block at a position is determined by the bits. */
  lemma StandsUnique(bits: seq<nat>, p: nat, b: Block, q: nat, b': Block, q': nat)
    requires Binary(bits) && StandsAt(bits, p, b, q) && StandsAt(bits, p, b', q')
    ensures b == b' && q == q'
  {
    StandsKind(bits, p, b, q);
    StandsKind(bits, p, b', q');
    if b.Fixed? {
      FixedUnique(bits, p, b, q, b', q');
    } else if b.Dynamic? {
      DynamicUnique(bits, p, b, q, b', q');
    } else {
      StoredUnique(bits, p + 3, b.data, q, b'.data, q');
    }
  }

  lemma PlacedUnique(bits: seq<nat>, p: nat, a: Placed, b: Placed)
    requires Binary(bits) && PlacedAt(bits, p, a) && PlacedAt(bits, p, b)
    ensures a == b
  {
    StandsUnique(bits, p, a.block, a.end, b.block, b.end);
  }

  ghost predicate Deterministic(at: (nat, Placed) -> bool) {
    forall p, a, b :: at(p, a) && at(p, b) ==> a == b
  }

  lemma PlacingDeterministic(bits: seq<nat>)
    requires Binary(bits)
    ensures Deterministic(Placing(bits))
  {
    forall p, a, b | Placing(bits)(p, a) && Placing(bits)(p, b) ensures a == b { PlacedUnique(bits, p, a, b); }
  }

  lemma {:induction false} ChainPrefix(at: (nat, Placed) -> bool, p: nat, bs: seq<Placed>, n: nat)
    requires n <= |bs| && Chain(at, p, bs)
    ensures Chain(at, p, bs[..n])
    ensures n < |bs| ==> at(EndOf(p, bs[..n]), bs[n])
    decreases |bs|
  {
    if n == |bs| {
      assert bs[..n] == bs;
    } else {
      var k := |bs| - 1;
      ChainPrefix(at, p, bs[..k], n);
      assert bs[..k][..n] == bs[..n];
    }
  }

  /** Of two chains at the same place, one continues the other. */
  lemma {:induction false} ChainsComparable(at: (nat, Placed) -> bool, p: nat, a: seq<Placed>, b: seq<Placed>)
    requires Deterministic(at) && Chain(at, p, a) && Chain(at, p, b) && |a| <= |b|
    ensures a <= b
    decreases |a|
  {
    if a != [] {
      var n := |a| - 1;
      ChainsComparable(at, p, a[..n], b);
      assert b[..n] == a[..n];
      ChainPrefix(at, p, b, n);
      assert b[..n + 1] == a[..n] + [a[n]] == a;
    }
  }

  /** The stream at a position, and so the decompressed data, is determined by the bits. */
  lemma StreamUnique(bits: seq<nat>, p: nat, a: seq<Placed>, b: seq<Placed>)
    requires Binary(bits) && Stream(Placing(bits), p, a) && Stream(Placing(bits), p, b)
    ensures a == b
  {
    PlacingDeterministic(bits);
    UniqueChain(Placing(bits), p, a, b);
  }

  lemma UniqueChain(at: (nat, Placed) -> bool, p: nat, a: seq<Placed>, b: seq<Placed>)
    requires Deterministic(at) && Stream(at, p, a) && Stream(at, p, b)
    ensures a == b
    decreases if |a| <= |b| then 0 else 1
  {
    if |a| <= |b| {
      ChainsComparable(at, p, a, b);
      assert b[|a| - 1] == a[|a| - 1];
    } else {
      UniqueChain(at, p, b, a);
    }
  }
}
