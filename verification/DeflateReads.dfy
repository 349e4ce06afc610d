/** What reading the parts of a stream does to the bit reader. */
module DeflateReads {
  // It stands where the part ends, unless it is exhausted, and nothing inside the input exhausts it.

  import opened BitBuffer
  import opened Deflate
  import opened DeflateStream

  function CodeLength(lens: seq<nat>, v: nat): nat { if v < |lens| then lens[v] else 0 }

  function TokenRead(size: nat, r: Reader, lit: seq<nat>, dist: seq<nat>, t: Token): Reader {
    match t
    case Literal(b) => Decoded(r, size, CodeLength(lit, b))
    case Match(ls, _, ds, _) =>
      if !Known(t) then Exhausted
      else
        var r2 := Received(Decoded(r, size, CodeLength(lit, ls)), LengthExtra(ls));
        Received(Decoded(r2, size, CodeLength(dist, ds)), DistExtra(ds))
  }

  function TokensRead(size: nat, r: Reader, lit: seq<nat>, dist: seq<nat>, ts: seq<Token>): Reader {
    if ts == [] then r
    else TokenRead(size, TokensRead(size, r, lit, dist, ts[..|ts| - 1]), lit, dist, ts[|ts| - 1])
  }

  /** After the end marker, if it passes the test there. */
  function MarkerRead(size: nat, r: Reader, lit: seq<nat>): Reader {
    var e := Decoded(r, size, CodeLength(lit, END_OF_BLOCK));
    if Overdrawn(e) then Exhausted else e
  }

  function BlockRead(size: nat, r: Reader, lit: seq<nat>, dist: seq<nat>, ts: seq<Token>): Reader {
    MarkerRead(size, TokensRead(size, r, lit, dist, ts), lit)
  }

  function CountsRead(r: Reader): Reader { Received(Received(Received(r, 5), 5), 4) }

  function LengthsRead(r: Reader, n: nat): Reader {
    if n == 0 then r else Received(LengthsRead(r, n - 1), 3)
  }

  function ItemRead(size: nat, r: Reader, cl: seq<nat>, it: Item): Reader {
    Received(Decoded(r, size, CodeLength(cl, it.sym)), ItemExtra(it.sym))
  }

  function ItemsRead(size: nat, r: Reader, cl: seq<nat>, its: seq<Item>): Reader {
    if its == [] then r else ItemRead(size, ItemsRead(size, r, cl, its[..|its| - 1]), cl, its[|its| - 1])
  }

  /** After the code length code of the header at the reader's place. */
  function CodeRead(bits: seq<nat>, r: Reader): Reader {
    if r.Exhausted? then r else LengthsRead(CountsRead(r), Hclen(bits, r.at))
  }

  function HeaderRead(bits: seq<nat>, r: Reader, cl: seq<nat>, its: seq<Item>): Reader {
    ItemsRead(|bits|, CodeRead(bits, r), cl, its)
  }

  /** After the block that ends at `q`, whose three header bits have been read. */
  function BodyRead(bits: seq<nat>, r: Reader, b: Block, q: nat): Reader {
    match b
    case Stored(_) => if r.Exhausted? then r else Live(q, q, false)
    case Fixed(ts) => BlockRead(|bits|, r, FixedLit(), FixedDist(), ts)
    case Dynamic(cl, its, lit, dist, _, ts) => BlockRead(|bits|, HeaderRead(bits, r, cl, its), lit, dist, ts)
  }

  function TypeRead(r: Reader): Reader { Received(Received(r, 1), 2) }

  function PlacedRead(bits: seq<nat>, r: Reader, b: Placed): Reader { BodyRead(bits, TypeRead(r), b.block, b.end) }

  ghost function Reading(bits: seq<nat>): (Reader, Placed) -> Reader {
    (r: Reader, b: Placed) => PlacedRead(bits, r, b)
  }

  /** After the blocks, by the function `read`. */
  function StreamRead(read: (Reader, Placed) -> Reader, r: Reader, bs: seq<Placed>): Reader {
    if bs == [] then r else read(StreamRead(read, r, bs[..|bs| - 1]), bs[|bs| - 1])
  }

  // ------------------------------------------------ an exhausted reader stays so

  lemma {:induction false} TokensStayExhausted(size: nat, r: Reader, lit: seq<nat>, dist: seq<nat>, us: seq<Token>,
                                               n: nat)
    requires n <= |us| && TokensRead(size, r, lit, dist, us[..n]).Exhausted?
    ensures TokensRead(size, r, lit, dist, us).Exhausted?
    decreases |us|
  {
    if n == |us| {
      assert us[..n] == us;
    } else {
      assert us[..|us| - 1][..n] == us[..n];
      TokensStayExhausted(size, r, lit, dist, us[..|us| - 1], n);
    }
  }

  lemma {:induction false} ItemsStayExhausted(size: nat, r: Reader, cl: seq<nat>, us: seq<Item>, n: nat)
    requires n <= |us| && ItemsRead(size, r, cl, us[..n]).Exhausted?
    ensures ItemsRead(size, r, cl, us).Exhausted?
    decreases |us|
  {
    if n == |us| {
      assert us[..n] == us;
    } else {
      assert us[..|us| - 1][..n] == us[..n];
      ItemsStayExhausted(size, r, cl, us[..|us| - 1], n);
    }
  }

  ghost predicate StaysExhausted(read: (Reader, Placed) -> Reader) {
    forall b :: read(Exhausted, b).Exhausted?
  }

  lemma ReadingStaysExhausted(bits: seq<nat>)
    ensures StaysExhausted(Reading(bits))
  {
    forall b ensures Reading(bits)(Exhausted, b).Exhausted? { BodyStaysExhausted(bits, b.block, b.end); }
  }

  lemma BodyStaysExhausted(bits: seq<nat>, b: Block, q: nat)
    ensures BodyRead(bits, Exhausted, b, q).Exhausted?
  {
    match b
    case Stored(_) =>
    case Fixed(ts) => TokensStayExhausted(|bits|, Exhausted, FixedLit(), FixedDist(), ts, 0);
    case Dynamic(cl, its, lit, dist, _, ts) =>
      ItemsStayExhausted(|bits|, Exhausted, cl, its, 0);
      TokensStayExhausted(|bits|, Exhausted, lit, dist, ts, 0);
  }

  lemma {:induction false} StreamStaysExhausted(read: (Reader, Placed) -> Reader, r: Reader, bs: seq<Placed>, n: nat)
    requires StaysExhausted(read) && n <= |bs| && StreamRead(read, r, bs[..n]).Exhausted?
    ensures StreamRead(read, r, bs).Exhausted?
    decreases |bs|
  {
    if n == |bs| {
      assert bs[..n] == bs;
    } else {
      assert bs[..|bs| - 1][..n] == bs[..n];
      StreamStaysExhausted(read, r, bs[..|bs| - 1], n);
    }
  }

  // ------------------------------------------------ where the reader stands

  /** The reader stands at `q` unless it is exhausted, which it is not inside the input. */
  ghost predicate Follows(r: Reader, size: nat, q: int) {
    ReaderOk(r, size) && (r.Live? ==> r.at == q) && (r.Exhausted? ==> q > size)
  }

  lemma TokenFollows(bits: seq<nat>, r: Reader, lit: seq<nat>, dist: seq<nat>, t: Token)
    requires r.Live? && ReaderOk(r, |bits|) && TokenEnd(bits, r.at, lit, dist, t) >= 0
    ensures Follows(TokenRead(|bits|, r, lit, dist, t), |bits|, TokenEnd(bits, r.at, lit, dist, t))
  {
    match t
    case Literal(b) => DecodedOk(r, |bits|, lit[b]);
    case Match(ls, _, ds, _) =>
      var r1 := Decoded(r, |bits|, lit[ls]);
      var r2 := Received(r1, LengthExtra(ls));
      DecodedOk(r, |bits|, lit[ls]);
      ReceivedOk(r1, |bits|, LengthExtra(ls));
      DecodedOk(r2, |bits|, dist[ds]);
      ReceivedOk(Decoded(r2, |bits|, dist[ds]), |bits|, DistExtra(ds));
  }

  lemma {:induction false} TokensFollow(bits: seq<nat>, r: Reader, lit: seq<nat>, dist: seq<nat>, ts: seq<Token>)
    requires r.Live? && ReaderOk(r, |bits|) && TokensEnd(bits, r.at, lit, dist, ts) >= 0
    ensures Follows(TokensRead(|bits|, r, lit, dist, ts), |bits|, TokensEnd(bits, r.at, lit, dist, ts))
    decreases |ts|
  {
    if ts != [] {
      var n := |ts| - 1;
      TokensPrefix(bits, r.at, lit, dist, ts, n);
      TokensFollow(bits, r, lit, dist, ts[..n]);
      var e := TokensRead(|bits|, r, lit, dist, ts[..n]);
      if e.Live? { TokenFollows(bits, e, lit, dist, ts[n]); }
    }
  }

  lemma BlockFollows(bits: seq<nat>, r: Reader, lit: seq<nat>, dist: seq<nat>, ts: seq<Token>, q: nat)
    requires r.Live? && ReaderOk(r, |bits|) && BlockAt(bits, r.at, lit, dist, ts, q)
    ensures Follows(BlockRead(|bits|, r, lit, dist, ts), |bits|, q)
  {
    TokensFollow(bits, r, lit, dist, ts);
    var e := TokensRead(|bits|, r, lit, dist, ts);
    DecodedOk(e, |bits|, lit[END_OF_BLOCK]);
    if Decoded(e, |bits|, lit[END_OF_BLOCK]).Live? { MarkerRejected(Decoded(e, |bits|, lit[END_OF_BLOCK]), |bits|); }
  }

  lemma {:induction false} LengthsFollow(r: Reader, size: nat, n: nat)
    requires r.Live? && ReaderOk(r, size)
    ensures LengthsRead(r, n).Live? && Follows(LengthsRead(r, n), size, r.at + 3 * n)
    decreases n
  {
    if n > 0 {
      LengthsFollow(r, size, n - 1);
      ReceivedOk(LengthsRead(r, n - 1), size, 3);
    }
  }

  lemma CodeFollows(bits: seq<nat>, r: Reader)
    requires r.Live? && ReaderOk(r, |bits|)
    ensures CodeRead(bits, r).Live? && Follows(CodeRead(bits, r), |bits|, ItemsStart(bits, r.at))
  {
    ReceivedOk(r, |bits|, 5);
    ReceivedOk(Received(r, 5), |bits|, 5);
    ReceivedOk(Received(Received(r, 5), 5), |bits|, 4);
    LengthsFollow(CountsRead(r), |bits|, Hclen(bits, r.at));
  }

  lemma {:induction false} ItemsFollow(bits: seq<nat>, r: Reader, cl: seq<nat>, its: seq<Item>)
    requires r.Live? && ReaderOk(r, |bits|) && ItemsEnd(bits, r.at, cl, its) >= 0
    ensures Follows(ItemsRead(|bits|, r, cl, its), |bits|, ItemsEnd(bits, r.at, cl, its))
    decreases |its|
  {
    if its != [] {
      var n := |its| - 1;
      ItemsPrefix(bits, r.at, cl, its, n);
      ItemsFollow(bits, r, cl, its[..n]);
      var e, it := ItemsRead(|bits|, r, cl, its[..n]), its[n];
      DecodedOk(e, |bits|, cl[it.sym]);
      ReceivedOk(Decoded(e, |bits|, cl[it.sym]), |bits|, ItemExtra(it.sym));
    }
  }

  lemma TypeFollows(bits: seq<nat>, r: Reader)
    requires r.Live? && ReaderOk(r, |bits|)
    ensures TypeRead(r).Live? && Follows(TypeRead(r), |bits|, r.at + 3)
  {
    ReceivedOk(r, |bits|, 1);
    ReceivedOk(Received(r, 1), |bits|, 2);
  }

  /** After a block the reader stands at its end or is exhausted, and a block inside the input never exhausts it. */
  lemma PlacedFollows(bits: seq<nat>, r: Reader, b: Placed)
    requires r.Live? && ReaderOk(r, |bits|) && PlacedAt(bits, r.at, b)
    ensures Follows(PlacedRead(bits, r, b), |bits|, b.end)
  {
    TypeFollows(bits, r);
    var h := TypeRead(r);
    match b.block
    case Stored(_) =>
    case Fixed(ts) => BlockFollows(bits, h, FixedLit(), FixedDist(), ts, b.end);
    case Dynamic(cl, its, lit, dist, m, ts) =>
      CodeFollows(bits, h);
      TokensPrefix(bits, m, lit, dist, ts, 0);
      ItemsFollow(bits, CodeRead(bits, h), cl, its);
      var e := HeaderRead(bits, h, cl, its);
      if e.Live? {
        BlockFollows(bits, e, lit, dist, ts, b.end);
      } else {
        TokensStayExhausted(|bits|, e, lit, dist, ts, 0);
      }
  }

  /** The end marker of a block, once decoded, is rejected exactly when more bits were delivered than the
      input has and were filled in for missing bytes; the 16 zero bits added once do not count. */
  lemma MarkerReadRejected(bits: seq<nat>, r: Reader, lit: seq<nat>)
    requires ReaderOk(r, |bits|) && CodeLength(lit, END_OF_BLOCK) <= 16
    requires Decoded(r, |bits|, CodeLength(lit, END_OF_BLOCK)).Live?
    ensures var e := Decoded(r, |bits|, CodeLength(lit, END_OF_BLOCK));
            MarkerRead(|bits|, r, lit).Exhausted? <==> e.at > |bits| + Fill(e, |bits|)
  {
    var e := Decoded(r, |bits|, CodeLength(lit, END_OF_BLOCK));
    DecodedOk(r, |bits|, CodeLength(lit, END_OF_BLOCK));
    MarkerRejected(e, |bits|);
  }
}
