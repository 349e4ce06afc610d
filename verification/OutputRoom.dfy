/** When the output of a stream fits the buffer: the answer that there is no room is never given without need. */
module OutputRoom {
  import opened BitStream
  import opened BitBuffer
  import opened Deflate
  import opened DeflateStream
  import opened DeflateReads
  import opened Inflate
  import opened InflateStream

  // ----------------------------------------------------- outputs only grow

  lemma {:induction false} EmitGrows(out: seq<Byte>, us: seq<Token>, n: nat)
    requires n <= |us| && AllInReach(out, us)
    ensures AllInReach(out, us[..n]) && |EmitAll(out, us[..n])| <= |EmitAll(out, us)|
    decreases |us|
  {
    if n == |us| {
      assert us[..n] == us;
    } else {
      EmitGrows(out, us[..|us| - 1], n);
      assert us[..|us| - 1][..n] == us[..n];
    }
  }

  lemma MeaningGrows(out: seq<Byte>, b: Block)
    requires BlockInReach(out, b)
    ensures |out| <= |Meaning(out, b)|
  {
    if !b.Stored? {
      EmitGrows(out, b.tokens, 0);
      assert b.tokens[..0] == [];
    }
  }

  lemma {:induction false} StreamGrows(out: seq<Byte>, cs: seq<Placed>, n: nat)
    requires n <= |cs| && StreamInReach(out, cs)
    ensures StreamInReach(out, cs[..n]) && |StreamMeaning(out, cs[..n])| <= |StreamMeaning(out, cs)|
    decreases |cs|
  {
    if n == |cs| {
      assert cs[..n] == cs;
    } else {
      var last := |cs| - 1;
      StreamGrows(out, cs[..last], n);
      assert cs[..last][..n] == cs[..n];
      MeaningGrows(StreamMeaning(out, cs[..last]), cs[last].block);
    }
  }

  // ------------------------------------------------ what overflows is too large

  /** Tokens that overflow are the start of the one block there. */
  lemma TokensTooLarge(bits: seq<nat>, r: Reader, lit: seq<nat>, dist: seq<nat>, out: seq<Byte>, cap: nat,
                       us: seq<Token>, q: nat)
    requires Binary(bits) && Overflows(bits, r, lit, dist, out, cap)
    requires BlockAt(bits, r.at, lit, dist, us, q) && AllInReach(out, us)
    ensures |EmitAll(out, us)| > cap
  {
    var ts :| TokensEnd(bits, r.at, lit, dist, ts) >= 0 && AllInReach(out, ts) && |EmitAll(out, ts)| > cap;
    TokensForced(bits, r.at, lit, dist, ts, us, q);
    assert us[..|ts|] == ts;
    EmitGrows(out, us, |ts|);
  }

  lemma BodyTooLarge(bits: seq<nat>, p: nat, h: Reader, out: seq<Byte>, cap: nat, b: Block, q: nat)
    requires Binary(bits) && h.Live? && h.at == p + 3 && BodyOverflows(bits, p, h, out, cap)
    requires StandsAt(bits, p, b, q) && BlockInReach(out, b)
    ensures |Meaning(out, b)| > cap
  {
    StandsKind(bits, p, b, q);
    match b
    case Stored(data) =>
      var d, q': nat :| StoredAt(bits, p + 3, d, q') && |out| + |d| > cap;
      StoredUnique(bits, p + 3, data, q, d, q');
    case Fixed(us) => TokensTooLarge(bits, h, FixedLit(), FixedDist(), out, cap, us, q);
    case Dynamic(cl, its, lit, dist, m, us) => DynamicTooLarge(bits, p, h, out, cap, b, q);
  }

  lemma DynamicTooLarge(bits: seq<nat>, p: nat, h: Reader, out: seq<Byte>, cap: nat, b: Block, q: nat)
    requires Binary(bits) && DynamicOverflows(bits, p, h, out, cap)
    requires b.Dynamic? && StandsAt(bits, p, b, q) && BlockInReach(out, b)
    ensures |Meaning(out, b)| > cap
  {
    var c: Block :| c.Dynamic? && OverflowsBehind(bits, p, h, c, out, cap);
    HeaderUnique(bits, p + 3, b.cl, b.items, b.lit, b.dist, b.m, c.cl, c.items, c.lit, c.dist, c.m);
    TokensTooLarge(bits, HeaderRead(bits, h, c.cl, c.items), c.lit, c.dist, out, cap, b.tokens, q);
  }

  /** If the blocks that can be read overflow, every stream there is too large. */
  lemma StreamTooLarge(bits: seq<nat>, r: Reader, out: seq<Byte>, cap: nat, cs: seq<Placed>)
    requires Binary(bits) && ReaderOk(r, |bits|) && StreamOverflows(bits, r, out, cap)
    requires Stream(Placing(bits), r.at, cs) && StreamInReach(out, cs)
    ensures |StreamMeaning(out, cs)| > cap
  {
    var bs, m: Reader, now :|
      && m.Live? && m == StreamRead(Reading(bits), r, bs) && Unfinished(Placing(bits), r.at, bs, m.at, out, now)
      && BodyOverflows(bits, m.at, TypeRead(m), now, cap);
    PlacingDeterministic(bits);
    StreamExtends(Placing(bits), r.at, bs, cs);
    StreamReachPrefix(out, cs, |bs|);
    NextTooLarge(bits, m, now, cap, cs[|bs|]);
    assert cs[..|bs| + 1][..|bs|] == bs && cs[..|bs| + 1][|bs|] == cs[|bs|];
    StreamGrows(out, cs, |bs| + 1);
  }

  lemma NextTooLarge(bits: seq<nat>, m: Reader, now: seq<Byte>, cap: nat, b: Placed)
    requires Binary(bits) && m.Live? && BodyOverflows(bits, m.at, TypeRead(m), now, cap)
    requires PlacedAt(bits, m.at, b) && BlockInReach(now, b.block)
    ensures |Meaning(now, b.block)| > cap
  {
    BodyTooLarge(bits, m.at, TypeRead(m), now, cap, b.block, b.end);
  }

  /** If no allocation fails, an accepted stream is decompressed exactly if its output fits the largest size that
      the buffer can reach by doubling. */
  lemma RoomDecides(data: seq<Byte>, parse_header: bool, st: Status, out: seq<Byte>, cap: nat, bs: seq<Placed>)
    requires Answer(data, parse_header, st, out) && Fits(data, parse_header, st, out, cap)
    requires Accepted(data, parse_header, bs)
    ensures st != Corrupt && (st == Done <==> |StreamMeaning([], bs)| <= cap)
  {
    InputBitsAreBits(data);
    if st == NoRoom {
      StreamTooLarge(InputBits(data), StartReader(parse_header), [], cap, bs);
    } else if st == Done {
      var cs :| Accepted(data, parse_header, cs) && out == StreamMeaning([], cs);
      StreamUnique(InputBits(data), StartReader(parse_header).at, bs, cs);
    }
  }
}
