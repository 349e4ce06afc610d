/** Expanding compressed blocks into a growing output buffer. */
module Inflate {
  import opened BitStream
  import opened BitBuffer
  import opened InflateReader
  import opened Deflate
  import opened DeflateReads

  const UINT_MAX := 0xFFFF_FFFF

  /** Success, an error in the data, or no room for the output. */
  datatype Status = Done | Corrupt | NoRoom

  /** The largest size that a buffer of `n` bytes reaches by doubling. */
  function Cap(n: nat): (r: nat)
    requires 0 < n <= UINT_MAX
    ensures n <= r <= UINT_MAX < 2 * r
    decreases UINT_MAX - n
  {
    if n > UINT_MAX / 2 then n else Cap(2 * n)
  }

  ghost predicate OutOk(a: ZBuf)
    reads a
  {
    a.zout <= a.out.Length && 0 < a.out.Length <= UINT_MAX && a.cap == Cap(a.out.Length)
  }

  /** The buffer can grow up to its largest size: it may, and no allocation fails. */
  ghost predicate Growing(a: ZBuf) { a.expandable && a.memory }

  /** The bytes produced so far. */
  ghost function Contents(a: ZBuf): seq<Byte>
    reads a, a.out
    requires OutOk(a)
  {
    a.out[..a.zout]
  }

  // --------------------------------------------------------------- output

  /** Doubles the buffer until `n` more bytes fit, keeping the bytes produced so far. Unless memory runs out, this
      fails only if they do not fit the largest size. */
  method Zexpand(a: ZBuf, n: nat) returns (st: Status)
    requires OutOk(a)
    modifies a`out
    ensures OutOk(a) && Contents(a) == old(Contents(a))
    ensures st == Done ==> a.zout + n <= a.out.Length && fresh(a.out)
    ensures st != Done ==> st == NoRoom && a.out == old(a.out)
    ensures Growing(a) && st != Done ==> a.zout + n > a.cap
  {
    if !a.expandable { return NoRoom; }
    var limit := a.out.Length;
    if UINT_MAX - a.zout < n { return NoRoom; }
    while a.zout + n > limit
      invariant a.out.Length <= limit <= UINT_MAX && a.cap == Cap(limit)
      decreases a.zout + n - limit
    {
      if limit > UINT_MAX / 2 { return NoRoom; }
      limit := limit * 2;
    }
    if !a.memory {
      if * { return NoRoom; }     // realloc may fail
    }
    var q := new Byte[limit];
    forall i | 0 <= i < a.out.Length { q[i] := a.out[i]; }
    a.out := q;
    return Done;
  }

  method PutByte(a: ZBuf, b: Byte) returns (st: Status)
    requires OutOk(a)
    modifies a`out, a`zout, a.out
    ensures OutOk(a) && (a.out == old(a.out) || fresh(a.out))
    ensures st != Corrupt && (Growing(a) && st == NoRoom ==> |old(Contents(a))| + 1 > a.cap)
    ensures st == Done ==> Contents(a) == old(Contents(a)) + [b]
  {
    st := Done;
    if a.zout >= a.out.Length {
      st := Zexpand(a, 1);
      if st != Done { return; }
    }
    a.out[a.zout] := b;
    a.zout := a.zout + 1;
  }

  /** Copies a match byte by byte; a distance of one repeats a single byte. */
  method CopyMatch(a: ZBuf, len: nat, dist: nat)
    requires OutOk(a) && 0 < dist <= a.zout && a.zout + len <= a.out.Length
    modifies a`zout, a.out
    ensures OutOk(a) && Contents(a) == Copy(old(Contents(a)), len, dist)
  {
    ghost var before := Contents(a);
    var start := a.zout;
    var k := 0;
    if dist == 1 {
      var v := a.out[a.zout - 1];
      while k < len
        invariant k <= len && a.zout == start + k && a.out[a.zout - 1] == v
        invariant a.out[..a.zout] == Copy(before, k, dist)
      {
        a.out[a.zout] := v;
        a.zout := a.zout + 1;
        k := k + 1;
      }
    } else {
      while k < len
        invariant k <= len && a.zout == start + k
        invariant a.out[..a.zout] == Copy(before, k, dist)
      {
        a.out[a.zout] := a.out[a.zout - dist];
        a.zout := a.zout + 1;
        k := k + 1;
      }
    }
  }

  method PutMatch(a: ZBuf, len: nat, dist: nat) returns (st: Status)
    requires OutOk(a) && 0 < dist <= a.zout
    modifies a`out, a`zout, a.out
    ensures OutOk(a) && (a.out == old(a.out) || fresh(a.out))
    ensures st != Corrupt && (Growing(a) && st == NoRoom ==> |old(Contents(a))| + len > a.cap)
    ensures st == Done ==> Contents(a) == Copy(old(Contents(a)), len, dist)
  {
    st := Done;
    if len > a.out.Length - a.zout {
      st := Zexpand(a, len);
      if st != Done { return; }
    }
    CopyMatch(a, len, dist);
  }

  // --------------------------------------------------------------- tokens

  /** What stands at the reading position: a token, the end of the block, or nothing valid. */
  datatype Read = Tok(t: Token) | End | Bad

  /** No token and no end of block lies where the reader stands, or reading it exhausts the reader. */
  ghost predicate Stuck(bits: seq<nat>, r: Reader, lit: seq<nat>, dist: seq<nat>) {
    && r.Live?
    && (forall t :: TokenEnd(bits, r.at, lit, dist, t) >= 0 ==> TokenRead(|bits|, r, lit, dist, t).Exhausted?)
    && (SymbolAt(bits, r.at, lit, END_OF_BLOCK) ==> Refilled(r, |bits|).Exhausted?)
  }

  /** Reads one literal, match or end-of-block symbol. */
  method ReadToken(a: ZBuf, ghost lit: seq<nat>, ghost dist: seq<nat>) returns (r: Read)
    requires a.BitsOk() && a.z_length.Encodes(lit) && a.z_distance.Encodes(dist)
    modifies a`pos, a`num_bits, a`code_buffer, a`fill, a`hit_zeof_once, a`consumed
    ensures a.BitsOk() && a.ReaderMoved()
    ensures r.Tok? ==> TokenEnd(a.bits, old(a.consumed), lit, dist, r.t) == a.consumed
    ensures r.Tok? ==> a.View() == TokenRead(|a.bits|, old(a.View()), lit, dist, r.t)
    ensures r.End? ==> SymbolAt(a.bits, old(a.consumed), lit, END_OF_BLOCK)
                       && a.consumed == old(a.consumed) + lit[END_OF_BLOCK]
    ensures r.End? ==> a.View() == Decoded(old(a.View()), |a.bits|, lit[END_OF_BLOCK])
    ensures r.Bad? ==> Stuck(a.bits, old(a.View()), lit, dist)
  {
    ghost var v := a.View();
    var z := a.Decode(a.z_length, lit);
    if z < 0 {
      StuckHere(a.bits, v, lit, dist);
      return Bad;
    }
    if z < 256 { return Tok(Literal(z)); }
    if z == END_OF_BLOCK { return End; }
    if z >= 286 {
      OnlySymbol(a.bits, v, lit, dist, z);
      return Bad;
    }
    r := ReadMatch(a, z, v, lit, dist);
  }

  /** Reads the rest of a match after its length symbol; the reader was `v` before it. */
  method ReadMatch(a: ZBuf, ls: nat, ghost v: Reader, ghost lit: seq<nat>, ghost dist: seq<nat>) returns (r: Read)
    requires a.BitsOk() && a.z_distance.Encodes(dist) && v.Live?
    requires 257 <= ls < 286 && SymbolAt(a.bits, v.at, lit, ls) && a.consumed == v.at + lit[ls]
    requires a.View() == Decoded(v, |a.bits|, lit[ls])
    modifies a`pos, a`num_bits, a`code_buffer, a`fill, a`hit_zeof_once, a`consumed
    ensures a.BitsOk() && a.ReaderMoved()
    ensures r.Tok? ==> TokenEnd(a.bits, v.at, lit, dist, r.t) == a.consumed
    ensures r.Tok? ==> a.View() == TokenRead(|a.bits|, v, lit, dist, r.t)
    ensures !r.Tok? ==> r.Bad? && Stuck(a.bits, v, lit, dist)
  {
    var le := ReadLengthExtra(a, ls);
    ghost var v2 := a.View();
    var ds, de := ReadDistance(a, dist);
    if ds < 0 || ds >= 30 {
      StuckAtDistance(a.bits, v, lit, dist, ls, v2, ds);
      r := Bad;
    } else {
      r := Tok(Match(ls, le, ds, de));
      assert TokenEnd(a.bits, v.at, lit, dist, r.t) == a.consumed by {
        MatchEnd(a.bits, v.at, lit, dist, r.t, v2.at);
      }
    }
  }

  method ReadDistance(a: ZBuf, ghost dist: seq<nat>) returns (ds: int, de: nat)
    requires a.BitsOk() && a.z_distance.Encodes(dist)
    modifies a`pos, a`num_bits, a`code_buffer, a`fill, a`hit_zeof_once, a`consumed
    ensures a.BitsOk() && a.ReaderMoved()
    ensures ds < 0 ==> NoSymbolAt(a.bits, old(a.consumed), dist) || Refilled(old(a.View()), |a.bits|).Exhausted?
    ensures ds >= 0 ==> SymbolAt(a.bits, old(a.consumed), dist, ds)
    ensures 0 <= ds < 30 ==>
      && de == Lsb(a.bits, old(a.consumed) + dist[ds], DistExtra(ds))
      && a.consumed == old(a.consumed) + dist[ds] + DistExtra(ds)
      && a.View() == Received(Decoded(old(a.View()), |a.bits|, dist[ds]), DistExtra(ds))
  {
    de := 0;
    ds := a.Decode(a.z_distance, dist);
    if ds < 0 || ds >= 30 { return; }
    de := ReadDistExtra(a, ds);
  }

  lemma MatchEnd(bits: seq<nat>, p: nat, lit: seq<nat>, dist: seq<nat>, t: Token, p2: nat)
    requires t.Match? && Known(t) && SymbolAt(bits, p, lit, t.lsym)
    requires t.lextra == Lsb(bits, p + lit[t.lsym], LengthExtra(t.lsym))
    requires p2 == p + lit[t.lsym] + LengthExtra(t.lsym) && SymbolAt(bits, p2, dist, t.dsym)
    requires t.dextra == Lsb(bits, p2 + dist[t.dsym], DistExtra(t.dsym))
    ensures TokenEnd(bits, p, lit, dist, t) == p2 + dist[t.dsym] + DistExtra(t.dsym)
  {
  }

  /** Extra bits are read only where the symbol has any. */
  method ReadLengthExtra(a: ZBuf, ls: nat) returns (k: nat)
    requires a.BitsOk() && 257 <= ls < 286
    modifies a`pos, a`num_bits, a`code_buffer, a`fill, a`consumed
    ensures a.BitsOk() && a.ReaderMoved()
    ensures k == Lsb(a.bits, old(a.consumed), LengthExtra(ls)) && a.consumed == old(a.consumed) + LengthExtra(ls)
    ensures a.View() == Received(old(a.View()), LengthExtra(ls))
  {
    ExtraTables(ls - 257);
    k := 0;
    if LENGTH_EXTRA[ls - 257] > 0 { k := a.Receive(LENGTH_EXTRA[ls - 257]); }
  }

  method ReadDistExtra(a: ZBuf, ds: nat) returns (k: nat)
    requires a.BitsOk() && ds < 30
    modifies a`pos, a`num_bits, a`code_buffer, a`fill, a`consumed
    ensures a.BitsOk() && a.ReaderMoved()
    ensures k == Lsb(a.bits, old(a.consumed), DistExtra(ds)) && a.consumed == old(a.consumed) + DistExtra(ds)
    ensures a.View() == Received(old(a.View()), DistExtra(ds))
  {
    ExtraTables(ds);
    k := 0;
    if DIST_EXTRA[ds] > 0 { k := a.Receive(DIST_EXTRA[ds]); }
  }

  lemma StuckHere(bits: seq<nat>, r: Reader, lit: seq<nat>, dist: seq<nat>)
    requires r.Live? && (NoSymbolAt(bits, r.at, lit) || Refilled(r, |bits|).Exhausted?)
    ensures Stuck(bits, r, lit, dist)
  {
  }

  /** A symbol that is neither a literal, nor a length, nor the end leaves nothing valid there. */
  lemma OnlySymbol(bits: seq<nat>, r: Reader, lit: seq<nat>, dist: seq<nat>, z: nat)
    requires Binary(bits) && r.Live? && z >= 286 && SymbolAt(bits, r.at, lit, z)
    ensures Stuck(bits, r, lit, dist)
  {
    forall t | TokenEnd(bits, r.at, lit, dist, t) >= 0 ensures false {
      SymbolUnique(bits, r.at, lit, FirstSymbol(t), z);
    }
    if SymbolAt(bits, r.at, lit, END_OF_BLOCK) { SymbolUnique(bits, r.at, lit, END_OF_BLOCK, z); }
  }

  /** A length symbol without a valid distance symbol after it, where the reader is `r2`, leaves nothing valid. */
  lemma StuckAtDistance(bits: seq<nat>, r: Reader, lit: seq<nat>, dist: seq<nat>, ls: nat, r2: Reader, ds: int)
    requires Binary(bits) && r.Live? && r2.Live? && 257 <= ls < 286 && SymbolAt(bits, r.at, lit, ls)
    requires r2 == Received(Decoded(r, |bits|, lit[ls]), LengthExtra(ls)) && r2.at == r.at + lit[ls] + LengthExtra(ls)
    requires if ds < 0 then NoSymbolAt(bits, r2.at, dist) || Refilled(r2, |bits|).Exhausted?
             else ds >= 30 && SymbolAt(bits, r2.at, dist, ds)
    ensures Stuck(bits, r, lit, dist)
  {
    forall t | TokenEnd(bits, r.at, lit, dist, t) >= 0 ensures TokenRead(|bits|, r, lit, dist, t).Exhausted? {
      SymbolUnique(bits, r.at, lit, FirstSymbol(t), ls);
      DistanceAt(bits, r.at, lit, dist, t, r2.at);
      if ds >= 0 { SymbolUnique(bits, r2.at, dist, t.dsym, ds); }
    }
    if SymbolAt(bits, r.at, lit, END_OF_BLOCK) { SymbolUnique(bits, r.at, lit, END_OF_BLOCK, ls); }
  }

  lemma DistanceAt(bits: seq<nat>, p: nat, lit: seq<nat>, dist: seq<nat>, t: Token, p2: nat)
    requires TokenEnd(bits, p, lit, dist, t) >= 0 && t.Match?
    requires p2 == p + lit[t.lsym] + LengthExtra(t.lsym)
    ensures t.dsym < 30 && SymbolAt(bits, p2, dist, t.dsym) && TokenEnd(bits, p, lit, dist, t) > p2
  {
  }

  // --------------------------------------------------------------- blocks

  /** No valid block lies where the reader stands that it could read to the end. */
  ghost predicate NoBlockAt(bits: seq<nat>, r: Reader, lit: seq<nat>, dist: seq<nat>, out: seq<Byte>) {
    r.Live? && forall us, q: nat :: BlockAt(bits, r.at, lit, dist, us, q) && AllInReach(out, us) ==>
      BlockRead(|bits|, r, lit, dist, us).Exhausted?
  }

  /** The reader can read tokens whose meaning makes the output larger than `cap`. */
  ghost predicate Overflows(bits: seq<nat>, r: Reader, lit: seq<nat>, dist: seq<nat>, out: seq<Byte>, cap: nat) {
    && r.Live?
    && exists ts :: && TokensEnd(bits, r.at, lit, dist, ts) >= 0 && TokensRead(|bits|, r, lit, dist, ts).Live?
                    && AllInReach(out, ts) && |EmitAll(out, ts)| > cap
  }

  /** The reader got from `v` to `e` by reading the tokens `ts`, which turn `before` into `now`. */
  ghost predicate Expanded(bits: seq<nat>, v: Reader, lit: seq<nat>, dist: seq<nat>, ts: seq<Token>, e: Reader,
                           before: seq<Byte>, now: seq<Byte>)
  {
    && v.Live? && e.Live? && TokensEnd(bits, v.at, lit, dist, ts) == e.at && TokensRead(|bits|, v, lit, dist, ts) == e
    && AllInReach(before, ts) && now == EmitAll(before, ts)
  }

  /** Expands one compressed block. On success the output is extended by the meaning of the one
      token list that stands at the reading position; data is rejected exactly if no valid block
      stands there that the reader can read to the end. */
  method ParseHuffmanBlock(a: ZBuf, ghost lit: seq<nat>, ghost dist: seq<nat>)
    returns (st: Status, ghost ts: seq<Token>)
    requires a.BitsOk() && OutOk(a) && a.z_length.Encodes(lit) && a.z_distance.Encodes(dist)
    modifies a, a.out
    ensures a.BitsOk() && OutOk(a) && a.ReaderMoved() && (a.out == old(a.out) || fresh(a.out))
    ensures st == Done ==> BlockAt(a.bits, old(a.consumed), lit, dist, ts, a.consumed)
    ensures st == Done ==> a.View() == BlockRead(|a.bits|, old(a.View()), lit, dist, ts)
    ensures st == Done ==> AllInReach(old(Contents(a)), ts) && Contents(a) == EmitAll(old(Contents(a)), ts)
    ensures st == Corrupt ==> NoBlockAt(a.bits, old(a.View()), lit, dist, old(Contents(a)))
    ensures Growing(a) && st == NoRoom ==> Overflows(a.bits, old(a.View()), lit, dist, old(Contents(a)), a.cap)
  {
    ghost var v, before := a.View(), Contents(a);
    st, ts := Done, [];
    var more := true;
    while more
      invariant a.BitsOk() && OutOk(a) && a.ReaderMoved() && (a.out == old(a.out) || fresh(a.out))
      invariant a.z_length.Encodes(lit) && a.z_distance.Encodes(dist)
      invariant more ==> Expanded(a.bits, v, lit, dist, ts, a.View(), before, Contents(a))
      invariant !more && st == Done ==>
        && BlockDone(a.bits, v, lit, dist, ts, a.consumed, a.View())
        && AllInReach(before, ts) && Contents(a) == EmitAll(before, ts)
      invariant !more && st == Corrupt ==> NoBlockAt(a.bits, v, lit, dist, before)
      invariant !more && st == NoRoom && Growing(a) ==> Overflows(a.bits, v, lit, dist, before, a.cap)
      decreases more, UINT_MAX - a.zout
    {
      st, more, ts := NextToken(a, lit, dist, v, ts, before);
    }
  }

  /** The block of the tokens `ts` stands between `r` and `q` and leaves the reader as `e`. */
  ghost predicate BlockDone(bits: seq<nat>, r: Reader, lit: seq<nat>, dist: seq<nat>, ts: seq<Token>, q: nat,
                            e: Reader)
  {
    r.Live? && e.Live? && BlockAt(bits, r.at, lit, dist, ts, q) && e == BlockRead(|bits|, r, lit, dist, ts)
  }

  /** Reads one token and appends its meaning; `more` is false at the end of the block and after an error. */
  method NextToken(a: ZBuf, ghost lit: seq<nat>, ghost dist: seq<nat>, ghost v: Reader, ghost ts: seq<Token>,
                   ghost before: seq<Byte>)
    returns (st: Status, more: bool, ghost ts': seq<Token>)
    requires a.BitsOk() && OutOk(a) && a.z_length.Encodes(lit) && a.z_distance.Encodes(dist)
    requires Expanded(a.bits, v, lit, dist, ts, a.View(), before, Contents(a))
    modifies a, a.out
    ensures a.BitsOk() && OutOk(a) && a.ReaderMoved() && (a.out == old(a.out) || fresh(a.out))
    ensures a.z_length.Encodes(lit) && a.z_distance.Encodes(dist)
    ensures more ==> Expanded(a.bits, v, lit, dist, ts', a.View(), before, Contents(a))
    ensures more ==> old(a.zout) < a.zout <= UINT_MAX
    ensures !more && st == Done ==>
      && BlockDone(a.bits, v, lit, dist, ts', a.consumed, a.View())
      && AllInReach(before, ts') && Contents(a) == EmitAll(before, ts')
    ensures !more && st == Corrupt ==> NoBlockAt(a.bits, v, lit, dist, before)
    ensures !more && st == NoRoom && Growing(a) ==> Overflows(a.bits, v, lit, dist, before, a.cap)
  {
    more, ts' := false, ts;
    ghost var e := a.View();
    var r := ReadToken(a, lit, dist);
    if r.Bad? {
      StuckBlock(a.bits, v, lit, dist, ts, before, e);
      st := Corrupt;
    } else if r.End? {
      st := JudgeEnd(a, lit, dist, v, ts, before, e);
    } else {
      st := PutToken(a, r.t, lit, dist, v, ts, before, e);
      more, ts' := st == Done, ts + [r.t];
    }
  }

  /** The test at the end marker, which the reader `e` has just decoded. */
  method JudgeEnd(a: ZBuf, ghost lit: seq<nat>, ghost dist: seq<nat>, ghost v: Reader, ghost ts: seq<Token>,
                  ghost before: seq<Byte>, ghost e: Reader) returns (st: Status)
    requires Binary(a.bits) && v.Live? && e.Live? && e == TokensRead(|a.bits|, v, lit, dist, ts)
    requires BlockAt(a.bits, v.at, lit, dist, ts, a.consumed) && a.View() == Decoded(e, |a.bits|, lit[END_OF_BLOCK])
    ensures st == Done ==> BlockDone(a.bits, v, lit, dist, ts, a.consumed, a.View())
    ensures st != Done ==> st == Corrupt && NoBlockAt(a.bits, v, lit, dist, before)
  {
    if a.hit_zeof_once && a.num_bits < 16 {
      EndsBeyond(a.bits, v, lit, dist, ts, before, a.consumed);
      return Corrupt;
    }
    return Done;
  }

  lemma ReadOneMore(size: nat, r: Reader, lit: seq<nat>, dist: seq<nat>, ts: seq<Token>, t: Token)
    ensures TokensRead(size, r, lit, dist, ts + [t])
            == TokenRead(size, TokensRead(size, r, lit, dist, ts), lit, dist, t)
  {
    assert (ts + [t])[..|ts|] == ts;
  }

  /** Appends the meaning of one token that has been read after the tokens `ts`. */
  method PutToken(a: ZBuf, t: Token, ghost lit: seq<nat>, ghost dist: seq<nat>,
                  ghost v: Reader, ghost ts: seq<Token>, ghost before: seq<Byte>, ghost e: Reader) returns (st: Status)
    requires OutOk(a) && Binary(a.bits) && Expanded(a.bits, v, lit, dist, ts, e, before, Contents(a))
    requires TokenEnd(a.bits, e.at, lit, dist, t) == a.consumed && TokenRead(|a.bits|, e, lit, dist, t) == a.View()
    modifies a`out, a`zout, a.out
    ensures OutOk(a) && (a.out == old(a.out) || fresh(a.out))
    ensures st == Done ==> Expanded(a.bits, v, lit, dist, ts + [t], a.View(), before, Contents(a))
    ensures st == Done ==> a.zout > old(a.zout)
    ensures st == Corrupt ==> NoBlockAt(a.bits, v, lit, dist, before)
    ensures st == NoRoom && Growing(a) ==> Overflows(a.bits, v, lit, dist, before, a.cap)
  {
    ExtendTokens(a.bits, v.at, lit, dist, ts, t, before);
    ReadOneMore(|a.bits|, v, lit, dist, ts, t);
    TokenKnown(a.bits, e.at, lit, dist, t);
    if t.Literal? {
      st := PutByte(a, t.b);
    } else {
      if a.zout < Distance(t) {
        OutOfReach(a.bits, v, lit, dist, ts, t, before);
        return Corrupt;
      }
      st := PutMatch(a, Length(t), Distance(t));
    }
    if st == NoRoom && Growing(a) { TooLarge(a.bits, v, lit, dist, ts, t, before, a.cap); }
  }

  lemma TooLarge(bits: seq<nat>, v: Reader, lit: seq<nat>, dist: seq<nat>, ts: seq<Token>, t: Token,
                 before: seq<Byte>, cap: nat)
    requires v.Live? && TokensEnd(bits, v.at, lit, dist, ts + [t]) >= 0
    requires TokensRead(|bits|, v, lit, dist, ts + [t]).Live?
    requires AllInReach(before, ts + [t]) && |EmitAll(before, ts + [t])| > cap
    ensures Overflows(bits, v, lit, dist, before, cap)
  {
  }

  lemma TokenKnown(bits: seq<nat>, p: nat, lit: seq<nat>, dist: seq<nat>, t: Token)
    requires TokenEnd(bits, p, lit, dist, t) >= 0
    ensures Known(t)
  {
  }

  /** Appending a token to a token list appends its bits and its meaning. */
  lemma ExtendTokens(bits: seq<nat>, p: nat, lit: seq<nat>, dist: seq<nat>, ts: seq<Token>, t: Token, out: seq<Byte>)
    requires TokensEnd(bits, p, lit, dist, ts) >= 0 && AllInReach(out, ts)
    ensures TokensEnd(bits, p, lit, dist, ts + [t]) == TokenEnd(bits, TokensEnd(bits, p, lit, dist, ts), lit, dist, t)
    ensures AllInReach(out, ts + [t]) <==> InReach(EmitAll(out, ts), t)
    ensures AllInReach(out, ts + [t]) ==> EmitAll(out, ts + [t]) == Emit(EmitAll(out, ts), t)
  {
    assert (ts + [t])[..|ts|] == ts;
  }

  /** If nothing valid follows the tokens found so far, no block can be read. */
  lemma StuckBlock(bits: seq<nat>, r: Reader, lit: seq<nat>, dist: seq<nat>, ts: seq<Token>, out: seq<Byte>, e: Reader)
    requires Binary(bits) && r.Live? && TokensEnd(bits, r.at, lit, dist, ts) >= 0
    requires e == TokensRead(|bits|, r, lit, dist, ts) && Stuck(bits, e, lit, dist)
    requires e.at == TokensEnd(bits, r.at, lit, dist, ts)
    ensures NoBlockAt(bits, r, lit, dist, out)
  {
    forall us, q: nat | BlockAt(bits, r.at, lit, dist, us, q) ensures BlockRead(|bits|, r, lit, dist, us).Exhausted? {
      TokensForced(bits, r.at, lit, dist, ts, us, q);
      if |us| > |ts| {
        StuckToken(bits, r, lit, dist, ts, us, e);
      } else {
        assert us == ts;
      }
    }
  }

  lemma StuckToken(bits: seq<nat>, r: Reader, lit: seq<nat>, dist: seq<nat>, ts: seq<Token>, us: seq<Token>, e: Reader)
    requires r.Live? && TokensEnd(bits, r.at, lit, dist, us) >= 0 && |ts| < |us| && us[..|ts|] == ts
    requires e == TokensRead(|bits|, r, lit, dist, ts) && Stuck(bits, e, lit, dist)
    requires e.at == TokensEnd(bits, r.at, lit, dist, ts)
    ensures TokensRead(|bits|, r, lit, dist, us).Exhausted?
  {
    TokenInside(bits, r.at, lit, dist, us, |ts|);
    assert us[..|ts| + 1] == ts + [us[|ts|]];
    ReadOneMore(|bits|, r, lit, dist, ts, us[|ts|]);
    TokensStayExhausted(|bits|, r, lit, dist, us, |ts| + 1);
  }

  /** If the block that stands there fails the test at its end marker, no other one can be read. */
  lemma EndsBeyond(bits: seq<nat>, r: Reader, lit: seq<nat>, dist: seq<nat>, ts: seq<Token>, out: seq<Byte>, q: nat)
    requires Binary(bits) && r.Live? && BlockAt(bits, r.at, lit, dist, ts, q)
    requires BlockRead(|bits|, r, lit, dist, ts).Exhausted?
    ensures NoBlockAt(bits, r, lit, dist, out)
  {
    forall us, q': nat | BlockAt(bits, r.at, lit, dist, us, q') ensures BlockRead(|bits|, r, lit, dist, us).Exhausted? {
      BlockUnique(bits, r.at, lit, dist, ts, q, us, q');
    }
  }

  /** A match that reaches before the start of the output spoils every block there. */
  lemma OutOfReach(bits: seq<nat>, r: Reader, lit: seq<nat>, dist: seq<nat>, ts: seq<Token>, t: Token, out: seq<Byte>)
    requires Binary(bits) && r.Live? && TokensEnd(bits, r.at, lit, dist, ts + [t]) >= 0
    requires AllInReach(out, ts) && !InReach(EmitAll(out, ts), t)
    ensures NoBlockAt(bits, r, lit, dist, out)
  {
    forall us, q: nat | BlockAt(bits, r.at, lit, dist, us, q) ensures !AllInReach(out, us) {
      TokensForced(bits, r.at, lit, dist, ts + [t], us, q);
      assert us[..|ts| + 1] == ts + [t];
      assert (ts + [t])[..|ts|] == ts;
      if AllInReach(out, us) { ReachPrefix(out, us, |ts| + 1); }
    }
  }

  lemma {:induction false} ReachPrefix(out: seq<Byte>, us: seq<Token>, n: nat)
    requires n <= |us| && AllInReach(out, us)
    ensures AllInReach(out, us[..n])
    decreases |us|
  {
    if n == |us| {
      assert us[..n] == us;
    } else {
      ReachPrefix(out, us[..|us| - 1], n);
      assert us[..|us| - 1][..n] == us[..n];
    }
  }
}
