/** The meaning of a compressed block, as sections 3.2.3 to 3.2.7 of RFC 1951 define it. */
module Deflate {
  // A token list stands at a bit position when its symbols and extra bits are spelled there one after the other;
  // its meaning is the output it appends.

  import opened BitStream

  const LENGTH_BASE: seq<nat> :=
    [3, 4, 5, 6, 7, 8, 9, 10, 11, 13, 15, 17, 19, 23, 27, 31, 35, 43, 51, 59,
     67, 83, 99, 115, 131, 163, 195, 227, 258]
  const LENGTH_EXTRA: seq<nat> :=
    [0, 0, 0, 0, 0, 0, 0, 0, 1, 1, 1, 1, 2, 2, 2, 2, 3, 3, 3, 3, 4, 4, 4, 4, 5, 5, 5, 5, 0]
  const DIST_BASE: seq<nat> :=
    [1, 2, 3, 4, 5, 7, 9, 13, 17, 25, 33, 49, 65, 97, 129, 193, 257, 385, 513, 769, 1025,
     1537, 2049, 3073, 4097, 6145, 8193, 12289, 16385, 24577]
  const DIST_EXTRA: seq<nat> :=
    [0, 0, 0, 0, 1, 1, 2, 2, 3, 3, 4, 4, 5, 5, 6, 6, 7, 7, 8, 8, 9, 9, 10, 10, 11, 11, 12, 12, 13, 13]

  const END_OF_BLOCK := 256

  /** A literal byte, or a match given by its two symbols and their extra bits. */
  datatype Token =
    | Literal(b: Byte)
    | Match(lsym: nat, lextra: nat, dsym: nat, dextra: nat)

  predicate Known(t: Token) {
    t.Match? ==> 257 <= t.lsym < 286 && t.dsym < 30
  }

  function Length(t: Token): (n: nat)
    requires t.Match? && Known(t)
    ensures n >= 3
  {
    LENGTH_BASE[t.lsym - 257] + t.lextra
  }

  function Distance(t: Token): (n: nat)
    requires t.Match? && Known(t)
    ensures n >= 1
  {
    DIST_BASE[t.dsym] + t.dextra
  }

  /** Extra bits of a length symbol: none up to length 10 and for 258, then one more every four symbols. */
  function LengthExtra(ls: nat): (n: nat)
    requires 257 <= ls < 286
    ensures n <= 5
  {
    if ls < 265 || ls == 285 then 0 else (ls - 261) / 4
  }

  /** Extra bits of a distance symbol: none up to distance 4, then one more every two symbols. */
  function DistExtra(ds: nat): (n: nat)
    requires ds < 30
    ensures n <= 13
  {
    if ds < 4 then 0 else (ds - 2) / 2
  }

  /** The tables of the code hold these counts. */
  lemma ExtraTables(i: nat)
    ensures i < 29 ==> LENGTH_EXTRA[i] == LengthExtra(i + 257)
    ensures i < 30 ==> DIST_EXTRA[i] == DistExtra(i)
  {
  }

  /** The literal/length symbol of a token. */
  function FirstSymbol(t: Token): nat {
    if t.Literal? then t.b else t.lsym
  }

  /** Where token `t` ends if it stands at `p`; -1 if it does not stand there. */
  function TokenEnd(bits: seq<nat>, p: nat, lit: seq<nat>, dist: seq<nat>, t: Token): int {
    match t
    case Literal(b) =>
      if SymbolAt(bits, p, lit, b) then p + lit[b] else -1
    case Match(ls, le, ds, de) =>
      if !Known(t) || !SymbolAt(bits, p, lit, ls) then -1 else
      var p1 := p + lit[ls];
      var p2 := p1 + LengthExtra(ls);
      if le != Lsb(bits, p1, LengthExtra(ls)) || !SymbolAt(bits, p2, dist, ds) then -1 else
      var p3 := p2 + dist[ds];
      if de != Lsb(bits, p3, DistExtra(ds)) then -1 else p3 + DistExtra(ds)
  }

  /** Where the token list ends if it stands at `p`; -1 if it does not. */
  function TokensEnd(bits: seq<nat>, p: nat, lit: seq<nat>, dist: seq<nat>, ts: seq<Token>): int {
    if ts == [] then p else
    var m := TokensEnd(bits, p, lit, dist, ts[..|ts| - 1]);
    if m < 0 then -1 else TokenEnd(bits, m, lit, dist, ts[|ts| - 1])
  }

  /** The tokens followed by the end-of-block symbol occupy the bits from `p` to `q`. */
  predicate BlockAt(bits: seq<nat>, p: nat, lit: seq<nat>, dist: seq<nat>, ts: seq<Token>, q: nat) {
    var m := TokensEnd(bits, p, lit, dist, ts);
    m >= 0 && SymbolAt(bits, m, lit, END_OF_BLOCK) && q == m + lit[END_OF_BLOCK]
  }

  // ------------------------------------------------------------- output

  /** Appends `n` bytes, each the one `d` places back in the output so far. */
  function Copy(out: seq<Byte>, n: nat, d: nat): (r: seq<Byte>)
    requires 0 < d <= |out|
    ensures |r| == |out| + n
  {
    if n == 0 then out else
    var r := Copy(out, n - 1, d);
    r + [r[|r| - d]]
  }

  /** A match may only refer to bytes that have been produced. */
  predicate InReach(out: seq<Byte>, t: Token) {
    t.Match? ==> Known(t) && Distance(t) <= |out|
  }

  function Emit(out: seq<Byte>, t: Token): seq<Byte>
    requires InReach(out, t)
  {
    match t
    case Literal(b) => out + [b]
    case Match(_, _, _, _) => Copy(out, Length(t), Distance(t))
  }

  predicate AllInReach(out: seq<Byte>, ts: seq<Token>)
    decreases |ts|, 0
  {
    ts == [] || (var n := |ts| - 1; AllInReach(out, ts[..n]) && InReach(EmitAll(out, ts[..n]), ts[n]))
  }

  /** The output after the tokens. */
  function EmitAll(out: seq<Byte>, ts: seq<Token>): seq<Byte>
    requires AllInReach(out, ts)
    decreases |ts|, 1
  {
    if ts == [] then out else Emit(EmitAll(out, ts[..|ts| - 1]), ts[|ts| - 1])
  }

  // --------------------------------------------------------- properties

  /** A copied match is the periodic continuation of the output, whether or not it overlaps
      itself: every new byte equals the byte `d` places before it, and nothing else does. */
  lemma {:induction false} CopyIsPeriodic(out: seq<Byte>, n: nat, d: nat, r: seq<Byte>)
    requires 0 < d <= |out|
    ensures r == Copy(out, n, d) <==>
            |r| == |out| + n && r[..|out|] == out && forall i :: |out| <= i < |r| ==> r[i] == r[i - d]
    decreases n
  {
    if n > 0 {
      var c := Copy(out, n - 1, d);
      CopyIsPeriodic(out, n - 1, d, c);
      if |r| == |out| + n {
        var s := r[..|r| - 1];
        CopyIsPeriodic(out, n - 1, d, s);
        assert r == s + [r[|r| - 1]];
        assert s[..|out|] == r[..|out|];
      }
    }
  }

  /** At most one token stands at a position. */
  lemma TokenUnique(bits: seq<nat>, p: nat, lit: seq<nat>, dist: seq<nat>, t: Token, u: Token)
    requires Binary(bits)
    requires TokenEnd(bits, p, lit, dist, t) >= 0 && TokenEnd(bits, p, lit, dist, u) >= 0
    ensures t == u
  {
    SymbolUnique(bits, p, lit, FirstSymbol(t), FirstSymbol(u));
    if t.Match? {
      SymbolUnique(bits, p + lit[t.lsym] + LengthExtra(t.lsym), dist, t.dsym, u.dsym);
    }
  }

  /** Every complete block at `p` starts with the tokens already found there. */
  lemma {:induction false} TokensForced(bits: seq<nat>, p: nat, lit: seq<nat>, dist: seq<nat>,
                                        ts: seq<Token>, us: seq<Token>, q: nat)
    requires Binary(bits)
    requires TokensEnd(bits, p, lit, dist, ts) >= 0 && BlockAt(bits, p, lit, dist, us, q)
    ensures ts <= us
    decreases |ts|
  {
    if ts != [] {
      var n := |ts| - 1;
      TokensForced(bits, p, lit, dist, ts[..n], us, q);
      var m := TokensEnd(bits, p, lit, dist, ts[..n]);
      assert us[..n] == ts[..n];
      assert |us| == n ==> us[..n] == us;
      NotTheEnd(bits, m, lit, dist, ts[n]);
      if |us| > n {
        TokenInside(bits, p, lit, dist, us, n);
        TokenUnique(bits, m, lit, dist, ts[n], us[n]);
        assert us[..n + 1] == ts[..n] + [ts[n]] == ts;
      }
    }
  }

  lemma NotTheEnd(bits: seq<nat>, p: nat, lit: seq<nat>, dist: seq<nat>, t: Token)
    requires Binary(bits) && TokenEnd(bits, p, lit, dist, t) >= 0
    ensures !SymbolAt(bits, p, lit, END_OF_BLOCK)
  {
    if SymbolAt(bits, p, lit, END_OF_BLOCK) {
      SymbolUnique(bits, p, lit, FirstSymbol(t), END_OF_BLOCK);
    }
  }

  lemma TokenInside(bits: seq<nat>, p: nat, lit: seq<nat>, dist: seq<nat>, us: seq<Token>, n: nat)
    requires n < |us| && TokensEnd(bits, p, lit, dist, us) >= 0
    ensures TokensEnd(bits, p, lit, dist, us[..n]) >= 0
    ensures TokenEnd(bits, TokensEnd(bits, p, lit, dist, us[..n]), lit, dist, us[n]) >= 0
  {
    TokensPrefix(bits, p, lit, dist, us, n + 1);
    TokensPrefix(bits, p, lit, dist, us, n);
    assert us[..n + 1][..n] == us[..n];
  }

  /** A prefix of a token list that stands at `p` stands there too. */
  lemma {:induction false} TokensPrefix(bits: seq<nat>, p: nat, lit: seq<nat>, dist: seq<nat>, us: seq<Token>, n: nat)
    requires n <= |us| && TokensEnd(bits, p, lit, dist, us) >= 0
    ensures 0 <= TokensEnd(bits, p, lit, dist, us[..n]) <= TokensEnd(bits, p, lit, dist, us)
    decreases |us|
  {
    if n == |us| {
      assert us[..n] == us;
    } else {
      var k := |us| - 1;
      TokensPrefix(bits, p, lit, dist, us[..k], n);
      assert us[..k][..n] == us[..n];
    }
  }

  /** The block at a position is determined by the bits. */
  lemma BlockUnique(bits: seq<nat>, p: nat, lit: seq<nat>, dist: seq<nat>,
                    ts: seq<Token>, q: nat, us: seq<Token>, q': nat)
    requires Binary(bits)
    requires BlockAt(bits, p, lit, dist, ts, q) && BlockAt(bits, p, lit, dist, us, q')
    ensures ts == us && q == q'
  {
    TokensForced(bits, p, lit, dist, ts, us, q');
    TokensForced(bits, p, lit, dist, us, ts, q);
  }

  /** The length codes tile 3..258: each starts where the extra bits of the one before end. */
  lemma LengthCodesTile(i: nat)
    requires i < 27
    ensures LENGTH_BASE[i + 1] == LENGTH_BASE[i] + Bits.Shl(1, LengthExtra(i + 257))
  {
    assert Bits.Shl(1, 1) == 2 && Bits.Shl(1, 2) == 4 && Bits.Shl(1, 3) == 8 && Bits.Shl(1, 4) == 16;
  }
}
