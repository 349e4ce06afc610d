/** Canonical Huffman codes, as section 3.2.2 of RFC 1951 defines them. */
module CanonicalCode {
  // A code assignment is given by the list of code lengths alone (0 = symbol unused). A symbol of length `l` is
  // also the aligned interval of 16-bit windows whose top `l` bits spell its code; the sum of the interval sizes
  // is the Kraft sum.

  import opened Bits

  const MAX_LEN := 15

  ghost predicate LengthsOk(lens: seq<nat>) {
    forall v :: 0 <= v < |lens| ==> lens[v] <= MAX_LEN
  }

  /** How many of the first `n` symbols have length `l`. */
  function Rank(lens: seq<nat>, n: nat, l: nat): nat
    requires n <= |lens|
  {
    if n == 0 then 0 else Rank(lens, n - 1, l) + if lens[n - 1] == l then 1 else 0
  }

  /** `bl_count` of the RFC: the number of codes of length `l`. */
  function Count(lens: seq<nat>, l: nat): nat {
    if l == 0 then 0 else Rank(lens, |lens|, l)
  }

  /** `next_code` of the RFC: the smallest code of length `l`. */
  function First(lens: seq<nat>, l: nat): nat {
    if l == 0 then 0 else 2 * (First(lens, l - 1) + Count(lens, l - 1))
  }

  /** The code of symbol `v`: consecutive values within a length, in symbol order. */
  function Code(lens: seq<nat>, v: nat): nat
    requires v < |lens|
  {
    First(lens, lens[v]) + Rank(lens, v, lens[v])
  }

  /** The Kraft sum of the nonzero lengths, in units of 2^-16. */
  function KraftSum(lens: seq<nat>): nat
    requires LengthsOk(lens)
  {
    if |lens| == 0 then 0
    else
      var n := |lens| - 1;
      KraftSum(lens[..n]) + if lens[n] == 0 then 0 else Shl(1, 16 - lens[n])
  }

  /** The lengths describe a prefix code: the Kraft sum is at most one. */
  ghost predicate KraftOk(lens: seq<nat>) {
    LengthsOk(lens) && KraftSum(lens) <= 0x10000
  }

  /** Symbol `v`'s code is spelled by the top bits of the 16-bit window `k`. */
  predicate Spelled(lens: seq<nat>, v: nat, k: nat) {
    v < |lens| && 0 < lens[v] <= MAX_LEN && Shr(k, 16 - lens[v]) == Code(lens, v)
  }

  // ------------------------------------------------- intervals of windows

  /** The total interval size of those of the first `n` symbols whose length is 1..l. */
  function Weight(lens: seq<nat>, n: nat, l: nat): nat
    requires n <= |lens| && l <= MAX_LEN
  {
    if n == 0 then 0
    else Weight(lens, n - 1, l) + if 0 < lens[n - 1] <= l then Shl(1, 16 - lens[n - 1]) else 0
  }

  lemma {:induction false} WeightIsKraft(lens: seq<nat>, n: nat)
    requires LengthsOk(lens) && n <= |lens|
    ensures Weight(lens, n, MAX_LEN) == KraftSum(lens[..n])
    decreases n
  {
    if n > 0 {
      assert lens[..n][..n - 1] == lens[..n - 1];
      WeightIsKraft(lens, n - 1);
    }
  }

  lemma {:induction false} WeightZero(lens: seq<nat>, n: nat)
    requires n <= |lens|
    ensures Weight(lens, n, 0) == 0
  {
    if n > 0 { WeightZero(lens, n - 1); }
  }

  lemma {:induction false} ShlZero(k: nat)
    ensures Shl(0, k) == 0
  {
    if k > 0 { ShlZero(k - 1); }
  }

  lemma {:induction false} WeightStep(lens: seq<nat>, n: nat, l: nat)
    requires n <= |lens| && 0 < l <= MAX_LEN
    ensures Weight(lens, n, l) == Weight(lens, n, l - 1) + Shl(Rank(lens, n, l), 16 - l)
    decreases n
  {
    if n == 0 {
      ShlZero(16 - l);
    } else {
      WeightStep(lens, n - 1, l);
      ShlAdd(Rank(lens, n - 1, l), 1, 16 - l);
    }
  }

  lemma {:induction false} WeightMono(lens: seq<nat>, l: nat, m: nat)
    requires l <= m <= MAX_LEN
    ensures Weight(lens, |lens|, l) <= Weight(lens, |lens|, m)
    decreases m
  {
    if l < m {
      WeightMono(lens, l, m - 1);
      WeightStep(lens, |lens|, m);
    }
  }

  /** One past the last code of length `l`, widened to 16 bits, is the weight so far;
      the first code of the next length starts there. */
  lemma {:induction false} LimitIsWeight(lens: seq<nat>, l: nat)
    requires l <= MAX_LEN
    ensures Shl(First(lens, l) + Count(lens, l), 16 - l) == Weight(lens, |lens|, l)
    ensures l > 0 ==> Shl(First(lens, l), 16 - l) == Weight(lens, |lens|, l - 1)
    decreases l
  {
    if l == 0 {
      ShlZero(16 - l);
      WeightZero(lens, |lens|);
    } else {
      LimitIsWeight(lens, l - 1);
      LimitStep(lens, l, First(lens, l - 1) + Count(lens, l - 1), 16 - l);
    }
  }

  lemma LimitStep(lens: seq<nat>, l: nat, x: nat, k: nat)
    requires 0 < l <= MAX_LEN && k == 16 - l
    requires x == First(lens, l - 1) + Count(lens, l - 1) && Shl(x, k + 1) == Weight(lens, |lens|, l - 1)
    ensures Shl(First(lens, l), k) == Weight(lens, |lens|, l - 1)
    ensures Shl(First(lens, l) + Count(lens, l), k) == Weight(lens, |lens|, l)
  {
    Doubling(x, k + 1);
    assert First(lens, l) == 2 * x;
    WeightStep(lens, |lens|, l);
    ShlAdd(First(lens, l), Count(lens, l), k);
  }

  lemma Doubling(x: nat, k: nat)
    requires k > 0
    ensures Shl(2 * x, k - 1) == Shl(x, k)
  {
  }

  lemma {:induction false} RankMono(lens: seq<nat>, n: nat, m: nat, l: nat)
    requires n <= m <= |lens|
    ensures Rank(lens, n, l) <= Rank(lens, m, l)
    ensures n < m && lens[n] == l ==> Rank(lens, n, l) < Rank(lens, m, l)
    decreases m
  {
    if n < m { RankMono(lens, n, m - 1, l); }
  }

  /** A symbol's interval lies inside the band of its length. */
  lemma Interval(lens: seq<nat>, v: nat)
    requires v < |lens| && 0 < lens[v] <= MAX_LEN
    ensures Weight(lens, |lens|, lens[v] - 1) <= Shl(Code(lens, v), 16 - lens[v])
    ensures Shl(Code(lens, v) + 1, 16 - lens[v]) <= Weight(lens, |lens|, lens[v])
  {
    var l := lens[v];
    LimitIsWeight(lens, l);
    RankMono(lens, v, |lens|, l);
    ShlMono(First(lens, l), Code(lens, v), 16 - l);
    ShlMono(Code(lens, v) + 1, First(lens, l) + Count(lens, l), 16 - l);
  }

  lemma SpelledInBand(lens: seq<nat>, v: nat, k: nat)
    requires Spelled(lens, v, k)
    ensures Weight(lens, |lens|, lens[v] - 1) <= k < Weight(lens, |lens|, lens[v])
  {
    ShrInterval(k, Code(lens, v), 16 - lens[v]);
    Interval(lens, v);
  }

  /** No window spells two symbols: the codes are prefix-free. */
  lemma SpelledUnique(lens: seq<nat>, u: nat, v: nat, k: nat)
    requires Spelled(lens, u, k) && Spelled(lens, v, k)
    ensures u == v
  {
    SpelledInBand(lens, u, k);
    SpelledInBand(lens, v, k);
    if lens[u] < lens[v] {
      WeightMono(lens, lens[u], lens[v] - 1);
    } else if lens[v] < lens[u] {
      WeightMono(lens, lens[v], lens[u] - 1);
    } else if u < v {
      RankMono(lens, u, v, lens[u]);
    } else if v < u {
      RankMono(lens, v, u, lens[u]);
    }
  }

  /** Prefix-freeness on the codes themselves: a shorter code is not the top bits of another. */
  lemma PrefixFree(lens: seq<nat>, u: nat, v: nat)
    requires u < |lens| && v < |lens| && u != v
    requires 0 < lens[u] <= lens[v] <= MAX_LEN
    ensures Shr(Code(lens, v), lens[v] - lens[u]) != Code(lens, u)
  {
    var k := Shl(Code(lens, v), 16 - lens[v]);
    ShlMono(Code(lens, v), Code(lens, v) + 1, 16 - lens[v]);
    ShrInterval(k, Code(lens, v), 16 - lens[v]);
    ShrShr(k, 16 - lens[v], lens[v] - lens[u]);
    if Spelled(lens, u, k) { SpelledUnique(lens, u, v, k); }
  }

  lemma ShlOne16()
    ensures Shl(1, 16) == 0x10000
  {
    assert Shl(1, 8) == 256;
    ShlShl(1, 8, 8);
  }

  /** With a Kraft sum of at most one, every code fits in its length. */
  lemma CodeFits(lens: seq<nat>, v: nat)
    requires KraftOk(lens) && v < |lens| && lens[v] > 0
    ensures Code(lens, v) < Shl(1, lens[v])
  {
    var l := lens[v];
    Interval(lens, v);
    assert lens[..|lens|] == lens;
    WeightIsKraft(lens, |lens|);
    WeightMono(lens, l, MAX_LEN);
    ShlOne16();
    ShlShl(1, l, 16 - l);
    ShlMono(Shl(1, l), Code(lens, v), 16 - l);
    ShlMono(Code(lens, v), Code(lens, v) + 1, 16 - l);
  }

  /** A window inside the band of length `l` spells exactly one symbol, of that length. */
  lemma SpelledExists(lens: seq<nat>, l: nat, k: nat) returns (v: nat)
    requires 0 < l <= MAX_LEN
    requires Weight(lens, |lens|, l - 1) <= k < Weight(lens, |lens|, l)
    ensures Spelled(lens, v, k) && lens[v] == l
    ensures Rank(lens, v, l) == Shr(k, 16 - l) - First(lens, l)
  {
    LimitIsWeight(lens, l);
    var c := Shr(k, 16 - l);
    ShrInterval(k, c, 16 - l);
    if c < First(lens, l) {
      ShlMono(c + 1, First(lens, l), 16 - l);
      assert false;
    }
    if c >= First(lens, l) + Count(lens, l) {
      ShlMono(First(lens, l) + Count(lens, l), c, 16 - l);
      assert false;
    }
    v := NthOfLength(lens, |lens|, l, c - First(lens, l));
  }

  lemma {:induction false} NthOfLength(lens: seq<nat>, n: nat, l: nat, r: nat) returns (v: nat)
    requires n <= |lens| && r < Rank(lens, n, l)
    ensures v < n && lens[v] == l && Rank(lens, v, l) == r
    decreases n
  {
    if lens[n - 1] == l && Rank(lens, n - 1, l) == r {
      v := n - 1;
    } else {
      v := NthOfLength(lens, n - 1, l, r);
    }
  }

  /** A window beyond all bands up to length `l` spells no symbol of length at most `l`. */
  lemma NotSpelledAbove(lens: seq<nat>, l: nat, k: nat, v: nat)
    requires l <= MAX_LEN && Weight(lens, |lens|, l) <= k
    requires v < |lens| && lens[v] <= l
    ensures !Spelled(lens, v, k)
  {
    if Spelled(lens, v, k) {
      SpelledInBand(lens, v, k);
      WeightMono(lens, lens[v], l);
    }
  }

  // ------------------------------------------------ the sorted symbol table

  /** The first index of length `l` in the table of symbols sorted by (length, symbol). */
  function Start(lens: seq<nat>, l: nat): nat {
    if l == 0 then 0 else Start(lens, l - 1) + Count(lens, l - 1)
  }

  /** The index of symbol `v` in the table of symbols sorted by (length, symbol). */
  function Index(lens: seq<nat>, v: nat): nat
    requires v < |lens|
  {
    Start(lens, lens[v]) + Rank(lens, v, lens[v])
  }

  lemma {:induction false} StartMono(lens: seq<nat>, l: nat, m: nat)
    requires 0 < l < m
    ensures Start(lens, l) + Count(lens, l) <= Start(lens, m)
    decreases m
  {
    if l < m - 1 { StartMono(lens, l, m - 1); }
  }

  lemma IndexInjective(lens: seq<nat>, u: nat, v: nat)
    requires u < |lens| && v < |lens| && u != v && lens[u] > 0 && lens[v] > 0
    ensures Index(lens, u) != Index(lens, v)
  {
    RankMono(lens, u, |lens|, lens[u]);
    RankMono(lens, v, |lens|, lens[v]);
    if lens[u] < lens[v] {
      StartMono(lens, lens[u], lens[v]);
    } else if lens[v] < lens[u] {
      StartMono(lens, lens[v], lens[u]);
    } else if u < v {
      RankMono(lens, u, v, lens[u]);
    } else {
      RankMono(lens, v, u, lens[u]);
    }
  }

  /** The table has at most one entry per symbol. */
  lemma {:induction false} StartBound(lens: seq<nat>, l: nat)
    ensures Start(lens, l) + Count(lens, l) <= |lens|
  {
    StartIsCountBelow(lens, |lens|, l);
    CountBelowBound(lens, |lens|, l + 1);
  }

  /** How many of the first `n` symbols have a length in 1..l-1. */
  function CountBelow(lens: seq<nat>, n: nat, l: nat): nat
    requires n <= |lens|
  {
    if n == 0 then 0 else CountBelow(lens, n - 1, l) + if 0 < lens[n - 1] < l then 1 else 0
  }

  lemma {:induction false} CountBelowBound(lens: seq<nat>, n: nat, l: nat)
    requires n <= |lens|
    ensures CountBelow(lens, n, l) <= n
  {
    if n > 0 { CountBelowBound(lens, n - 1, l); }
  }

  lemma {:induction false} CountBelowStep(lens: seq<nat>, n: nat, l: nat)
    requires n <= |lens|
    ensures CountBelow(lens, n, l + 1) == CountBelow(lens, n, l) + if l == 0 then 0 else Rank(lens, n, l)
  {
    if n > 0 { CountBelowStep(lens, n - 1, l); }
  }

  lemma {:induction false} StartIsCountBelow(lens: seq<nat>, n: nat, l: nat)
    requires n == |lens|
    ensures Start(lens, l) == CountBelow(lens, n, l)
    ensures Start(lens, l) + Count(lens, l) == CountBelow(lens, n, l + 1)
    decreases l
  {
    CountBelowStep(lens, n, l);
    if l > 0 { StartIsCountBelow(lens, n, l - 1); } else { CountBelowNone(lens, n); }
  }

  lemma {:induction false} CountBelowNone(lens: seq<nat>, n: nat)
    requires n <= |lens|
    ensures CountBelow(lens, n, 0) == 0
  {
    if n > 0 { CountBelowNone(lens, n - 1); }
  }
}
