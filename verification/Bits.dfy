/** The C bit operators of the inflate code, on natural numbers. */
module Bits {
  // Everything is defined by halving and doubling, so a fact about a bit field is proved by induction on the
  // number of bits and needs only linear arithmetic.

  /** `n << k` without truncation. */
  function Shl(n: nat, k: nat): (r: nat)
    ensures n <= r
    decreases k
  {
    if k == 0 then n else Shl(2 * n, k - 1)
  }

  /** `n >> k`. */
  function Shr(n: nat, k: nat): nat
    decreases k
  {
    if k == 0 then n else Shr(n / 2, k - 1)
  }

  /** Bit `i` of `n`, counted from the least significant one. */
  function Bit(n: nat, i: nat): nat { Shr(n, i) % 2 }

  /** `a & b`. */
  function And(a: nat, b: nat): nat
    decreases a
  {
    if a == 0 then 0 else 2 * And(a / 2, b / 2) + (if a % 2 == 1 && b % 2 == 1 then 1 else 0)
  }

  /** `a | b`. */
  function Or(a: nat, b: nat): nat
    decreases a
  {
    if a == 0 then b else 2 * Or(a / 2, b / 2) + (if a % 2 == 1 || b % 2 == 1 then 1 else 0)
  }

  /** The low `k` bits of `n`. */
  function Low(n: nat, k: nat): nat
    decreases k
  {
    if k == 0 then 0 else 2 * Low(n / 2, k - 1) + n % 2
  }

  /** The low `k` bits of `n` read most-significant-first, that is, bit 0 becomes the top bit. */
  function RevLow(n: nat, k: nat): nat
    decreases k
  {
    if k == 0 then 0 else 2 * RevLow(n, k - 1) + Bit(n, k - 1)
  }

  /** One exchange of neighbouring groups of `k` bits: `((n & hi) >> k) | ((n & lo) << k)`. */
  function Exchange(n: nat, hi: nat, lo: nat, k: nat): nat {
    Or(Shr(And(n, hi), k), Shl(And(n, lo), k))
  }

  /** The mask-and-shift reversal of 16 bits. */
  function BitReverse16(n: nat): nat {
    var n1 := Exchange(n, 0xAAAA, 0x5555, 1);
    var n2 := Exchange(n1, 0xCCCC, 0x3333, 2);
    var n3 := Exchange(n2, 0xF0F0, 0x0F0F, 4);
    Exchange(n3, 0xFF00, 0x00FF, 8)
  }

  /** Reversal of the low `bits` bits through the 16-bit one. */
  function BitReverse(v: nat, bits: nat): nat
    requires bits <= 16
  {
    Shr(BitReverse16(v), 16 - bits)
  }

  // ---------------------------------------------------------------- shifts

  lemma {:induction false} ShlStep(n: nat, k: nat)
    ensures Shl(n, k + 1) == 2 * Shl(n, k)
    decreases k
  {
    if k > 0 { ShlStep(2 * n, k - 1); }
  }

  lemma {:induction false} ShlAdd(a: nat, b: nat, k: nat)
    ensures Shl(a + b, k) == Shl(a, k) + Shl(b, k)
    decreases k
  {
    if k > 0 {
      assert 2 * (a + b) == 2 * a + 2 * b;
      ShlAdd(2 * a, 2 * b, k - 1);
    }
  }

  lemma {:induction false} ShlMono(a: nat, b: nat, k: nat)
    ensures a <= b ==> Shl(a, k) <= Shl(b, k)
    ensures a < b ==> Shl(a, k) < Shl(b, k)
    decreases k
  {
    if k > 0 { ShlMono(2 * a, 2 * b, k - 1); }
  }

  lemma {:induction false} ShlShl(n: nat, j: nat, k: nat)
    ensures Shl(Shl(n, j), k) == Shl(n, j + k)
    decreases j
  {
    if j > 0 { ShlShl(2 * n, j - 1, k); }
  }

  lemma {:induction false} ShrShr(n: nat, j: nat, k: nat)
    ensures Shr(Shr(n, j), k) == Shr(n, j + k)
    decreases j
  {
    if j > 0 { ShrShr(n / 2, j - 1, k); }
  }

  /** A quotient by a power of two is the number of the aligned interval that holds `n`. */
  lemma {:induction false} ShrInterval(n: nat, c: nat, k: nat)
    ensures Shr(n, k) == c <==> Shl(c, k) <= n < Shl(c + 1, k)
    decreases k
  {
    if k > 0 {
      ShrInterval(n / 2, c, k - 1);
      ShlStep(c, k - 1);
      ShlStep(c + 1, k - 1);
    }
  }

  lemma {:induction false} ShrZero(k: nat)
    ensures Shr(0, k) == 0
  {
    if k > 0 { ShrZero(k - 1); }
  }

  // ------------------------------------------------------------------ bits

  lemma BitHalf(n: nat, i: nat)
    ensures Bit(n, 0) == n % 2
    ensures i > 0 ==> Bit(n, i) == Bit(n / 2, i - 1)
  {
  }

  lemma AndHalf(a: nat, b: nat)
    ensures And(a, b) / 2 == And(a / 2, b / 2)
    ensures And(a, b) % 2 == if a % 2 == 1 && b % 2 == 1 then 1 else 0
  {
  }

  lemma {:induction false} BitAnd(a: nat, b: nat, i: nat)
    ensures Bit(And(a, b), i) == if Bit(a, i) == 1 && Bit(b, i) == 1 then 1 else 0
    decreases i
  {
    BitHalf(And(a, b), i);
    BitHalf(a, i);
    BitHalf(b, i);
    AndHalf(a, b);
    if i > 0 { BitAnd(a / 2, b / 2, i - 1); }
  }

  lemma OrHalf(a: nat, b: nat)
    ensures Or(a, b) / 2 == Or(a / 2, b / 2)
    ensures Or(a, b) % 2 == if a % 2 == 1 || b % 2 == 1 then 1 else 0
  {
  }

  lemma {:induction false} BitOr(a: nat, b: nat, i: nat)
    ensures Bit(Or(a, b), i) == if Bit(a, i) == 1 || Bit(b, i) == 1 then 1 else 0
    decreases i
  {
    BitHalf(Or(a, b), i);
    BitHalf(a, i);
    BitHalf(b, i);
    OrHalf(a, b);
    if i > 0 { BitOr(a / 2, b / 2, i - 1); }
  }

  lemma {:induction false} BitShl(n: nat, k: nat, i: nat)
    ensures Bit(Shl(n, k), i) == if i < k then 0 else Bit(n, i - k)
    decreases i
  {
    if k > 0 {
      ShlStep(n, k - 1);
      if i > 0 {
        assert Shl(n, k) / 2 == Shl(n, k - 1);
        BitShl(n, k - 1, i - 1);
      }
    }
  }

  lemma BitShr(n: nat, k: nat, i: nat)
    ensures Bit(Shr(n, k), i) == Bit(n, i + k)
  {
    ShrShr(n, k, i);
  }

  /** Two numbers below 2^k with the same bits are equal. */
  lemma {:induction false} SameBits(a: nat, b: nat, k: nat)
    requires a < Shl(1, k) && b < Shl(1, k)
    requires forall i :: 0 <= i < k ==> Bit(a, i) == Bit(b, i)
    ensures a == b
    decreases k
  {
    if k > 0 {
      ShlStep(1, k - 1);
      assert Bit(a, 0) == Bit(b, 0);
      forall i | 0 <= i < k - 1 ensures Bit(a / 2, i) == Bit(b / 2, i) {
        assert Bit(a, i + 1) == Bit(b, i + 1);
      }
      SameBits(a / 2, b / 2, k - 1);
    }
  }

  // ---------------------------------------------------------- masks and or

  lemma {:induction false} AndMask(n: nat, k: nat)
    ensures And(n, Shl(1, k) - 1) == Low(n, k)
    decreases k
  {
    if k == 0 {
      AndZero(n);
    } else {
      ShlStep(1, k - 1);
      assert (Shl(1, k) - 1) / 2 == Shl(1, k - 1) - 1;
      AndMask(n / 2, k - 1);
      if n == 0 { LowZero(k); }
    }
  }

  lemma {:induction false} AndZero(n: nat)
    ensures And(n, 0) == 0
    decreases n
  {
    if n > 0 { AndZero(n / 2); }
  }

  lemma {:induction false} LowZero(k: nat)
    ensures Low(0, k) == 0
  {
    if k > 0 { LowZero(k - 1); }
  }

  /** Or-ing into bits above the ones in use is addition. */
  lemma {:induction false} OrAbove(a: nat, b: nat, k: nat)
    requires a < Shl(1, k)
    ensures Or(a, Shl(b, k)) == a + Shl(b, k)
    decreases k
  {
    if k > 0 && a > 0 {
      ShlStep(1, k - 1);
      ShlStep(b, k - 1);
      assert Shl(b, k) / 2 == Shl(b, k - 1);
      OrAbove(a / 2, b, k - 1);
    }
  }

  /** A number is its low bits plus the shifted rest. */
  lemma {:induction false} Split(n: nat, k: nat)
    ensures n == Low(n, k) + Shl(Shr(n, k), k)
    ensures Low(n, k) < Shl(1, k)
    decreases k
  {
    if k > 0 {
      Split(n / 2, k - 1);
      ShlStep(1, k - 1);
      ShlStep(Shr(n, k), k - 1);
    }
  }

  /** A field of `w` bits below another one can be packed and taken apart again. */
  lemma FieldParts(v: nat, s: nat, w: nat)
    requires v < Shl(1, w)
    ensures Or(v, Shl(s, w)) == v + Shl(s, w)
    ensures Shr(v + Shl(s, w), w) == s && And(v + Shl(s, w), Shl(1, w) - 1) == v
  {
    OrAbove(v, s, w);
    FieldAbove(v, s, w);
    FieldBelow(v, s, w);
    AndMask(v + Shl(s, w), w);
  }

  lemma FieldBelow(v: nat, s: nat, w: nat)
    requires v < Shl(1, w)
    ensures Low(v + Shl(s, w), w) == v
  {
    FieldAbove(v, s, w);
    Split(v + Shl(s, w), w);
  }

  lemma FieldAbove(v: nat, s: nat, w: nat)
    requires v < Shl(1, w)
    ensures Shr(v + Shl(s, w), w) == s
  {
    ShlAdd(s, 1, w);
    ShrInterval(v + Shl(s, w), s, w);
  }

  /** A field and what stands above it, put together. */
  lemma OrJoin(v: nat, s: nat, w: nat, n: nat)
    requires v < Shl(1, w) && n == v + Shl(s, w)
    ensures Or(v, Shl(s, w)) == n
  {
    OrAbove(v, s, w);
  }

  // ------------------------------------------------------------- reversal

  lemma {:induction false} RevLowBound(n: nat, k: nat)
    ensures RevLow(n, k) < Shl(1, k)
  {
    if k > 0 {
      RevLowBound(n, k - 1);
      ShlStep(1, k - 1);
    }
  }

  lemma {:induction false} BitRevLow(n: nat, k: nat, i: nat)
    requires i < k
    ensures Bit(RevLow(n, k), i) == Bit(n, k - 1 - i)
  {
    if i > 0 {
      assert RevLow(n, k) / 2 == RevLow(n, k - 1);
      BitRevLow(n, k - 1, i - 1);
    }
  }

  /** `t` copies of the pattern "k zeros above k ones". */
  function LowMask(k: nat, t: nat): nat
    decreases t
  {
    if t == 0 then 0 else Shl(LowMask(k, t - 1), 2 * k) + (Shl(1, k) - 1)
  }

  /** Whether position `i` falls in the lower half of its group of `2 * k` bits. */
  predicate InLower(k: nat, i: nat)
    requires k > 0
    decreases i
  {
    if i < 2 * k then i < k else InLower(k, i - 2 * k)
  }

  lemma {:induction false} BitOnes(k: nat, i: nat)
    ensures Bit(Shl(1, k) - 1, i) == if i < k then 1 else 0
    decreases i
  {
    if k == 0 {
      ShrZero(i);
    } else {
      ShlStep(1, k - 1);
      if i > 0 {
        assert (Shl(1, k) - 1) / 2 == Shl(1, k - 1) - 1;
        BitOnes(k - 1, i - 1);
      }
    }
  }

  lemma {:induction false} BitLowMask(k: nat, t: nat, i: nat)
    requires k > 0
    ensures Bit(LowMask(k, t), i) == if i < 2 * k * t && InLower(k, i) then 1 else 0
    decreases t
  {
    if t == 0 {
      ShrZero(i);
    } else {
      BitMaskStep(k, LowMask(k, t - 1), i);
      assert 2 * k * t == 2 * k * (t - 1) + 2 * k;
      if i >= 2 * k { BitLowMask(k, t - 1, i - 2 * k); }
    }
  }

  /** Ones in the lower half of a group of `2 * k` bits, with `rest` above the group. */
  lemma BitMaskStep(k: nat, rest: nat, i: nat)
    requires k > 0
    ensures Bit(Shl(1, k) - 1 + Shl(rest, 2 * k), i)
            == if i < 2 * k then (if i < k then 1 else 0) else Bit(rest, i - 2 * k)
  {
    var ones := Shl(1, k) - 1;
    ShlShl(1, k, k);
    ShlMono(1, Shl(1, k), k);
    OrAbove(ones, rest, 2 * k);
    BitOr(ones, Shl(rest, 2 * k), i);
    BitShl(rest, 2 * k, i);
    BitOnes(k, i);
  }

  lemma {:induction false} InLowerFlips(k: nat, i: nat)
    requires k > 0
    ensures i < k ==> InLower(k, i)
    ensures i >= k ==> InLower(k, i - k) == !InLower(k, i)
    decreases i
  {
    if i >= 3 * k { InLowerFlips(k, i - 2 * k); }
  }

  /** The position that an exchange of groups of `k` bits moves into position `i`. */
  function Partner(k: nat, i: nat): nat
    requires k > 0
  {
    InLowerFlips(k, i);
    if InLower(k, i) then i + k else i - k
  }

  lemma {:induction false} InLowerGroup(k: nat, t: nat, r: nat)
    requires r < k
    ensures InLower(k, 2 * k * t + r)
    decreases t
  {
    if t > 0 {
      assert 2 * k * t == 2 * k * (t - 1) + 2 * k;
      InLowerGroup(k, t - 1, r);
    }
  }

  /** An exchange with the two alternating masks moves each bit to the other half of its group. */
  lemma BitExchange(n: nat, hi: nat, lo: nat, k: nat, t: nat, i: nat)
    requires k > 0 && lo == LowMask(k, t) && hi == Shl(lo, k)
    ensures Bit(Exchange(n, hi, lo, k), i) == if i < 2 * k * t then Bit(n, Partner(k, i)) else 0
  {
    InLowerFlips(k, i);
    BitOr(Shr(And(n, hi), k), Shl(And(n, lo), k), i);
    BitShr(And(n, hi), k, i);
    BitShl(And(n, lo), k, i);
    BitAnd(n, hi, i + k);
    BitShl(lo, k, i + k);
    BitLowMask(k, t, i);
    if i >= k {
      BitAnd(n, lo, i - k);
      BitLowMask(k, t, i - k);
    }
    if 2 * k * t <= i < 2 * k * t + k { InLowerGroup(k, t, i - 2 * k * t); }
  }

  lemma InLowerAt(k: nat, q: nat, r: nat)
    requires r < 2 * k
    ensures InLower(k, 2 * k * q + r) == (r < k)
  {
    if r < k {
      InLowerGroup(k, q, r);
    } else {
      InLowerGroup(k, q, r - k);
      assert 2 * k * q + r - k == 2 * k * q + (r - k);
      InLowerFlips(k, 2 * k * q + r);
    }
  }

  lemma ExchangeBits(n: nat, i: nat)
    ensures Bit(Exchange(n, 0xAAAA, 0x5555, 1), i) == if i < 16 then Bit(n, Partner(1, i)) else 0
  {
    assert LowMask(1, 4) == 0x55;
    assert LowMask(1, 8) == 0x5555 && Shl(0x5555, 1) == 0xAAAA;
    BitExchange(n, 0xAAAA, 0x5555, 1, 8, i);
  }

  lemma ExchangePairs(n: nat, i: nat)
    ensures Bit(Exchange(n, 0xCCCC, 0x3333, 2), i) == if i < 16 then Bit(n, Partner(2, i)) else 0
  {
    assert LowMask(2, 4) == 0x3333 && Shl(0x3333, 2) == 0xCCCC;
    BitExchange(n, 0xCCCC, 0x3333, 2, 4, i);
  }

  lemma ExchangeNibbles(n: nat, i: nat)
    ensures Bit(Exchange(n, 0xF0F0, 0x0F0F, 4), i) == if i < 16 then Bit(n, Partner(4, i)) else 0
  {
    assert LowMask(4, 2) == 0x0F0F && Shl(0x0F0F, 4) == 0xF0F0;
    BitExchange(n, 0xF0F0, 0x0F0F, 4, 2, i);
  }

  lemma ExchangeBytes(n: nat, i: nat)
    ensures Bit(Exchange(n, 0xFF00, 0x00FF, 8), i) == if i < 16 then Bit(n, Partner(8, i)) else 0
  {
    assert Shl(0, 8) == 0;
    ShlShl(0, 8, 8);
    assert LowMask(8, 1) == 0x00FF && Shl(0x00FF, 8) == 0xFF00;
    BitExchange(n, 0xFF00, 0x00FF, 8, 1, i);
  }

  lemma PartnerAt(k: nat, q: nat, r: nat)
    requires r < 2 * k
    ensures Partner(k, 2 * k * q + r) == 2 * k * q + if r < k then r + k else r - k
  {
    InLowerAt(k, q, r);
  }

  /** Exchanging groups of 8, 4, 2 and 1 positions reverses 16 positions. */
  lemma ReversalPath(i: nat)
    requires i < 16
    ensures Partner(8, i) < 16 && Partner(4, Partner(8, i)) < 16 && Partner(2, Partner(4, Partner(8, i))) < 16
    ensures Partner(1, Partner(2, Partner(4, Partner(8, i)))) == 15 - i
  {
    var a, b, c, d := i / 8, i / 4 % 2, i / 2 % 2, i % 2;
    assert i == 8 * a + 4 * b + 2 * c + d;
    PathFromBits(a, b, c, d);
  }

  lemma PathFromBits(a: nat, b: nat, c: nat, d: nat)
    requires a <= 1 && b <= 1 && c <= 1 && d <= 1
    ensures Partner(8, 8 * a + 4 * b + 2 * c + d) == 8 * (1 - a) + 4 * b + 2 * c + d
    ensures Partner(4, 8 * (1 - a) + 4 * b + 2 * c + d) == 8 * (1 - a) + 4 * (1 - b) + 2 * c + d
    ensures Partner(2, 8 * (1 - a) + 4 * (1 - b) + 2 * c + d) == 8 * (1 - a) + 4 * (1 - b) + 2 * (1 - c) + d
    ensures Partner(1, 8 * (1 - a) + 4 * (1 - b) + 2 * (1 - c) + d) == 8 * (1 - a) + 4 * (1 - b) + 2 * (1 - c) + (1 - d)
  {
    Flip8(a, 4 * b + 2 * c + d);
    Flip4(1 - a, b, 2 * c + d);
    Flip2(2 * (1 - a) + (1 - b), c, d);
    Flip1(4 * (1 - a) + 2 * (1 - b) + (1 - c), d);
  }

  lemma Flip8(bit: nat, r: nat)
    requires bit <= 1 && r < 8
    ensures Partner(8, 8 * bit + r) == 8 * (1 - bit) + r
  {
    PartnerAt(8, 0, 8 * bit + r);
  }

  lemma Flip4(q: nat, bit: nat, r: nat)
    requires bit <= 1 && r < 4
    ensures Partner(4, 8 * q + 4 * bit + r) == 8 * q + 4 * (1 - bit) + r
  {
    PartnerAt(4, q, 4 * bit + r);
  }

  lemma Flip2(q: nat, bit: nat, r: nat)
    requires bit <= 1 && r < 2
    ensures Partner(2, 4 * q + 2 * bit + r) == 4 * q + 2 * (1 - bit) + r
  {
    PartnerAt(2, q, 2 * bit + r);
  }

  lemma Flip1(q: nat, bit: nat)
    requires bit <= 1
    ensures Partner(1, 2 * q + bit) == 2 * q + (1 - bit)
  {
    PartnerAt(1, q, bit);
  }

  /** The four exchanges turn bit `i` into bit `15 - i` and leave nothing above bit 15. */
  lemma BitReverse16Bit(n: nat, i: nat)
    ensures Bit(BitReverse16(n), i) == if i < 16 then Bit(n, 15 - i) else 0
  {
    var n1 := Exchange(n, 0xAAAA, 0x5555, 1);
    var n2 := Exchange(n1, 0xCCCC, 0x3333, 2);
    var n3 := Exchange(n2, 0xF0F0, 0x0F0F, 4);
    ExchangeBytes(n3, i);
    if i < 16 {
      ReversalPath(i);
      ExchangeNibbles(n2, Partner(8, i));
      ExchangePairs(n1, Partner(4, Partner(8, i)));
      ExchangeBits(n, Partner(2, Partner(4, Partner(8, i))));
    }
  }

  /** The mask-and-shift reversal of `k` bits reads the low `k` bits most-significant-first. */
  lemma BitReverseIsRevLow(n: nat, k: nat)
    requires k <= 16
    ensures BitReverse(n, k) == RevLow(n, k)
  {
    forall i: nat ensures Bit(BitReverse16(n), i) == if i < 16 then Bit(n, 15 - i) else 0 {
      BitReverse16Bit(n, i);
    }
    ReversedBits(BitReverse16(n), n, k);
  }

  lemma ReversedBits(r: nat, n: nat, k: nat)
    requires k <= 16
    requires forall i: nat :: Bit(r, i) == if i < 16 then Bit(n, 15 - i) else 0
    ensures Shr(r, 16 - k) == RevLow(n, k)
  {
    var v := Shr(r, 16 - k);
    forall i: nat ensures Bit(v, i) == if i < k then Bit(n, k - 1 - i) else 0 {
      BitShr(r, 16 - k, i);
    }
    NoHighBits(v, k);
    RevLowBound(n, k);
    forall i | 0 <= i < k ensures Bit(v, i) == Bit(RevLow(n, k), i) { BitRevLow(n, k, i); }
    SameBits(v, RevLow(n, k), k);
  }

  lemma {:induction false} NoHighBits(n: nat, k: nat)
    requires forall i :: i >= k ==> Bit(n, i) == 0
    ensures n < Shl(1, k)
    decreases n + k
  {
    if k > 0 {
      forall i | i >= k - 1 ensures Bit(n / 2, i) == 0 { assert Bit(n, i + 1) == 0; }
      NoHighBits(n / 2, k - 1);
      ShlStep(1, k - 1);
    } else if n > 0 {
      assert Bit(n, 0) == 0;
      forall i | i >= 0 ensures Bit(n / 2, i) == 0 { assert Bit(n, i + 1) == 0; }
      NoHighBits(n / 2, 0);
    }
  }

  // ------------------------------------------------- facts about reversed fields

  /** The top bits of a long reversed field are the short reversed field. */
  lemma {:induction false} RevLowPrefix(n: nat, k: nat, s: nat)
    requires s <= k
    ensures Shr(RevLow(n, k), k - s) == RevLow(n, s)
    decreases k
  {
    if s < k {
      assert RevLow(n, k) / 2 == RevLow(n, k - 1);
      RevLowPrefix(n, k - 1, s);
    }
  }

  /** Reversing twice gives back the low bits. */
  lemma RevLowTwice(n: nat, k: nat)
    requires n < Shl(1, k)
    ensures RevLow(RevLow(n, k), k) == n
  {
    RevLowBound(RevLow(n, k), k);
    forall i | 0 <= i < k ensures Bit(RevLow(RevLow(n, k), k), i) == Bit(n, i) {
      BitRevLow(RevLow(n, k), k, i);
      BitRevLow(n, k, k - 1 - i);
    }
    SameBits(RevLow(RevLow(n, k), k), n, k);
  }

  /** Numbers less than 2^k apart with the same reversed low bits are equal. */
  lemma {:induction false} RevLowGap(a: nat, b: nat, k: nat)
    requires a <= b < a + Shl(1, k)
    requires RevLow(a, k) == RevLow(b, k)
    ensures a == b
  {
    forall i | 0 <= i < k ensures Bit(a, i) == Bit(b, i) {
      BitRevLow(a, k, k - 1 - i);
      BitRevLow(b, k, k - 1 - i);
    }
    SameLowBitsGap(a, b, k);
  }

  lemma {:induction false} SameLowBitsGap(a: nat, b: nat, k: nat)
    requires a <= b < a + Shl(1, k)
    requires forall i :: 0 <= i < k ==> Bit(a, i) == Bit(b, i)
    ensures a == b
    decreases k
  {
    if k > 0 {
      ShlStep(1, k - 1);
      assert Bit(a, 0) == Bit(b, 0);
      forall i | 0 <= i < k - 1 ensures Bit(a / 2, i) == Bit(b / 2, i) {
        assert Bit(a, i + 1) == Bit(b, i + 1);
      }
      SameLowBitsGap(a / 2, b / 2, k - 1);
    }
  }

  /** Adding 2^k does not change the low `k` bits. */
  lemma {:induction false} RevLowPeriod(n: nat, k: nat, s: nat)
    requires s <= k
    ensures RevLow(n + Shl(1, k), s) == RevLow(n, s)
    decreases s
  {
    if s > 0 {
      RevLowPeriod(n, k, s - 1);
      BitPeriod(n, k, s - 1);
    }
  }

  lemma {:induction false} BitPeriod(n: nat, k: nat, i: nat)
    requires i < k
    ensures Bit(n + Shl(1, k), i) == Bit(n, i)
    decreases i
  {
    ShlStep(1, k - 1);
    if i > 0 {
      assert (n + Shl(1, k)) / 2 == n / 2 + Shl(1, k - 1);
      BitPeriod(n / 2, k - 1, i - 1);
    }
  }

  lemma {:induction false} BitLow(n: nat, k: nat, i: nat)
    requires i < k
    ensures Bit(Low(n, k), i) == Bit(n, i)
    decreases i
  {
    if i > 0 {
      assert Low(n, k) / 2 == Low(n / 2, k - 1);
      BitLow(n / 2, k - 1, i - 1);
    }
  }

  /** Reversed fields depend on the low bits only. */
  lemma {:induction false} RevLowOfLow(n: nat, k: nat, s: nat)
    requires s <= k
    ensures RevLow(Low(n, k), s) == RevLow(n, s)
    decreases s
  {
    if s > 0 {
      RevLowOfLow(n, k, s - 1);
      BitLow(n, k, s - 1);
    }
  }
}
