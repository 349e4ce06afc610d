/** The input of the inflate code as an endless stream of bits. */
module BitStream {
  // The bytes stand in order, each from its least significant bit (section 3.1.1 of RFC 1951), and zeros follow.

  import opened Bits
  import opened CanonicalCode
  import Bytes

  type Byte = Bytes.Byte

  function StreamByte(input: seq<Byte>, q: nat): Byte {
    if q < |input| then input[q] else 0
  }

  /** Bit `i` of the stream. */
  function At(bits: seq<nat>, i: nat): nat {
    if i < |bits| then bits[i] else 0
  }

  /** The `n` bits from position `p` as an integer, least significant bit first. */
  function Lsb(bits: seq<nat>, p: nat, n: nat): nat
    decreases n, bits
  {
    if n == 0 then 0 else At(bits, p) + 2 * Lsb(bits, p + 1, n - 1)
  }

  /** The `n` bits from position `p` as a Huffman code, most significant bit first. */
  function Msb(bits: seq<nat>, p: nat, n: nat): nat
    decreases n, bits
  {
    if n == 0 then 0 else 2 * Msb(bits, p, n - 1) + At(bits, p + n - 1)
  }

  /** The bits at position `p` spell the canonical code of symbol `v`. */
  predicate SymbolAt(bits: seq<nat>, p: nat, lens: seq<nat>, v: nat) {
    v < |lens| && 0 < lens[v] <= MAX_LEN && Msb(bits, p, lens[v]) == Code(lens, v)
  }

  ghost predicate NoSymbolAt(bits: seq<nat>, p: nat, lens: seq<nat>) {
    forall v :: 0 <= v < |lens| ==> !SymbolAt(bits, p, lens, v)
  }

  ghost predicate Binary(bits: seq<nat>) {
    forall i :: 0 <= i < |bits| ==> bits[i] <= 1
  }

  /** `bits` are the bits of `input`: the eight bits of each byte, read LSB-first, are the byte. */
  ghost predicate IsBits(input: seq<Byte>, bits: seq<nat>) {
    && |bits| == 8 * |input|
    && Binary(bits)
    && (forall q {:trigger input[q]} :: 0 <= q < |input| ==> Lsb(bits, 8 * q, 8) == input[q])
  }

  /** The bits of a byte, least significant first. */
  function ByteBits(b: nat, n: nat): (r: seq<nat>)
    ensures |r| == n
    ensures forall i :: 0 <= i < n ==> r[i] <= 1
  {
    if n == 0 then [] else [b % 2] + ByteBits(b / 2, n - 1)
  }

  function InputBits(input: seq<Byte>): seq<nat> {
    if |input| == 0 then [] else InputBits(input[..|input| - 1]) + ByteBits(input[|input| - 1], 8)
  }

  // ------------------------------------------------------- fields of bits

  lemma {:induction false} LsbBound(bits: seq<nat>, p: nat, n: nat)
    requires Binary(bits)
    ensures Lsb(bits, p, n) < Shl(1, n)
    decreases n
  {
    if n > 0 {
      LsbBound(bits, p + 1, n - 1);
      ShlStep(1, n - 1);
    }
  }

  lemma {:induction false} LsbJoin(bits: seq<nat>, p: nat, n: nat, m: nat)
    ensures Lsb(bits, p, n + m) == Lsb(bits, p, n) + Shl(Lsb(bits, p + n, m), n)
    decreases n
  {
    if n > 0 {
      LsbJoin(bits, p + 1, n - 1, m);
      ShlStep(Lsb(bits, p + n, m), n - 1);
    }
  }

  lemma {:induction false} LsbDrop(bits: seq<nat>, p: nat, n: nat, k: nat)
    requires Binary(bits)
    requires k <= n
    ensures Shr(Lsb(bits, p, n), k) == Lsb(bits, p + k, n - k)
    decreases k
  {
    if k > 0 {
      assert Lsb(bits, p, n) / 2 == Lsb(bits, p + 1, n - 1);
      LsbDrop(bits, p + 1, n - 1, k - 1);
    }
  }

  lemma {:induction false} LsbTake(bits: seq<nat>, p: nat, n: nat, k: nat)
    requires Binary(bits)
    requires k <= n
    ensures Low(Lsb(bits, p, n), k) == Lsb(bits, p, k)
    decreases k
  {
    if k > 0 {
      assert Lsb(bits, p, n) / 2 == Lsb(bits, p + 1, n - 1);
      LsbTake(bits, p + 1, n - 1, k - 1);
    }
  }

  lemma LsbBit(bits: seq<nat>, p: nat, n: nat, i: nat)
    requires i < n && Binary(bits)
    ensures Bit(Lsb(bits, p, n), i) == At(bits, p + i)
  {
    LsbDrop(bits, p, n, i);
  }

  /** Reversing a buffered field gives the Huffman reading of the stream. */
  lemma {:induction false} RevLowIsMsb(bits: seq<nat>, p: nat, n: nat, s: nat)
    requires Binary(bits)
    requires s <= n
    ensures RevLow(Lsb(bits, p, n), s) == Msb(bits, p, s)
    decreases s
  {
    if s > 0 {
      RevLowIsMsb(bits, p, n, s - 1);
      LsbBit(bits, p, n, s - 1);
    }
  }

  lemma {:induction false} MsbPrefix(bits: seq<nat>, p: nat, n: nat, s: nat)
    requires Binary(bits)
    requires s <= n
    ensures Shr(Msb(bits, p, n), n - s) == Msb(bits, p, s)
    decreases n
  {
    if s < n {
      assert Msb(bits, p, n) / 2 == Msb(bits, p, n - 1);
      MsbPrefix(bits, p, n - 1, s);
    }
  }

  // ------------------------------------------------------ bits of the input

  lemma {:induction false} LsbOfByteBits(b: nat, n: nat, bits: seq<nat>, p: nat)
    requires p + n <= |bits| && bits[p..p + n] == ByteBits(b, n)
    ensures Lsb(bits, p, n) == Low(b, n)
    decreases n
  {
    if n > 0 {
      assert bits[p] == bits[p..p + n][0];
      assert bits[p + 1..p + n] == bits[p..p + n][1..] == ByteBits(b / 2, n - 1);
      LsbOfByteBits(b / 2, n - 1, bits, p + 1);
    }
  }

  lemma {:induction false} LsbOfPrefix(bits: seq<nat>, more: seq<nat>, p: nat, n: nat)
    requires p + n <= |bits|
    ensures Lsb(bits + more, p, n) == Lsb(bits, p, n)
    decreases n
  {
    if n > 0 { LsbOfPrefix(bits, more, p + 1, n - 1); }
  }

  lemma {:induction false} InputBitsAreBits(input: seq<Byte>)
    ensures IsBits(input, InputBits(input))
  {
    if |input| > 0 {
      var n := |input| - 1;
      var before, bits := InputBits(input[..n]), InputBits(input);
      InputBitsAreBits(input[..n]);
      forall q {:trigger input[q]} | 0 <= q < |input| ensures Lsb(bits, 8 * q, 8) == input[q] {
        if q < n {
          LsbOfPrefix(before, ByteBits(input[n], 8), 8 * q, 8);
          assert input[..n][q] == input[q];
        } else {
          LsbOfByteBits(input[n], 8, bits, 8 * n);
          Low8(input[n], 8);
        }
      }
    }
  }

  lemma Low8(b: Byte, w: nat)
    requires w == 8
    ensures Low(b, w) == b
  {
    Split(b, w);
    assert Shl(1, 8) == 256 && Shl(0, 8) == 0;
    ShrInterval(b, 0, w);
  }

  /** Eight bits from a byte boundary are the byte of the stream. */
  lemma LsbOfByte(input: seq<Byte>, bits: seq<nat>, q: nat, w: nat)
    requires IsBits(input, bits) && w == 8
    ensures Lsb(bits, 8 * q, w) == StreamByte(input, q)
  {
    if q >= |input| { LsbBeyond(bits, 8 * q, w); }
  }

  /** Beyond the input all bits are zero. */
  lemma {:induction false} LsbBeyond(bits: seq<nat>, p: nat, n: nat)
    requires p >= |bits|
    ensures Lsb(bits, p, n) == 0
    decreases n
  {
    if n > 0 {
      LsbBeyond(bits, p + 1, n - 1);
    }
  }

  // ----------------------------------------------------- symbols of a code

  /** The 16-bit window at `p` decides which symbol stands there. */
  lemma SymbolIsSpelled(bits: seq<nat>, p: nat, lens: seq<nat>, v: nat)
    requires Binary(bits)
    ensures SymbolAt(bits, p, lens, v) <==> Spelled(lens, v, Msb(bits, p, 16))
  {
    if v < |lens| && lens[v] <= MAX_LEN { MsbPrefix(bits, p, 16, lens[v]); }
  }

  /** At most one symbol stands at a position. */
  lemma SymbolUnique(bits: seq<nat>, p: nat, lens: seq<nat>, u: nat, v: nat)
    requires Binary(bits)
    requires SymbolAt(bits, p, lens, u) && SymbolAt(bits, p, lens, v)
    ensures u == v
  {
    SymbolIsSpelled(bits, p, lens, u);
    SymbolIsSpelled(bits, p, lens, v);
    SpelledUnique(lens, u, v, Msb(bits, p, 16));
  }
}
