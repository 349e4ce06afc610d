/** The state of one inflate run, its bit reader and its symbol decoder. */
module InflateReader {
  import opened Bits
  import opened CanonicalCode
  import opened Huffman
  import opened BitStream
  import opened BitBuffer

  class ZBuf {
    const input: seq<Byte>
    var pos: nat                  // zbuffer, as an index into input; zbuffer_end is |input|
    var num_bits: nat
    var hit_zeof_once: bool
    var code_buffer: nat

    var out: array<Byte>          // zout_start up to zout_end
    var zout: nat                 // zout, as an index into out
    const expandable: bool
    const memory: bool            // whether every allocation succeeds

    const z_length: ZHuffman
    const z_distance: ZHuffman

    ghost const bits: seq<nat>    // the bits of input
    ghost const cap: nat          // the largest size that the output buffer can grow to
    ghost var consumed: nat       // how many bits of the stream have been delivered
    ghost var fill: nat           // how many zero bits were buffered for bytes past the input

    /** A run over `data` into a fresh buffer of `olen` bytes, with an empty bit buffer. */
    constructor (data: seq<Byte>, olen: nat, exp: bool, mem: bool, ghost most: nat)
      ensures input == data && bits == InputBits(data) && expandable == exp && memory == mem && cap == most
      ensures pos == 0 && consumed == 0 && fill == 0 && num_bits == 0 && !hit_zeof_once && BitsOk()
      ensures fresh(out) && out.Length == olen && zout == 0
      ensures z_length.Shape() && z_distance.Shape()
      ensures fresh(z_length) && fresh(z_distance) && fresh(z_length.Repr) && fresh(z_distance.Repr)
      ensures z_length.Repr !! z_distance.Repr
    {
      InputBitsAreBits(data);
      input, pos, expandable, memory := data, 0, exp, mem;
      bits, cap := InputBits(data), most;
      num_bits, code_buffer, hit_zeof_once := 0, 0, false;
      consumed, fill := 0, 0;
      out, zout := new Byte[olen], 0;
      z_length := new ZHuffman();
      z_distance := new ZHuffman();
    }

    /** How many zero bits past the input have been buffered in all. */
    ghost function Padding(): nat
      reads this`hit_zeof_once, this`fill
    {
      fill + Pad(hit_zeof_once)
    }

    /** The buffer holds exactly the next `num_bits` bits of the stream. */
    ghost predicate BitsOk()
      reads this`pos, this`num_bits, this`hit_zeof_once, this`code_buffer, this`consumed, this`fill
    {
      && IsBits(input, bits) && pos <= |input| && num_bits <= 32
      && code_buffer == Lsb(bits, consumed, num_bits)
      && consumed + num_bits == 8 * pos + Padding() && fill % 8 == 0
      && (Padding() > 0 ==> pos == |input|)
    }

    /** The state of the reader on which its answers depend. */
    ghost function View(): Reader
      reads this`num_bits, this`hit_zeof_once, this`consumed
    {
      Live(consumed, consumed + num_bits, hit_zeof_once)
    }

    /** What the reader keeps while it delivers bits: it only moves forward. */
    twostate predicate ReaderMoved()
      reads this`pos, this`hit_zeof_once, this`consumed, this`fill
    {
      && old(pos) <= pos && old(consumed) <= consumed && old(fill) <= fill
      && (old(hit_zeof_once) ==> hit_zeof_once)
    }

    predicate Eof()
      reads this`pos
    {
      pos >= |input|
    }

    method Get8() returns (b: Byte)
      requires pos <= |input|
      modifies this`pos
      ensures b == StreamByte(input, old(pos))
      ensures pos == if old(pos) < |input| then old(pos) + 1 else old(pos)
    {
      if Eof() {
        b := 0;
      } else {
        b := input[pos];
        pos := pos + 1;
      }
    }

    /** Refills the buffer to more than 24 bits, with zeros once the input is used up. */
    method FillBits()
      requires BitsOk() && num_bits <= 24
      modifies this`pos, this`num_bits, this`code_buffer, this`fill
      ensures BitsOk() && 24 < num_bits
      ensures ReaderMoved() && consumed + num_bits == Extended(consumed, old(consumed + num_bits))
    {
      while num_bits <= 24
        invariant BitsOk() && old(pos) <= pos && old(fill) <= fill
        invariant Extended(consumed, consumed + num_bits) == Extended(consumed, old(consumed + num_bits))
        decreases 32 - num_bits
      {
        LsbBound(bits, consumed, num_bits);
        if code_buffer >= Shl(1, num_bits) {
          assert false;           // the guard that would abandon the input never fires
        }
        AppendNext();
      }
    }

    /** Moves one byte of the stream into the buffer. */
    method AppendNext()
      requires BitsOk() && num_bits <= 24
      modifies this`pos, this`num_bits, this`code_buffer, this`fill
      ensures BitsOk() && num_bits == old(num_bits) + 8
      ensures ReaderMoved()
    {
      ghost var q := pos + Padding() / 8;
      assert 8 * q == consumed + num_bits by { WholePadding(pos, fill, hit_zeof_once); }
      AppendByte(input, bits, consumed, num_bits, q, num_bits + 8);
      assert StreamByte(input, q) == StreamByte(input, pos);
      var b := Get8();
      code_buffer := Or(code_buffer, Shl(b, num_bits));
      num_bits := num_bits + 8;
      if old(pos) == |input| { fill := fill + 8; }
    }

    /** Delivers the next `n` bits, least significant first. */
    method Receive(n: nat) returns (k: nat)
      requires BitsOk() && n <= 16
      modifies this`pos, this`num_bits, this`code_buffer, this`fill, this`consumed
      ensures BitsOk() && ReaderMoved()
      ensures k == Lsb(bits, old(consumed), n) && consumed == old(consumed) + n
      ensures View() == Received(old(View()), n)
    {
      if num_bits < n {
        FillBits();
      }
      k := TakeBits(n);
    }

    /** Delivers `n` of the buffered bits. */
    method TakeBits(n: nat) returns (k: nat)
      requires BitsOk() && n <= num_bits
      modifies this`num_bits, this`code_buffer, this`consumed
      ensures BitsOk() && num_bits == old(num_bits) - n && consumed == old(consumed) + n
      ensures k == Lsb(bits, old(consumed), n)
    {
      AndMask(code_buffer, n);
      LsbTake(bits, consumed, num_bits, n);
      k := And(code_buffer, Shl(1, n) - 1);
      Drop(n);
    }

    /** Removes `n` buffered bits. */
    method Drop(n: nat)
      requires BitsOk() && n <= num_bits
      modifies this`num_bits, this`code_buffer, this`consumed
      ensures BitsOk() && num_bits == old(num_bits) - n && consumed == old(consumed) + n
    {
      LsbDrop(bits, consumed, num_bits, n);
      code_buffer := Shr(code_buffer, n);
      num_bits := num_bits - n;
      consumed := consumed + n;
    }

    /** Makes sure that 16 bits are buffered, adding 16 zero bits once at the end of the input. */
    method Refill() returns (ok: bool)
      requires BitsOk()
      modifies this`pos, this`num_bits, this`code_buffer, this`fill, this`hit_zeof_once
      ensures BitsOk() && ReaderMoved()
      ensures ok <==> old(num_bits) >= 16 || old(pos) < |input| || !old(hit_zeof_once)
      ensures ok ==> num_bits >= 16 && View() == Refilled(old(View()), |bits|)
      ensures !ok ==> Refilled(old(View()), |bits|).Exhausted?
    {
      if num_bits < 16 {
        if Eof() {
          if !hit_zeof_once {
            PadBuffer(bits, consumed, num_bits, num_bits + 16);
            hit_zeof_once := true;
            num_bits := num_bits + 16;
          } else {
            return false;
          }
        } else {
          FillBits();
        }
      }
      return true;
    }

    /** Decodes one symbol: the fast table first, the sorted table when it has no entry. It fails exactly
        when no symbol stands at the position or the reader has no 16 bits left. */
    method Decode(z: ZHuffman, ghost lens: seq<nat>) returns (v: int)
      requires BitsOk() && z.Encodes(lens)
      modifies this`pos, this`num_bits, this`code_buffer, this`fill, this`hit_zeof_once, this`consumed
      ensures BitsOk() && ReaderMoved()
      ensures v >= 0 ==> SymbolAt(bits, old(consumed), lens, v) && consumed == old(consumed) + lens[v]
      ensures v >= 0 ==> View() == Decoded(old(View()), |bits|, lens[v])
      ensures v < 0 ==> consumed == old(consumed)
      ensures v < 0 <==> NoSymbolAt(bits, old(consumed), lens) || Refilled(old(View()), |bits|).Exhausted?
    {
      var ok := Refill();
      if !ok { return -1; }
      v := DecodeBuffered(z, lens);
    }

    /** Decodes the symbol that the 16 buffered bits start with; fails exactly when they start with none. */
    method DecodeBuffered(z: ZHuffman, ghost lens: seq<nat>) returns (v: int)
      requires BitsOk() && num_bits >= 16 && z.Encodes(lens)
      modifies this`num_bits, this`code_buffer, this`consumed
      ensures BitsOk() && consumed + num_bits == old(consumed + num_bits)
      ensures v >= 0 ==> SymbolAt(bits, old(consumed), lens, v) && consumed == old(consumed) + lens[v]
      ensures v < 0 ==> consumed == old(consumed)
      ensures v < 0 <==> NoSymbolAt(bits, old(consumed), lens)
    {
      WindowIsMsb(bits, consumed, num_bits, lens);
      FastIndex(code_buffer);
      var b := z.fast[And(code_buffer, ZFAST_SIZE - 1)];
      if b != 0 {
        FastHit(lens, code_buffer, b);
        var s := Shr(b, ZFAST_BITS);
        Drop(s);
        return And(b, ZFAST_SIZE - 1);
      }
      FastMiss(lens, code_buffer);
      v := DecodeSlowpath(z, lens);
    }

    /** The next 16 bits with the first one on top. */
    method Window() returns (k: nat)
      ensures k == RevLow(code_buffer, 16) < 0x10000
    {
      BitReverseIsRevLow(code_buffer, 16);
      RevLowBound(code_buffer, 16);
      ShlOne16();
      k := BitReverse(code_buffer, 16);
    }

    /** Finds the length by comparing the reversed window with the limit of each length. */
    method DecodeSlowpath(z: ZHuffman, ghost lens: seq<nat>) returns (v: int)
      requires BitsOk() && num_bits >= 16 && z.Encodes(lens)
      requires Weight(lens, |lens|, ZFAST_BITS) <= RevLow(code_buffer, 16)
      modifies this`num_bits, this`code_buffer, this`consumed
      ensures BitsOk()
      ensures v >= 0 ==> SymbolAt(bits, old(consumed), lens, v) && consumed == old(consumed) + lens[v]
      ensures v < 0 ==> consumed == old(consumed) && NoSymbolAt(bits, consumed, lens)
      ensures consumed + num_bits == old(consumed + num_bits)
    {
      WindowIsMsb(bits, consumed, num_bits, lens);
      var k := Window();
      var s;
      v, s := z.FindSymbol(k, lens);
      if v >= 0 { Drop(s); }
    }
  }

  /** Zero bits past the end of the input are already in the buffer. */
  lemma PadBuffer(bits: seq<nat>, p: nat, n: nat, m: nat)
    requires n <= m && p + n >= |bits|
    ensures Lsb(bits, p, m) == Lsb(bits, p, n)
  {
    LsbJoin(bits, p, n, m - n);
    LsbBeyond(bits, p + n, m - n);
    ShlZero(n);
  }

  /** With 16 buffered bits the reversed buffer is the window that decides the next symbol. */
  lemma WindowIsMsb(bits: seq<nat>, p: nat, n: nat, lens: seq<nat>)
    requires Binary(bits) && n >= 16
    ensures forall v {:trigger SymbolAt(bits, p, lens, v)}{:trigger Spelled(lens, v, RevLow(Lsb(bits, p, n), 16))} ::
              0 <= v < |lens| ==> (SymbolAt(bits, p, lens, v) <==> Spelled(lens, v, RevLow(Lsb(bits, p, n), 16)))
  {
    RevLowIsMsb(bits, p, n, 16);
    forall v | 0 <= v < |lens|
      ensures SymbolAt(bits, p, lens, v) <==> Spelled(lens, v, RevLow(Lsb(bits, p, n), 16))
    {
      SymbolIsSpelled(bits, p, lens, v);
    }
  }

  lemma WholePadding(pos: nat, fill: nat, hit: bool)
    requires fill % 8 == 0
    ensures 8 * (pos + (fill + Pad(hit)) / 8) == 8 * pos + fill + Pad(hit)
  {
  }

  /** Or-ing the byte at the end of a buffered field extends the field by eight bits. */
  lemma AppendByte(input: seq<Byte>, bits: seq<nat>, p: nat, n: nat, q: nat, m: nat)
    requires IsBits(input, bits) && p + n == 8 * q && m == n + 8
    ensures Or(Lsb(bits, p, n), Shl(StreamByte(input, q), n)) == Lsb(bits, p, m)
  {
    LsbOfByte(input, bits, q, m - n);
    AppendField(bits, p, n, m, StreamByte(input, q));
  }

  lemma AppendField(bits: seq<nat>, p: nat, n: nat, m: nat, b: nat)
    requires Binary(bits) && n <= m && b == Lsb(bits, p + n, m - n)
    ensures Or(Lsb(bits, p, n), Shl(b, n)) == Lsb(bits, p, m)
  {
    LsbBound(bits, p, n);
    LsbJoin(bits, p, n, m - n);
    OrJoin(Lsb(bits, p, n), b, n, Lsb(bits, p, m));
  }
}
