/** Stored blocks and the loop over the blocks of a stream. */
module InflateStream {
  import opened Bits
  import opened CanonicalCode
  import opened BitStream
  import opened BitBuffer
  import opened InflateReader
  import opened Deflate
  import opened DeflateStream
  import opened DeflateReads
  import opened Inflate
  import opened InflateHeader

  // --------------------------------------------------------- stored blocks

  /** No valid stored block lies at `p`. */
  ghost predicate NoStoredAt(bits: seq<nat>, p: nat) {
    forall d, q: nat :: !StoredAt(bits, p, d, q)
  }

  /** A stored block lies at `p` that makes the output larger than `cap`. */
  ghost predicate StoredOverflows(bits: seq<nat>, p: nat, out: seq<Byte>, cap: nat) {
    exists d, q: nat :: StoredAt(bits, p, d, q) && |out| + |d| > cap
  }

  /** The byte of the stream from bit position `s` on, `k` bytes further. */
  ghost predicate HeaderBytes(bits: seq<nat>, s: nat, header: seq<nat>) {
    forall k :: 0 <= k < |header| ==> header[k] == Lsb(bits, s + 8 * k, 8)
  }

  /** Moves whole bytes out of the bit buffer, then reads on from the input. */
  method ReadHeader(a: ZBuf) returns (header: array<nat>)
    requires a.BitsOk()
    modifies a`pos, a`num_bits, a`code_buffer, a`fill, a`consumed
    ensures a.BitsOk() && a.ReaderMoved() && a.num_bits == 0
    ensures header.Length == 4 && fresh(header) && HeaderBytes(a.bits, Aligned(old(a.consumed)), header[..])
    ensures a.consumed == Aligned(old(a.consumed)) + 32
  {
    header := new nat[4];
    SkipToByte(a);
    ghost var s := a.consumed;
    var k := DrainBuffer(a, header);
    ReadOn(a, header, k, s);
  }

  method ReadOn(a: ZBuf, header: array<nat>, from: nat, ghost s: nat)
    requires a.BitsOk() && a.num_bits == 0 && header.Length == 4 && from <= 4
    requires a.consumed == s + 8 * from && HeaderBytes(a.bits, s, header[..from])
    modifies a`pos, a`fill, a`consumed, header
    ensures a.BitsOk() && a.ReaderMoved() && a.consumed == s + 32
    ensures HeaderBytes(a.bits, s, header[..])
  {
    var k := from;
    while k < 4
      invariant a.BitsOk() && a.ReaderMoved()
      invariant a.consumed == s + 8 * k && k <= 4
      invariant HeaderBytes(a.bits, s, header[..k])
    {
      header[k] := NextByte(a);
      k := k + 1;
    }
    assert header[..4] == header[..];
  }

  /** Discards the rest of the byte that the last delivered bit belongs to. */
  method SkipToByte(a: ZBuf)
    requires a.BitsOk()
    modifies a`pos, a`num_bits, a`code_buffer, a`fill, a`consumed
    ensures a.BitsOk() && a.ReaderMoved() && a.num_bits % 8 == 0
    ensures a.consumed == Aligned(old(a.consumed))
  {
    AlignedBy(a.consumed, a.num_bits, a.pos, a.Padding());
    var rest := a.num_bits % 8;
    if rest != 0 {
      a.Drop(rest);
    }
  }

  lemma AlignedBy(p: nat, n: nat, pos: nat, pad: nat)
    requires p + n == 8 * pos + pad && pad % 8 == 0
    ensures Aligned(p) == p + n % 8 && (n - n % 8) % 8 == 0
  {
    WholeBytes(p + n % 8, n / 8, pos, pad);
    RoundedUp(p, n % 8);
  }

  lemma WholeBytes(m: nat, k: nat, pos: nat, pad: nat)
    requires m + 8 * k == 8 * pos + pad && pad % 8 == 0
    ensures m % 8 == 0
  {
  }

  lemma RoundedUp(p: nat, r: nat)
    requires r < 8 && (p + r) % 8 == 0
    ensures Aligned(p) == p + r
  {
  }

  /** Moves the buffered bytes into the header; there is room for all of them. */
  method DrainBuffer(a: ZBuf, header: array<nat>) returns (k: nat)
    requires a.BitsOk() && a.num_bits % 8 == 0 && header.Length == 4
    modifies a`num_bits, a`code_buffer, a`consumed, header
    ensures a.BitsOk() && a.num_bits == 0 && k <= 4 && a.consumed == old(a.consumed) + 8 * k
    ensures HeaderBytes(a.bits, old(a.consumed), header[..k])
  {
    k := 0;
    while a.num_bits > 0
      invariant a.BitsOk() && a.num_bits % 8 == 0 && 8 * k + a.num_bits <= 32
      invariant a.consumed == old(a.consumed) + 8 * k
      invariant HeaderBytes(a.bits, old(a.consumed), header[..k])
      decreases a.num_bits
    {
      header[k] := TakeByte(a);
      k := k + 1;
    }
  }

  /** The low byte of the bit buffer. */
  method TakeByte(a: ZBuf) returns (b: nat)
    requires a.BitsOk() && a.num_bits >= 8
    modifies a`num_bits, a`code_buffer, a`consumed
    ensures a.BitsOk() && a.num_bits == old(a.num_bits) - 8 && a.consumed == old(a.consumed) + 8
    ensures b == Lsb(a.bits, old(a.consumed), 8)
  {
    assert Shl(1, 8) == 256;
    AndMask(a.code_buffer, 8);
    LsbTake(a.bits, a.consumed, a.num_bits, 8);
    b := And(a.code_buffer, 255);
    a.Drop(8);
  }

  /** A byte straight from the input; zero at its end. */
  method NextByte(a: ZBuf) returns (b: nat)
    requires a.BitsOk() && a.num_bits == 0
    modifies a`pos, a`fill, a`consumed
    ensures a.BitsOk() && a.ReaderMoved() && a.consumed == old(a.consumed) + 8
    ensures b == Lsb(a.bits, old(a.consumed), 8)
  {
    ghost var q := a.pos + a.Padding() / 8;
    LsbOfByte(a.input, a.bits, q, 8);
    assert StreamByte(a.input, q) == StreamByte(a.input, a.pos);
    b := a.Get8();
    if old(a.pos) == |a.input| { a.fill := a.fill + 8; }
    a.consumed := a.consumed + 8;
  }

  /** Copies a stored block. On success the one stored block that stands at the reading position is
      appended and reading goes on at the byte after it; data is rejected exactly if none stands there. */
  method ParseUncompressedBlock(a: ZBuf) returns (st: Status, ghost data: seq<Byte>)
    requires a.BitsOk() && OutOk(a)
    modifies a, a.out
    ensures a.BitsOk() && OutOk(a) && a.ReaderMoved() && (a.out == old(a.out) || fresh(a.out))
    ensures st == Done ==> StoredAt(a.bits, old(a.consumed), data, a.consumed)
    ensures st == Done ==> a.View() == Live(a.consumed, a.consumed, false)
    ensures st == Done ==> Contents(a) == old(Contents(a)) + data
    ensures st == Corrupt ==> NoStoredAt(a.bits, old(a.consumed))
    ensures st == NoRoom && Growing(a) ==> StoredOverflows(a.bits, old(a.consumed), old(Contents(a)), a.cap)
  {
    ghost var p := a.consumed;
    data := [];
    var ok, len := ReadStoredLength(a);
    if !ok { return Corrupt, data; }
    data := a.input[a.pos..a.pos + len];
    StoredData(a.input, a.bits, p, a.pos, data);
    st := CopyInput(a, len);
  }

  /** Reads the length of a stored block and checks it against its complement and the input. */
  method ReadStoredLength(a: ZBuf) returns (ok: bool, len: nat)
    requires a.BitsOk()
    modifies a`pos, a`num_bits, a`code_buffer, a`fill, a`consumed
    ensures a.BitsOk() && a.ReaderMoved() && a.num_bits == 0
    ensures ok ==> a.Padding() == 0 && a.pos + len <= |a.input| && 8 * a.pos == Aligned(old(a.consumed)) + 32
    ensures ok ==> Lsb(a.bits, Aligned(old(a.consumed)), 16) == len
    ensures ok ==> Lsb(a.bits, Aligned(old(a.consumed)) + 16, 16) == 0xFFFF - len
    ensures !ok ==> NoStoredAt(a.bits, old(a.consumed))
  {
    ghost var p := a.consumed;
    var nlen;
    len, nlen := ReadLengths(a);
    StoredJudged(a.bits, p, |a.input|, a.pos, a.Padding(), len, nlen);
    ok := nlen == 0xFFFF - len && a.pos + len <= |a.input|;       // len ^ 0xffff
  }

  method ReadLengths(a: ZBuf) returns (len: nat, nlen: nat)
    requires a.BitsOk()
    modifies a`pos, a`num_bits, a`code_buffer, a`fill, a`consumed
    ensures a.BitsOk() && a.ReaderMoved() && a.num_bits == 0 && a.consumed == Aligned(old(a.consumed)) + 32
    ensures len == Lsb(a.bits, Aligned(old(a.consumed)), 16) && nlen == Lsb(a.bits, Aligned(old(a.consumed)) + 16, 16)
  {
    ghost var s := Aligned(a.consumed);
    var header := ReadHeader(a);
    HeaderValues(a.bits, s, header[..]);
    len := header[1] * 256 + header[0];
    nlen := header[3] * 256 + header[2];
  }

  /** The length of a stored block is accepted unless no stored block stands there. */
  lemma StoredJudged(bits: seq<nat>, p: nat, size: nat, pos: nat, pad: nat, len: nat, nlen: nat)
    requires Binary(bits) && |bits| == 8 * size && pos <= size
    requires Aligned(p) + 32 == 8 * pos + pad && (pad > 0 ==> pos == size)
    requires len == Lsb(bits, Aligned(p), 16) && nlen == Lsb(bits, Aligned(p) + 16, 16)
    ensures nlen != 0xFFFF - len || pos + len > size ==> NoStoredAt(bits, p)
    ensures nlen == 0xFFFF - len && pos + len <= size ==> pad == 0
  {
    if nlen == 0xFFFF - len && pos + len <= size {
      NotPadded(bits, Aligned(p), pos, pad, len, size);
    } else {
      NotStored(bits, p, size, pos, pad, len, nlen);
    }
  }

  lemma NotStored(bits: seq<nat>, p: nat, size: nat, pos: nat, pad: nat, len: nat, nlen: nat)
    requires |bits| == 8 * size && Aligned(p) + 32 == 8 * pos + pad && (pad > 0 ==> pos == size)
    requires len == Lsb(bits, Aligned(p), 16) && nlen == Lsb(bits, Aligned(p) + 16, 16)
    requires nlen != 0xFFFF - len || pos + len > size
    ensures NoStoredAt(bits, p)
  {
  }

  /** Copies `len` bytes of the input to the output. */
  method CopyInput(a: ZBuf, len: nat) returns (st: Status)
    requires a.BitsOk() && OutOk(a) && a.num_bits == 0 && a.Padding() == 0 && a.pos + len <= |a.input|
    modifies a, a.out
    ensures a.BitsOk() && OutOk(a) && a.ReaderMoved() && (a.out == old(a.out) || fresh(a.out))
    ensures st != Corrupt && (Growing(a) && st == NoRoom ==> |old(Contents(a))| + len > a.cap)
    ensures st == Done ==> a.consumed == old(a.consumed) + 8 * len && a.View() == Live(a.consumed, a.consumed, false)
    ensures st == Done ==> Contents(a) == old(Contents(a)) + a.input[old(a.pos)..old(a.pos) + len]
  {
    st := Done;
    if a.zout + len > a.out.Length {
      st := Zexpand(a, len);
      if st != Done { return; }
    }
    CopyBytes(a.out, a.zout, a.input[a.pos..a.pos + len]);
    a.pos := a.pos + len;
    a.zout := a.zout + len;
    a.consumed := a.consumed + 8 * len;
  }

  method CopyBytes(out: array<Byte>, at: nat, src: seq<Byte>)
    requires at + |src| <= out.Length
    modifies out
    ensures out[..at + |src|] == old(out[..at]) + src
  {
    for i := 0 to |src|
      invariant out[..at + i] == old(out[..at]) + src[..i]
    {
      out[at + i] := src[i];
    }
  }

  /** The two 16-bit fields of a stored block from its four header bytes. */
  lemma HeaderValues(bits: seq<nat>, s: nat, header: seq<nat>)
    requires Binary(bits) && |header| == 4 && HeaderBytes(bits, s, header)
    ensures forall k :: 0 <= k < 4 ==> header[k] < 256
    ensures Lsb(bits, s, 16) == header[1] * 256 + header[0]
    ensures Lsb(bits, s + 16, 16) == header[3] * 256 + header[2]
  {
    assert Shl(1, 8) == 256;
    forall k | 0 <= k < 4 ensures header[k] < 256 { LsbBound(bits, s + 8 * k, 8); }
    TwoBytes(bits, s, header[0], header[1]);
    TwoBytes(bits, s + 16, header[2], header[3]);
  }

  lemma TwoBytes(bits: seq<nat>, s: nat, lo: nat, hi: nat)
    requires lo == Lsb(bits, s, 8) && hi == Lsb(bits, s + 8, 8)
    ensures Lsb(bits, s, 16) == hi * 256 + lo
  {
    LsbJoin(bits, s, 8, 8);
    ShlByte(hi);
  }

  lemma ShlByte(n: nat)
    ensures Shl(n, 8) == 256 * n
  {
  }

  /** A stored block whose data lies in the input has its whole header in the input. */
  lemma NotPadded(bits: seq<nat>, s: nat, pos: nat, pad: nat, len: nat, size: nat)
    requires Binary(bits) && |bits| == 8 * size && s % 8 == 0 && pos + len <= size
    requires s + 32 == 8 * pos + pad && (pad > 0 ==> pos == size)
    requires Lsb(bits, s, 16) == len && Lsb(bits, s + 16, 16) == 0xFFFF - len
    ensures pad == 0
  {
    assert Shl(1, 8) == 256;
    LsbBound(bits, s + 16, 8);
    if s + 24 >= |bits| { LsbBeyond(bits, s + 24, 8); }
    TwoBytes(bits, s + 16, Lsb(bits, s + 16, 8), Lsb(bits, s + 24, 8));
  }

  lemma StoredData(input: seq<Byte>, bits: seq<nat>, p: nat, pos: nat, data: seq<Byte>)
    requires IsBits(input, bits) && Aligned(p) + 32 == 8 * pos
    requires pos + |data| <= |input| && data == input[pos..pos + |data|]
    requires Lsb(bits, Aligned(p), 16) == |data| && Lsb(bits, Aligned(p) + 16, 16) == 0xFFFF - |data|
    ensures StoredAt(bits, p, data, 8 * pos + 8 * |data|)
  {
    forall i | 0 <= i < |data| ensures data[i] == Lsb(bits, 8 * pos + 8 * i, 8) {
      assert data[i] == input[pos + i];
    }
  }

  // ------------------------------------------------------------ one block

  /** No valid block with its header bit at `p` can be read to the end by the reader behind its type bits. */
  ghost predicate NothingAt(bits: seq<nat>, p: nat, h: Reader, out: seq<Byte>) {
    forall b, q: nat :: StandsAt(bits, p, b, q) && BlockInReach(out, b) ==> BodyRead(bits, h, b, q).Exhausted?
  }

  /** The block with its header bit at `p` makes the output larger than `cap`, as far as the reader behind its type
      bits can read it. */
  ghost predicate BodyOverflows(bits: seq<nat>, p: nat, h: Reader, out: seq<Byte>, cap: nat) {
    || (Lsb(bits, p + 1, 2) == 0 && StoredOverflows(bits, p + 3, out, cap))
    || (Lsb(bits, p + 1, 2) == 1 && Overflows(bits, h, FixedLit(), FixedDist(), out, cap))
    || (Lsb(bits, p + 1, 2) == 2 && DynamicOverflows(bits, p, h, out, cap))
  }

  ghost predicate DynamicOverflows(bits: seq<nat>, p: nat, h: Reader, out: seq<Byte>, cap: nat) {
    exists b: Block :: b.Dynamic? && OverflowsBehind(bits, p, h, b, out, cap)
  }

  /** The header of the dynamic block `b` stands behind `p`, and the tokens behind it overflow. */
  ghost predicate OverflowsBehind(bits: seq<nat>, p: nat, h: Reader, b: Block, out: seq<Byte>, cap: nat)
    requires b.Dynamic?
  {
    && HeaderAt(bits, p + 3, b.cl, b.items, b.lit, b.dist, b.m)
    && var e := HeaderRead(bits, h, b.cl, b.items);
    e.Live? && e.at == b.m && Overflows(bits, e, b.lit, b.dist, out, cap)
  }

  ghost predicate Ready(a: ZBuf)
    reads a
  {
    && a.BitsOk() && OutOk(a) && a.z_length.Shape() && a.z_distance.Shape()
    && a.z_length.Repr !! a.z_distance.Repr
    && a.out !in a.z_length.Repr + a.z_distance.Repr
  }

  /** How expanding a block ended: the block found, and the reader and the output after it. */
  datatype BlockEnd = BlockEnd(st: Status, b: Block, e: Reader, out: seq<Byte>)

  /** On success the block stands at `p`, has been read from `h` on, and has been appended to `before`; data is
      rejected exactly if no valid block stands there that can be read to the end. */
  ghost predicate Judged(bits: seq<nat>, p: nat, h: Reader, before: seq<Byte>, r: BlockEnd) {
    && (r.st == Done ==>
          && r.e.Live? && StandsAt(bits, p, r.b, r.e.at) && r.e == BodyRead(bits, h, r.b, r.e.at)
          && BlockInReach(before, r.b) && r.out == Meaning(before, r.b))
    && (r.st == Corrupt ==> NothingAt(bits, p, h, before))
  }

  /** Expands the block whose three header bits start at `p` and have just been read. */
  method ParseBlock(a: ZBuf, kind: nat, ghost p: nat) returns (st: Status, ghost b: Block)
    requires Ready(a) && a.consumed == p + 3 && kind == Lsb(a.bits, p + 1, 2)
    modifies a, a.out, a.z_length.Repr, a.z_distance.Repr
    ensures Ready(a) && a.ReaderMoved() && (a.out == old(a.out) || fresh(a.out))
    ensures Judged(a.bits, p, old(a.View()), old(Contents(a)), BlockEnd(st, b, a.View(), Contents(a)))
    ensures st == NoRoom && Growing(a) ==> BodyOverflows(a.bits, p, old(a.View()), old(Contents(a)), a.cap)
  {
    LsbBound(a.bits, p + 1, 2);
    b := Stored([]);
    if kind == 0 {
      ghost var data;
      st, data := ParseUncompressedBlock(a);
      b := Stored(data);
      if st == Corrupt { OtherKinds(a.bits, p, old(a.View()), old(Contents(a)), kind); }
    } else if kind == 3 {
      OtherKinds(a.bits, p, old(a.View()), old(Contents(a)), kind);
      st := Corrupt;
    } else if kind == 1 {
      st, b := ParseFixed(a, p);
    } else {
      st, b := ParseDynamic(a, p);
    }
  }

  method ParseFixed(a: ZBuf, ghost p: nat) returns (st: Status, ghost b: Block)
    requires Ready(a) && a.consumed == p + 3 && Lsb(a.bits, p + 1, 2) == 1
    modifies a, a.out, a.z_length.Repr, a.z_distance.Repr
    ensures Ready(a) && a.ReaderMoved() && (a.out == old(a.out) || fresh(a.out))
    ensures Judged(a.bits, p, old(a.View()), old(Contents(a)), BlockEnd(st, b, a.View(), Contents(a)))
    ensures st == NoRoom && Growing(a) ==> BodyOverflows(a.bits, p, old(a.View()), old(Contents(a)), a.cap)
  {
    BuildFixed(a);
    st, b := ExpandFixed(a, p);
  }

  method ExpandFixed(a: ZBuf, ghost p: nat) returns (st: Status, ghost b: Block)
    requires Ready(a) && Lsb(a.bits, p + 1, 2) == 1 && a.consumed == p + 3
    requires a.z_length.Encodes(FixedLit()) && a.z_distance.Encodes(FixedDist())
    modifies a, a.out
    ensures Ready(a) && a.ReaderMoved() && (a.out == old(a.out) || fresh(a.out))
    ensures Judged(a.bits, p, old(a.View()), old(Contents(a)), BlockEnd(st, b, a.View(), Contents(a)))
    ensures st == NoRoom && Growing(a) ==> BodyOverflows(a.bits, p, old(a.View()), old(Contents(a)), a.cap)
  {
    ghost var ts;
    st, ts := ParseHuffmanBlock(a, FixedLit(), FixedDist());
    b := Fixed(ts);
    if st == Corrupt { NoFixed(a.bits, p, old(a.View()), old(Contents(a))); }
  }

  /** Builds the tables of the fixed codes, which are always accepted. */
  method BuildFixed(a: ZBuf)
    requires Ready(a)
    modifies a.z_length.Repr, a.z_distance.Repr
    ensures Ready(a)
    ensures a.z_length.Encodes(FixedLit()) && a.z_distance.Encodes(FixedDist())
    ensures Contents(a) == old(Contents(a)) && unchanged(a)
  {
    FixedCodesOk();
    var ok := BuildBoth(a, FixedLit(), FixedDist());
    if !ok { assert false; }
    SameSlice(old(a.out[..]), a.out[..], a.zout);
  }

  method ParseDynamic(a: ZBuf, ghost p: nat) returns (st: Status, ghost b: Block)
    requires Ready(a) && a.consumed == p + 3 && Lsb(a.bits, p + 1, 2) == 2
    modifies a, a.out, a.z_length.Repr, a.z_distance.Repr
    ensures Ready(a) && a.ReaderMoved() && (a.out == old(a.out) || fresh(a.out))
    ensures Judged(a.bits, p, old(a.View()), old(Contents(a)), BlockEnd(st, b, a.View(), Contents(a)))
    ensures st == NoRoom && Growing(a) ==> BodyOverflows(a.bits, p, old(a.View()), old(Contents(a)), a.cap)
  {
    ghost var h;
    st, h := ReadDynamicHeader(a);
    b := h;
    if st == Done {
      st, b := ExpandDynamic(a, p, old(a.View()), h);
    } else {
      NoDynamic(a.bits, p, old(a.View()), old(Contents(a)));
    }
  }

  method ReadDynamicHeader(a: ZBuf) returns (st: Status, ghost h: Block)
    requires Ready(a)
    modifies a`pos, a`num_bits, a`code_buffer, a`fill, a`hit_zeof_once, a`consumed
    modifies a.z_length.Repr, a.z_distance.Repr
    ensures Ready(a) && a.ReaderMoved() && Contents(a) == old(Contents(a)) && a.out == old(a.out)
    ensures st == Done ==> h.Dynamic? && h.m == a.consumed
                           && HeaderAt(a.bits, old(a.consumed), h.cl, h.items, h.lit, h.dist, h.m)
    ensures st == Done ==> a.View() == HeaderRead(a.bits, old(a.View()), h.cl, h.items)
    ensures st == Done ==> a.z_length.Encodes(h.lit) && a.z_distance.Encodes(h.dist)
    ensures st != Done ==> st == Corrupt && NoHeaderAt(a.bits, old(a.View()))
  {
    ghost var cl, its, lit, dist;
    st, cl, its, lit, dist := ComputeHuffmanCodes(a);
    h := Dynamic(cl, its, lit, dist, a.consumed, []);
    SameSlice(old(a.out[..]), a.out[..], a.zout);
  }

  /** Expands a dynamic block after its header, which `h` describes, has been read from `r` on. */
  method ExpandDynamic(a: ZBuf, ghost p: nat, ghost r: Reader, ghost h: Block) returns (st: Status, ghost b: Block)
    requires Ready(a) && Lsb(a.bits, p + 1, 2) == 2
    requires h.Dynamic? && HeaderAt(a.bits, p + 3, h.cl, h.items, h.lit, h.dist, h.m) && a.consumed == h.m
    requires a.View() == HeaderRead(a.bits, r, h.cl, h.items)
    requires a.z_length.Encodes(h.lit) && a.z_distance.Encodes(h.dist)
    modifies a, a.out
    ensures Ready(a) && a.ReaderMoved() && (a.out == old(a.out) || fresh(a.out))
    ensures Judged(a.bits, p, r, old(Contents(a)), BlockEnd(st, b, a.View(), Contents(a)))
    ensures st == NoRoom && Growing(a) ==> DynamicOverflows(a.bits, p, r, old(Contents(a)), a.cap)
  {
    ghost var ts;
    st, ts := ParseHuffmanBlock(a, h.lit, h.dist);
    b := h.(tokens := ts);
    if st == Corrupt { NoTokensNoDynamic(a.bits, p, r, old(Contents(a)), b); }
    assert st == NoRoom && Growing(a) ==> OverflowsBehind(a.bits, p, r, h, old(Contents(a)), a.cap);
  }

  lemma SameSlice(s: seq<Byte>, t: seq<Byte>, n: nat)
    requires s == t && n <= |s|
    ensures s[..n] == t[..n]
  {
  }

  lemma OtherKinds(bits: seq<nat>, p: nat, h: Reader, out: seq<Byte>, kind: nat)
    requires kind == Lsb(bits, p + 1, 2) && (kind == 3 || (kind == 0 && NoStoredAt(bits, p + 3)))
    ensures NothingAt(bits, p, h, out)
  {
  }

  lemma NoFixed(bits: seq<nat>, p: nat, h: Reader, out: seq<Byte>)
    requires Lsb(bits, p + 1, 2) == 1 && h.Live? && h.at == p + 3
    requires NoBlockAt(bits, h, FixedLit(), FixedDist(), out)
    ensures NothingAt(bits, p, h, out)
  {
    forall b, q: nat | StandsAt(bits, p, b, q) && BlockInReach(out, b) ensures BodyRead(bits, h, b, q).Exhausted? {
      StandsKind(bits, p, b, q);
    }
  }

  lemma NoDynamic(bits: seq<nat>, p: nat, h: Reader, out: seq<Byte>)
    requires Lsb(bits, p + 1, 2) == 2 && h.Live? && h.at == p + 3 && NoHeaderAt(bits, h)
    ensures NothingAt(bits, p, h, out)
  {
    forall b, q: nat | StandsAt(bits, p, b, q) && BlockInReach(out, b) ensures BodyRead(bits, h, b, q).Exhausted? {
      StandsKind(bits, p, b, q);
      TokensStayExhausted(|bits|, Exhausted, b.lit, b.dist, b.tokens, 0);
    }
  }

  lemma NoTokensNoDynamic(bits: seq<nat>, p: nat, h: Reader, out: seq<Byte>, c: Block)
    requires Binary(bits) && Lsb(bits, p + 1, 2) == 2 && c.Dynamic?
    requires HeaderAt(bits, p + 3, c.cl, c.items, c.lit, c.dist, c.m)
    requires var e := HeaderRead(bits, h, c.cl, c.items);
             e.Live? && e.at == c.m && NoBlockAt(bits, e, c.lit, c.dist, out)
    ensures NothingAt(bits, p, h, out)
  {
    forall b, q: nat | StandsAt(bits, p, b, q) && BlockInReach(out, b) ensures BodyRead(bits, h, b, q).Exhausted? {
      StandsKind(bits, p, b, q);
      HeaderUnique(bits, p + 3, b.cl, b.items, b.lit, b.dist, b.m, c.cl, c.items, c.lit, c.dist, c.m);
    }
  }

  lemma {:induction false} TokensForward(bits: seq<nat>, p: nat, lit: seq<nat>, dist: seq<nat>, ts: seq<Token>)
    ensures TokensEnd(bits, p, lit, dist, ts) >= 0 ==> TokensEnd(bits, p, lit, dist, ts) >= p
    decreases |ts|
  {
    if ts != [] { TokensForward(bits, p, lit, dist, ts[..|ts| - 1]); }
  }

  // ------------------------------------------------------ the fixed codes

  lemma {:induction false} KraftRepeat(lens: seq<nat>, n: nat, l: nat)
    requires LengthsOk(lens) && 0 < l <= MAX_LEN
    ensures LengthsOk(lens + seq(n, _ => l))
    ensures KraftSum(lens + seq(n, _ => l)) == KraftSum(lens) + n * Shl(1, 16 - l)
    decreases n
  {
    var s := lens + seq(n, _ => l);
    if n == 0 {
      assert s == lens;
    } else {
      KraftRepeat(lens, n - 1, l);
      assert s[..|s| - 1] == lens + seq(n - 1, _ => l);
      assert n * Shl(1, 16 - l) == (n - 1) * Shl(1, 16 - l) + Shl(1, 16 - l);
    }
  }

  /** The fixed codes are complete prefix codes, so building their tables never fails. */
  lemma FixedCodesOk()
    ensures KraftOk(FixedLit()) && KraftOk(FixedDist())
    ensures KraftSum(FixedLit()) == KraftSum(FixedDist()) == 0x10000
  {
    var a, b, c := seq(144, _ => 8), seq(112, _ => 9), seq(24, _ => 7);
    KraftRepeat([], 144, 8);
    assert [] + a == a;
    KraftRepeat(a, 112, 9);
    KraftRepeat(a + b, 24, 7);
    KraftRepeat(a + b + c, 8, 8);
    KraftRepeat([], 32, 5);
    assert [] + seq(32, _ => 5) == FixedDist();
    assert Shl(1, 7) == 128 && Shl(1, 8) == 256 && Shl(1, 9) == 512 && Shl(1, 11) == 2048;
  }

  // ----------------------------------------------------- the whole stream

  /** No valid stream lies where the reader stands that it could read to the end. */
  ghost predicate NoStreamAt(bits: seq<nat>, r: Reader, out: seq<Byte>) {
    r.Live? && forall cs :: Stream(Placing(bits), r.at, cs) && StreamInReach(out, cs) ==>
      StreamRead(Reading(bits), r, cs).Exhausted?
  }

  /** The reader can read blocks from where it stands that make the output larger than `cap`. */
  ghost predicate StreamOverflows(bits: seq<nat>, r: Reader, out: seq<Byte>, cap: nat) {
    r.Live? && exists bs, m: Reader, now ::
      && m.Live? && m == StreamRead(Reading(bits), r, bs) && Unfinished(Placing(bits), r.at, bs, m.at, out, now)
      && BodyOverflows(bits, m.at, TypeRead(m), now, cap)
  }

  /** The blocks `bs`, none of them final, stand between `p` and `q` and turn `before` into `now`. */
  ghost predicate Unfinished(at: (nat, Placed) -> bool, p: nat, bs: seq<Placed>, q: nat, before: seq<Byte>,
                             now: seq<Byte>)
  {
    && Chain(at, p, bs) && EndOf(p, bs) == q && NoneFinal(bs, |bs|)
    && StreamInReach(before, bs) && now == StreamMeaning(before, bs)
  }

  /** The blocks `bs` form the stream between `p` and `q` and turn `before` into `now`. */
  ghost predicate Finished(at: (nat, Placed) -> bool, p: nat, bs: seq<Placed>, q: nat, before: seq<Byte>,
                           now: seq<Byte>)
  {
    Stream(at, p, bs) && EndOf(p, bs) == q && StreamInReach(before, bs) && now == StreamMeaning(before, bs)
  }

  /** Expands all blocks up to the final one. On success the output is extended by the meaning of the
      one stream that stands at the reading position; data is rejected exactly if no valid stream
      stands there that the reader can read to the end. */
  method ParseBlocks(a: ZBuf) returns (st: Status, ghost bs: seq<Placed>)
    requires Ready(a)
    modifies a, a.out, a.z_length.Repr, a.z_distance.Repr
    ensures Ready(a)
    ensures st == Done ==>
      Finished(Placing(a.bits), old(a.consumed), bs, a.consumed, old(Contents(a)), Contents(a))
    ensures st == Done ==> a.View() == StreamRead(Reading(a.bits), old(a.View()), bs)
    ensures st == Corrupt ==> NoStreamAt(a.bits, old(a.View()), old(Contents(a)))
    ensures st == NoRoom && Growing(a) ==> StreamOverflows(a.bits, old(a.View()), old(Contents(a)), a.cap)
  {
    ghost var v, before, at, read := a.View(), Contents(a), Placing(a.bits), Reading(a.bits);
    bs := [];
    var final := false;
    while !final
      invariant Ready(a) && (a.out == old(a.out) || fresh(a.out))
      invariant a.View() == StreamRead(read, v, bs)
      invariant if final then Finished(at, v.at, bs, a.consumed, before, Contents(a))
                else Unfinished(at, v.at, bs, a.consumed, before, Contents(a))
      decreases |a.bits| - a.consumed
    {
      ghost var m, now := a.View(), Contents(a);
      ghost var b;
      st, final, b := NextBlock(a);
      if st == Corrupt {
        NothingNoStream(a.bits, v, bs, m, before, now);
        return;
      }
      if st == NoRoom { return; }
      Within(a.bits, m.at, b);
      PlaceBlock(a.bits, v.at, bs, m.at, before, now, b);
      ReadOneBlockMore(read, v, bs, b);
      bs := bs + [b];
    }
    st := Done;
  }

  /** Reads the three header bits of a block and expands it. */
  method NextBlock(a: ZBuf) returns (st: Status, final: bool, ghost b: Placed)
    requires Ready(a)
    modifies a, a.out, a.z_length.Repr, a.z_distance.Repr
    ensures Ready(a) && (a.out == old(a.out) || fresh(a.out))
    ensures st == Done ==> PlacedAt(a.bits, old(a.consumed), b) && b.end == a.consumed && b.final == final
    ensures st == Done ==> a.View() == Reading(a.bits)(old(a.View()), b)
    ensures st == Done ==> BlockInReach(old(Contents(a)), b.block) && Contents(a) == Meaning(old(Contents(a)), b.block)
    ensures st == Corrupt ==> NothingAt(a.bits, old(a.consumed), TypeRead(old(a.View())), old(Contents(a)))
    ensures st == NoRoom && Growing(a) ==>
      BodyOverflows(a.bits, old(a.consumed), TypeRead(old(a.View())), old(Contents(a)), a.cap)
  {
    ghost var p := a.consumed;
    LsbBound(a.bits, p, 1);
    var f := a.Receive(1);
    var kind := a.Receive(2);
    final := f == 1;
    ghost var block;
    st, block := ParseBlock(a, kind, p);
    b := Placed(block, final, a.consumed);
  }

  lemma ReadOneBlockMore(read: (Reader, Placed) -> Reader, r: Reader, bs: seq<Placed>, b: Placed)
    ensures StreamRead(read, r, bs + [b]) == read(StreamRead(read, r, bs), b)
  {
    assert (bs + [b])[..|bs|] == bs;
  }

  /** A block starts inside the input and ends after its start. */
  lemma Within(bits: seq<nat>, p: nat, b: Placed)
    requires PlacedAt(bits, p, b)
    ensures p < |bits| && p < b.end
  {
    StandsWithin(bits, p, b.block, b.end);
  }

  lemma StandsWithin(bits: seq<nat>, p: nat, b: Block, q: nat)
    requires StandsAt(bits, p, b, q)
    ensures p < |bits| && p < q
  {
    if p >= |bits| { LsbBeyond(bits, p + 1, 2); }
    StandsKind(bits, p, b, q);
    if b.Fixed? {
      TokensForward(bits, p + 3, FixedLit(), FixedDist(), b.tokens);
    } else if b.Dynamic? {
      DynamicForward(bits, p, b, q);
    }
  }

  lemma DynamicForward(bits: seq<nat>, p: nat, b: Block, q: nat)
    requires b.Dynamic? && HeaderAt(bits, p + 3, b.cl, b.items, b.lit, b.dist, b.m)
    requires BlockAt(bits, b.m, b.lit, b.dist, b.tokens, q)
    ensures p < q
  {
    ItemsForward(bits, ItemsStart(bits, p + 3), b.cl, b.items);
    TokensForward(bits, b.m, b.lit, b.dist, b.tokens);
  }

  lemma {:induction false} ItemsForward(bits: seq<nat>, p: nat, cl: seq<nat>, its: seq<Item>)
    ensures ItemsEnd(bits, p, cl, its) >= 0 ==> ItemsEnd(bits, p, cl, its) >= p
    decreases |its|
  {
    if its != [] { ItemsForward(bits, p, cl, its[..|its| - 1]); }
  }

  /** A further block continues the list of blocks, and completes it if it is marked final. */
  lemma PlaceBlock(bits: seq<nat>, p: nat, bs: seq<Placed>, m: nat, before: seq<Byte>, now: seq<Byte>, b: Placed)
    requires Unfinished(Placing(bits), p, bs, m, before, now) && PlacedAt(bits, m, b) && BlockInReach(now, b.block)
    ensures b.final ==> Finished(Placing(bits), p, bs + [b], b.end, before, Meaning(now, b.block))
    ensures !b.final ==> Unfinished(Placing(bits), p, bs + [b], b.end, before, Meaning(now, b.block))
  {
    assert (bs + [b])[..|bs|] == bs;
    assert Placing(bits)(m, b);
  }

  /** Every complete stream at `p` continues the unfinished list of blocks found there. */
  lemma StreamExtends(at: (nat, Placed) -> bool, p: nat, bs: seq<Placed>, cs: seq<Placed>)
    requires Deterministic(at) && Chain(at, p, bs) && NoneFinal(bs, |bs|) && Stream(at, p, cs)
    ensures |bs| < |cs| && cs[..|bs|] == bs && at(EndOf(p, bs), cs[|bs|])
  {
    if |cs| <= |bs| {
      ChainsComparable(at, p, cs, bs);
    } else {
      ChainsComparable(at, p, bs, cs);
      assert cs[..|bs|] == bs;
      ChainPrefix(at, p, cs, |bs|);
    }
  }

  lemma {:induction false} StreamReachPrefix(out: seq<Byte>, cs: seq<Placed>, n: nat)
    requires n < |cs| && StreamInReach(out, cs)
    ensures StreamInReach(out, cs[..n]) && BlockInReach(StreamMeaning(out, cs[..n]), cs[n].block)
    decreases |cs|
  {
    if n < |cs| - 1 {
      StreamReachPrefix(out, cs[..|cs| - 1], n);
      assert cs[..|cs| - 1][..n] == cs[..n];
    }
  }

  /** If nothing valid follows the blocks found so far, no stream can be read. */
  lemma NothingNoStream(bits: seq<nat>, r: Reader, bs: seq<Placed>, m: Reader, before: seq<Byte>, now: seq<Byte>)
    requires Binary(bits) && r.Live? && m.Live? && m == StreamRead(Reading(bits), r, bs)
    requires Unfinished(Placing(bits), r.at, bs, m.at, before, now) && NothingAt(bits, m.at, TypeRead(m), now)
    ensures NoStreamAt(bits, r, before)
  {
    PlacingDeterministic(bits);
    ReadingStaysExhausted(bits);
    forall cs | Stream(Placing(bits), r.at, cs) && StreamInReach(before, cs)
      ensures StreamRead(Reading(bits), r, cs).Exhausted?
    {
      StreamExtends(Placing(bits), r.at, bs, cs);
      StreamReachPrefix(before, cs, |bs|);
      NextTooFar(bits, m, now, cs[|bs|]);
      Blocked(Reading(bits), r, bs, cs);
    }
  }

  lemma Blocked(read: (Reader, Placed) -> Reader, r: Reader, bs: seq<Placed>, cs: seq<Placed>)
    requires StaysExhausted(read) && |bs| < |cs| && cs[..|bs|] == bs
    requires read(StreamRead(read, r, bs), cs[|bs|]).Exhausted?
    ensures StreamRead(read, r, cs).Exhausted?
  {
    assert cs[..|bs| + 1] == bs + [cs[|bs|]];
    ReadOneBlockMore(read, r, bs, cs[|bs|]);
    StreamStaysExhausted(read, r, cs, |bs| + 1);
  }

  lemma NextTooFar(bits: seq<nat>, m: Reader, now: seq<Byte>, b: Placed)
    requires m.Live? && NothingAt(bits, m.at, TypeRead(m), now) && PlacedAt(bits, m.at, b) && BlockInReach(now, b.block)
    ensures Reading(bits)(m, b).Exhausted?
  {
  }

  // ------------------------------------------------------------ zlib data

  /** The check of the two bytes of section 2.2 of RFC 1950, without a preset dictionary. */
  predicate HeaderBytesOk(cmf: nat, flg: nat) {
    (cmf * 256 + flg) % 31 == 0 && And(flg, 32) == 0 && And(cmf, 15) == 8
  }

  /** The data starts with a zlib header and goes on after it. */
  predicate ZlibHeaderOk(data: seq<Byte>) {
    |data| > 2 && HeaderBytesOk(data[0], data[1])
  }

  /** Checks the header bytes and leaves the reader behind them. */
  method ParseZlibHeader(a: ZBuf) returns (ok: bool)
    requires a.pos == 0
    modifies a`pos
    ensures ok <==> ZlibHeaderOk(a.input)
    ensures ok ==> a.pos == 2
  {
    var cmf: nat := a.Get8();
    var cm := And(cmf, 15);
    var flg: nat := a.Get8();
    if a.Eof() { return false; }
    if (cmf * 256 + flg) % 31 != 0 { return false; }
    if And(flg, 32) != 0 { return false; }
    if cm != 8 { return false; }
    return true;
  }

  /** The reader at the start of the compressed data. */
  function StartReader(parse_header: bool): (r: Reader)
    ensures r.Live?
  {
    if parse_header then Live(16, 16, false) else Live(0, 0, false)
  }

  /** The blocks form a valid stream in the data that the reader can read to the end. */
  ghost predicate Accepted(data: seq<Byte>, parse_header: bool, bs: seq<Placed>) {
    && (parse_header ==> ZlibHeaderOk(data))
    && Stream(Placing(InputBits(data)), StartReader(parse_header).at, bs) && StreamInReach([], bs)
    && StreamRead(Reading(InputBits(data)), StartReader(parse_header), bs).Live?
  }

  /** What a run may answer, if the memory does not run out: the output of an accepted stream, or that there is none. */
  ghost predicate Answer(data: seq<Byte>, parse_header: bool, st: Status, out: seq<Byte>) {
    && (st == Done ==> exists bs :: Accepted(data, parse_header, bs) && out == StreamMeaning([], bs))
    && (st == Corrupt ==> forall bs :: !Accepted(data, parse_header, bs))
  }

  /** Prepares a run over `data`, past the zlib header if one is expected. */
  method Open(data: seq<Byte>, size: nat, parse_header: bool, memory: bool) returns (ok: bool, a: ZBuf)
    requires 0 < size <= UINT_MAX
    ensures fresh(a) && fresh(a.out) && fresh(a.z_length.Repr) && fresh(a.z_distance.Repr)
    ensures a.bits == InputBits(data) && a.expandable && a.memory == memory && a.cap == Cap(size)
    ensures ok <==> (parse_header ==> ZlibHeaderOk(data))
    ensures ok ==> Ready(a) && a.View() == StartReader(parse_header) && Contents(a) == []
  {
    a := new ZBuf(data, size, true, memory, Cap(size));
    ok := true;
    if parse_header { ok := SkipZlibHeader(a); }
  }

  /** Starts the bit reader behind the header. */
  method SkipZlibHeader(a: ZBuf) returns (ok: bool)
    requires a.BitsOk() && a.pos == 0 && a.fill == 0
    modifies a`pos, a`num_bits, a`code_buffer, a`hit_zeof_once, a`consumed
    ensures ok <==> ZlibHeaderOk(a.input)
    ensures ok ==> a.BitsOk() && a.View() == StartReader(true)
  {
    ok := ParseZlibHeader(a);
    a.num_bits, a.code_buffer, a.hit_zeof_once := 0, 0, false;
    a.consumed := 16;
  }

  /** When a run may say that the output does not fit a buffer of at most `cap` bytes, if no allocation fails. */
  ghost predicate Fits(data: seq<Byte>, parse_header: bool, st: Status, out: seq<Byte>, cap: nat) {
    && (st == NoRoom ==> (parse_header ==> ZlibHeaderOk(data))
                         && StreamOverflows(InputBits(data), StartReader(parse_header), [], cap))
    && (st == Done ==> |out| <= cap)
  }

  /** Decompresses `data` into a buffer of `initial_size` bytes that grows as needed; `memory` tells whether every
      allocation succeeds. */
  method ZlibDecode(data: seq<Byte>, initial_size: nat, parse_header: bool, memory: bool)
    returns (st: Status, out: seq<Byte>)
    requires 0 < initial_size <= UINT_MAX
    ensures Answer(data, parse_header, st, out)
    ensures memory ==> Fits(data, parse_header, st, out, Cap(initial_size))
  {
    out := [];
    if !memory {
      if * { return NoRoom, out; }  // malloc may fail
    }
    var ok, a := Open(data, initial_size, parse_header, memory);
    if !ok { return Corrupt, out; }
    ghost var bs;
    st, bs := ParseBlocks(a);
    out := a.out[..a.zout];
    assert st == Done ==> Accepted(data, parse_header, bs) && out == StreamMeaning([], bs);
  }

  /** Two runs on the same data that do not run out of memory give the same answer, whatever the buffer sizes. */
  lemma DecodeDeterministic(data: seq<Byte>, parse_header: bool, st: Status, out: seq<Byte>, st': Status,
                            out': seq<Byte>)
    requires Answer(data, parse_header, st, out) && Answer(data, parse_header, st', out')
    requires st != NoRoom && st' != NoRoom
    ensures st == st' && (st == Done ==> out == out')
  {
    if st == Done && st' == Done {
      var bs :| Accepted(data, parse_header, bs) && out == StreamMeaning([], bs);
      var cs :| Accepted(data, parse_header, cs) && out' == StreamMeaning([], cs);
      InputBitsAreBits(data);
      StreamUnique(InputBits(data), StartReader(parse_header).at, bs, cs);
    }
  }
}
