/** Which streams the decoder accepts: all that end inside the input, and some that run past it. */
module Padding {
  import opened CanonicalCode
  import opened BitStream
  import opened BitBuffer
  import opened Deflate
  import opened DeflateStream
  import opened DeflateReads
  import opened Inflate
  import opened InflateStream
  import opened OutputRoom

  /** The reader after a list of blocks. */
  ghost function After(bits: seq<nat>, r: Reader, bs: seq<Placed>): Reader { StreamRead(Reading(bits), r, bs) }

  /** The reader follows the blocks of a stream, and blocks inside the input never exhaust it. */
  lemma {:induction false} StreamFollows(bits: seq<nat>, r: Reader, bs: seq<Placed>)
    requires r.Live? && ReaderOk(r, |bits|) && Chain(Placing(bits), r.at, bs)
    ensures Follows(After(bits, r, bs), |bits|, EndOf(r.at, bs))
    decreases |bs|
  {
    if bs != [] {
      var n := |bs| - 1;
      var e := After(bits, r, bs[..n]);
      StreamFollows(bits, r, bs[..n]);
      Within(bits, EndOf(r.at, bs[..n]), bs[n]);
      PlacedFollows(bits, e, bs[n]);
    }
  }

  /** A valid stream that ends inside the input is accepted. */
  lemma InsideAccepted(data: seq<Byte>, parse_header: bool, bs: seq<Placed>)
    requires parse_header ==> ZlibHeaderOk(data)
    requires Stream(Placing(InputBits(data)), StartReader(parse_header).at, bs) && StreamInReach([], bs)
    requires EndOf(StartReader(parse_header).at, bs) <= |InputBits(data)|
    ensures Accepted(data, parse_header, bs)
  {
    StreamFollows(InputBits(data), StartReader(parse_header), bs);
  }

  /** Exactly which accepted streams end inside the input: those after which the reader still buffers every
      zero bit it ever put behind the input. */
  lemma AcceptedInside(data: seq<Byte>, parse_header: bool, bs: seq<Placed>)
    requires Accepted(data, parse_header, bs)
    ensures var bits, r := InputBits(data), StartReader(parse_header);
            var e := After(bits, r, bs);
            e.Live? && e.at == EndOf(r.at, bs)
            && (e.at <= |bits| <==> Fill(e, |bits|) + Pad(e.hit) <= e.end - e.at)
  {
    var bits, r := InputBits(data), StartReader(parse_header);
    StreamFollows(bits, r, bs);
    InsideInput(After(bits, r, bs), |bits|);
  }

  /** A stream with at least 32 bits of input behind it, such as the checksum of zlib, is accepted without a single
      bit of padding having been buffered. */
  lemma TrailerKeepsPaddingOut(data: seq<Byte>, parse_header: bool, bs: seq<Placed>)
    requires parse_header ==> ZlibHeaderOk(data)
    requires Stream(Placing(InputBits(data)), StartReader(parse_header).at, bs) && StreamInReach([], bs)
    requires EndOf(StartReader(parse_header).at, bs) + 32 <= |InputBits(data)|
    ensures Accepted(data, parse_header, bs)
    ensures var e := After(InputBits(data), StartReader(parse_header), bs);
            e.Live? && Fill(e, |InputBits(data)|) == 0 && !e.hit
  {
    var bits, r := InputBits(data), StartReader(parse_header);
    StreamFollows(bits, r, bs);
    NoPadding(After(bits, r, bs), |bits|);
  }

  /** An accepted stream that ends past the input ends in zeros that were filled in for missing bytes, at most as
      many bits past it as were filled in. */
  lemma OutsideMeansFilled(data: seq<Byte>, parse_header: bool, bs: seq<Placed>)
    requires Accepted(data, parse_header, bs)
    ensures var bits, r := InputBits(data), StartReader(parse_header);
            EndOf(r.at, bs) <= |bits| + Fill(After(bits, r, bs), |bits|)
  {
    var bits, r := InputBits(data), StartReader(parse_header);
    var last := |bs| - 1;
    StreamFollows(bits, r, bs);
    StreamFollows(bits, r, bs[..last]);
    LastMarker(bits, After(bits, r, bs[..last]), bs[last]);
  }

  /** The end marker of the last block has passed the test, and a stored block lies inside the input. */
  lemma LastMarker(bits: seq<nat>, r: Reader, b: Placed)
    requires ReaderOk(r, |bits|) && (r.Live? ==> PlacedAt(bits, r.at, b))
    requires PlacedRead(bits, r, b).Live?
    ensures var e := PlacedRead(bits, r, b); e.at <= |bits| + Fill(e, |bits|)
  {
    if r.Exhausted? { BodyStaysExhausted(bits, b.block, b.end); }
    PlacedFollows(bits, r, b);
    if !b.block.Stored? { MarkerRejected(PlacedRead(bits, r, b), |bits|); }
  }

  // ------------------------------------------- streams that end in padding

  lemma {:induction false} RankNone(lens: seq<nat>, n: nat, l: nat)
    requires n <= |lens| && forall i :: 0 <= i < n ==> lens[i] != l
    ensures Rank(lens, n, l) == 0
    decreases n
  {
    if n > 0 { RankNone(lens, n - 1, l); }
  }

  lemma {:induction false} FirstNone(lens: seq<nat>, l: nat)
    requires forall v :: 0 <= v < |lens| ==> lens[v] >= l
    ensures First(lens, l) == 0
    decreases l
  {
    if l > 0 {
      FirstNone(lens, l - 1);
      RankNone(lens, |lens|, l - 1);
    }
  }

  lemma {:induction false} MsbZero(bits: seq<nat>, p: nat, n: nat)
    requires forall k: nat :: p <= k < p + n ==> At(bits, k) == 0
    ensures Msb(bits, p, n) == 0
    decreases n
  {
    if n > 0 { MsbZero(bits, p, n - 1); }
  }

  /** Seven zero bits are the end marker of a block with fixed codes. */
  lemma ZerosEndFixed(bits: seq<nat>, p: nat)
    requires forall k: nat :: p <= k < p + 7 ==> At(bits, k) == 0
    ensures BlockAt(bits, p, FixedLit(), FixedDist(), [], p + 7)
  {
    var lens := FixedLit();
    assert lens[END_OF_BLOCK] == 7;
    FirstNone(lens, 7);
    RankNone(lens, END_OF_BLOCK, 7);
    MsbZero(bits, p, 7);
  }

  lemma BitsOfThree(bits: seq<nat>)
    requires bits == InputBits([3])
    ensures |bits| == 8 && bits[0] == 1 && bits[1] == 1 && forall k :: 2 <= k < 8 ==> bits[k] == 0
  {
    assert [3][..0] == [];
    assert bits == ByteBits(3, 8);
    assert ByteBits(3, 8) == [1] + ([1] + ByteBits(0, 6));
    ZeroBits(6);
  }

  lemma {:induction false} ZeroBits(n: nat)
    ensures forall k :: 0 <= k < n ==> ByteBits(0, n)[k] == 0
  {
    if n > 0 { ZeroBits(n - 1); }
  }

  /** The stream in the single byte 3 is one empty block that ends two bits past the input. */
  lemma EndsInPadding(bits: seq<nat>)
    requires bits == InputBits([3])
    ensures Stream(Placing(bits), 0, [Placed(Fixed([]), true, 10)]) && |bits| == 8
  {
    BitsOfThree(bits);
    ZerosEndFixed(bits, 3);
    assert Lsb(bits, 0, 1) == 1 by { assert At(bits, 0) == 1; }
    assert Lsb(bits, 1, 2) == 1 by { assert At(bits, 1) == 1 && At(bits, 2) == 0 && Lsb(bits, 2, 1) == 0; }
    var b := Placed(Fixed([]), true, 10);
    assert [b][..0] == [] && Placing(bits)(0, b);
  }

  /** The decoder accepts that stream, so it never answers that the byte 3 is corrupt. */
  lemma PaddedStreamAccepted(data: seq<Byte>, st: Status, out: seq<Byte>)
    requires data == [3] && Answer(data, false, st, out)
    ensures Accepted(data, false, [Placed(Fixed([]), true, 10)])
    ensures st != Corrupt && (st == Done ==> out == [])
  {
    var bits, b := InputBits(data), Placed(Fixed([]), true, 10);
    EndsInPadding(bits);
    InputBitsAreBits(data);
    ThreeIsRead(bits);
    NothingIsWritten(b);
    assert Accepted(data, false, [b]);
    if st == Done {
      var bs :| Accepted(data, false, bs) && out == StreamMeaning([], bs);
      StreamUnique(bits, 0, bs, [b]);
    }
  }

  /** So decompressing that byte fails at most when an allocation fails, and gives the empty output. */
  method DecodeByteThree(initial_size: nat, memory: bool) returns (st: Status, out: seq<Byte>)
    requires 0 < initial_size <= UINT_MAX
    ensures st == Done ==> out == []
    ensures st != Corrupt && (memory ==> st == Done)
  {
    st, out := ZlibDecode([3], initial_size, false, memory);
    PaddedStreamAccepted([3], st, out);
    if memory {
      NothingIsWritten(Placed(Fixed([]), true, 10));
      RoomDecides([3], false, st, out, Cap(initial_size), [Placed(Fixed([]), true, 10)]);
    }
  }

  lemma NothingIsWritten(b: Placed)
    requires b.block == Fixed([])
    ensures StreamInReach([], [b]) && StreamMeaning([], [b]) == []
  {
    assert [b][..0] == [];
    assert StreamInReach([], []) && StreamMeaning([], []) == [];
  }

  /** Filling the buffer for the header bits leaves enough zeros in it for the end marker. */
  lemma ThreeIsRead(bits: seq<nat>)
    requires bits == InputBits([3])
    ensures After(bits, Live(0, 0, false), [Placed(Fixed([]), true, 10)]) == Live(10, 32, false)
  {
    var b := Placed(Fixed([]), true, 10);
    OneBlockRead(Reading(bits), Live(0, 0, false), b);
    TypeBitsRead();
    assert CodeLength(FixedLit(), END_OF_BLOCK) == 7;
    EmptyBlockRead(|bits|, FixedLit(), FixedDist());
  }

  lemma OneBlockRead(read: (Reader, Placed) -> Reader, r: Reader, b: Placed)
    ensures StreamRead(read, r, [b]) == read(r, b)
  {
    assert [b][..0] == [];
  }

  /** Reading the three header bits fills the buffer. */
  lemma TypeBitsRead()
    ensures TypeRead(Live(0, 0, false)) == Live(3, 32, false)
  {
    assert Extended(0, 16) == 32 && Extended(0, 8) == 32;
  }

  lemma EmptyBlockRead(size: nat, lit: seq<nat>, dist: seq<nat>)
    requires CodeLength(lit, END_OF_BLOCK) == 7
    ensures BlockRead(size, Live(3, 32, false), lit, dist, []) == Live(10, 32, false)
  {
  }
}
