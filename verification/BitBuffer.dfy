/** How far the bit reader has read ahead of the bits it has delivered, as a function of what is read. */
module BitBuffer {
  // The reader fills its buffer in whole bytes, with zeros once the input of `size` bits is used up, and may
  // add 16 zero bits once. Whether data that runs past the input is accepted depends on this state alone.

  /** The next bit to be delivered, the end of the buffered bits, and whether the 16 zero bits were added;
      or the reader has refused to go on. */
  datatype Reader = Live(at: nat, end: nat, hit: bool) | Exhausted

  function Pad(hit: bool): nat { if hit then 16 else 0 }

  /** The end of the buffer after filling it byte by byte to more than 24 bits. */
  function Extended(at: nat, end: nat): (r: nat)
    ensures end <= r && at + 24 < r && (end <= at + 32 ==> r <= at + 32)
    decreases at + 32 - end
  {
    if end > at + 24 then end else Extended(at, end + 8)
  }

  /** After delivering `n` bits. */
  function Received(r: Reader, n: nat): Reader {
    if r.Exhausted? then r
    else Live(r.at + n, if r.end - r.at < n then Extended(r.at, r.end) else r.end, r.hit)
  }

  /** With 16 bits in the buffer, if they can be had. */
  function Refilled(r: Reader, size: nat): Reader {
    if r.Exhausted? || r.end - r.at >= 16 then r
    else if r.end - Pad(r.hit) < size then r.(end := Extended(r.at, r.end))
    else if !r.hit then Live(r.at, r.end + 16, true)
    else Exhausted
  }

  /** After decoding a symbol of `n` bits. */
  function Decoded(r: Reader, size: nat, n: nat): Reader {
    var f := Refilled(r, size);
    if f.Exhausted? then f else f.(at := f.at + n)
  }

  /** How many zero bits past the input were filled in for missing bytes. */
  function Fill(r: Reader, size: nat): nat
    requires r.Live?
  {
    if r.end - Pad(r.hit) <= size then 0 else r.end - Pad(r.hit) - size
  }

  /** The test that the decoder makes at the end marker of a block. */
  predicate Overdrawn(r: Reader) { r.Live? && r.hit && r.end - r.at < 16 }

  /** What every reader keeps: at most 32 bits are buffered, and the zero bits are added only behind the input. */
  ghost predicate ReaderOk(r: Reader, size: nat) {
    r.Live? ==> r.at <= r.end <= r.at + 32 && (r.hit ==> r.end - 16 >= size)
  }

  lemma ReceivedOk(r: Reader, size: nat, n: nat)
    requires ReaderOk(r, size) && n <= 16
    ensures ReaderOk(Received(r, n), size)
    ensures r.Live? ==> Received(r, n).Live? && Received(r, n).at == r.at + n
  {
  }

  lemma DecodedOk(r: Reader, size: nat, n: nat)
    requires ReaderOk(r, size) && n <= 16
    ensures ReaderOk(Decoded(r, size, n), size)
    ensures r.Live? && Decoded(r, size, n).Live? ==> Decoded(r, size, n).at == r.at + n
    ensures r.Live? && r.at <= size ==> Decoded(r, size, n).Live?
  {
  }

  /** The test at the end marker fires exactly when more bits were delivered than the input has and were
      filled in for missing bytes: the zeros filled in are not counted. */
  lemma MarkerRejected(r: Reader, size: nat)
    requires r.Live? && ReaderOk(r, size)
    ensures Overdrawn(r) <==> r.at > size + Fill(r, size)
  {
  }

  /** A reader stands inside the input exactly when it still buffers all zeros past the input. */
  lemma InsideInput(r: Reader, size: nat)
    requires r.Live? && ReaderOk(r, size)
    ensures r.at <= size <==> Fill(r, size) + Pad(r.hit) <= r.end - r.at
  {
  }

  /** With 32 bits of input still ahead of it, a reader has put no zeros behind the input. */
  lemma NoPadding(r: Reader, size: nat)
    requires r.Live? && ReaderOk(r, size) && r.at + 32 <= size
    ensures Fill(r, size) == 0 && !r.hit && r.end <= size
  {
  }
}
