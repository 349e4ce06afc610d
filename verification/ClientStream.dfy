/** The two receivers of LGP frames: the compositor's buffer of one client, and the Rust connection. */
module ClientStream {
  import opened Bytes
  import opened Framing

  /** Reads type and length of the frame at the start of a buffer. */
  method PeekHeader(buf: array<Byte>, len: nat) returns (ok: bool, kind: nat, length: nat)
    requires len <= buf.Length
    ensures ok <==> len >= HEADER_SIZE
    ensures ok ==> kind == KindOf(buf[..len]) && length == LengthOf(buf[..len])
  {
    if len < HEADER_SIZE { return false, 0, 0; }
    return true, Le16(buf[0], buf[1]), Le32(buf[2], buf[3], buf[4], buf[5]);
  }

  /** Takes the frame at the start of a buffer apart. */
  method TlvDecode(buf: array<Byte>, len: nat) returns (ok: bool, msg: Msg)
    requires len <= buf.Length
    ensures ok <==> FrameAt(buf[..len], len).Whole?
    ensures ok ==> msg == FrameAt(buf[..len], len).msg
  {
    var kind, length;
    ok, kind, length := PeekHeader(buf, len);
    if !ok || length < HEADER_SIZE || len < length { return false, Msg(0, []); }
    assert buf[HEADER_SIZE..length] == buf[..len][HEADER_SIZE..length];
    msg := Msg(kind, buf[HEADER_SIZE..length]);
  }

  /** Writes a frame header; a length that is too small becomes that of an empty frame. */
  method EncodeHeader(buf: array<Byte>, kind: nat, length: nat) returns (ok: bool)
    modifies buf
    ensures ok <==> buf.Length >= HEADER_SIZE
    ensures ok ==>
      buf[..] == Header(kind, if length < HEADER_SIZE then HEADER_SIZE else length) + old(buf[HEADER_SIZE..])
    ensures !ok ==> buf[..] == old(buf[..])
  {
    if buf.Length < HEADER_SIZE { return false; }
    var n := if length < HEADER_SIZE then HEADER_SIZE else length;
    buf[0] := kind % 256;
    buf[1] := kind / 256 % 256;
    buf[2] := n % 256;
    buf[3] := n / 256 % 256;
    buf[4] := n / 256 / 256 % 256;
    buf[5] := n / 256 / 256 / 256 % 256;
    HeaderIs(kind, n, buf[..HEADER_SIZE]);
    return true;
  }

  lemma HeaderIs(kind: nat, n: nat, b: seq<Byte>)
    requires b == [kind % 256, kind / 256 % 256]
                  + [n % 256, n / 256 % 256, n / 256 / 256 % 256, n / 256 / 256 / 256 % 256]
    ensures b == Header(kind, n)
  {
    FourBytes(n, LeBytes(n, 4));
    LeBytesAt(kind, 2);
    LeBytesAt(kind / 256, 1);
    assert LeBytes(kind, 2) == [kind % 256, kind / 256 % 256] by {
      assert LeBytes(kind, 2)[1] == LeBytes(kind, 2)[1..][0];
    }
  }

  /** What a socket has to offer. */
  datatype Ready = Data(bytes: seq<Byte>) | EndOfStream | NotNow | Broken

  class Receiver {
    const rxBuf: array<Byte>
    var rxLen: nat
    var dispatched: seq<Msg>        // the messages given to the handler

    ghost predicate Valid()
      reads this
    {
      rxBuf.Length == RX_BUFFER_SIZE && rxLen <= RX_BUFFER_SIZE
    }

    ghost function Buffered(): seq<Byte>
      requires Valid()
      reads this, rxBuf
    {
      rxBuf[..rxLen]
    }

    constructor ()
      ensures Valid() && Buffered() == [] && dispatched == [] && fresh(rxBuf)
    {
      rxBuf := new Byte[RX_BUFFER_SIZE];
      rxLen, dispatched := 0, [];
    }

    /** One read from the socket: 1 to go on, 0 at the end of the stream, -1 after an error or when the buffer
        is full; `n` bytes were read. */
    method ReadAvailable(ready: Ready) returns (r: int, n: nat)
      requires Valid() && (ready.Data? ==> ready.bytes != [])
      modifies this`rxLen, rxBuf
      ensures Valid()
      ensures r == if old(rxLen) == RX_BUFFER_SIZE then -1
                   else match ready case Data(_) => 1 case NotNow => 1 case EndOfStream => 0 case Broken => -1
      ensures if ready.Data? && r == 1 then 0 < n <= |ready.bytes| && Buffered() == old(Buffered()) + ready.bytes[..n]
              else n == 0 && Buffered() == old(Buffered())
    {
      var available := rxBuf.Length - rxLen;
      n := 0;
      if available == 0 { return -1, n; }
      match ready
      case Data(bytes) =>
        n := if available < |bytes| then available else |bytes|;
        forall i | 0 <= i < n { rxBuf[rxLen + i] := bytes[i]; }
        rxLen := rxLen + n;
        r := 1;
      case EndOfStream => r := 0;
      case NotNow => r := 1;
      case Broken => r := -1;
    }

    /** Drops the first bytes of the buffer. */
    method Shift(length: nat)
      requires Valid() && length <= rxLen
      modifies this`rxLen, rxBuf
      ensures Valid() && Buffered() == old(Buffered())[length..]
    {
      var remaining := rxLen - length;
      forall i | 0 <= i < remaining { rxBuf[i] := rxBuf[i + length]; }
      rxLen := remaining;
    }

    /** Hands every complete message to the handler; false when the client has to be closed. */
    method ProcessMessages(accept: seq<Msg> -> bool) returns (ok: bool)
      requires Valid()
      modifies this, rxBuf
      ensures Valid()
      ensures var p := Parse(accept, old(dispatched), old(Buffered()));
              dispatched == p.msgs && Buffered() == p.rest && (ok <==> p.end.Waiting?)
    {
      ghost var whole := Parse(accept, dispatched, Buffered());
      while rxLen >= HEADER_SIZE
        invariant Valid() && Parse(accept, dispatched, Buffered()) == whole
        decreases rxLen
      {
        var ok', kind, length := PeekHeader(rxBuf, rxLen);
        if length < HEADER_SIZE || length > rxBuf.Length { return false; }
        if rxLen < length { return true; }
        var msg := DecodeFirst(length);
        dispatched := dispatched + [msg];
        if !accept(dispatched) { return false; }
        Shift(length);
      }
      return true;
    }

    /** Decoding cannot fail once the length has been checked. */
    method DecodeFirst(length: nat) returns (msg: Msg)
      requires Valid() && HEADER_SIZE <= length <= rxLen && length == LengthOf(Buffered())
      ensures FrameAt(Buffered(), RX_BUFFER_SIZE) == Whole(msg, length)
    {
      var ok;
      ok, msg := TlvDecode(rxBuf, length);
      assert rxBuf[..length] == Buffered()[..length];
      assert rxBuf[..length][HEADER_SIZE..length] == Buffered()[HEADER_SIZE..length];
    }

    /** Reads a stream with the given limits on the size of each read, 0 for one that finds nothing yet, until the
        stream ends, no read is left or the client is closed. The buffer is never found full. */
    method Serve(accept: seq<Msg> -> bool, stream: seq<Byte>, cuts: seq<nat>)
      returns (pos: nat, full: bool, alive: bool)
      requires Valid() && Buffered() == [] && dispatched == []
      modifies this, rxBuf
      ensures Valid() && pos <= |stream| && !full
      ensures var p := Parse(accept, [], stream[..pos]);
              dispatched == p.msgs && Buffered() == p.rest && (alive <==> p.end.Waiting?)
      ensures alive && 0 !in cuts && |cuts| >= |stream| ==> pos == |stream|
    {
      pos, full, alive := 0, false, true;
      assert stream[..0] == [];
      var k := 0;
      while k < |cuts| && pos < |stream| && alive
        invariant Valid() && pos <= |stream| && k <= |cuts| && !full
        invariant Served(accept, stream[..pos], alive)
        invariant alive && 0 !in cuts && pos < |stream| ==> pos >= k
      {
        var cut := cuts[k];
        k := k + 1;
        pos, full, alive := ServeOne(accept, stream, pos, if pos + cut < |stream| then pos + cut else |stream|);
      }
    }

    ghost predicate Served(accept: seq<Msg> -> bool, read: seq<Byte>, alive: bool)
      requires Valid()
      reads this, rxBuf
    {
      var p := Parse(accept, [], read);
      dispatched == p.msgs && Buffered() == p.rest && (alive <==> p.end.Waiting?)
    }

    /** One read of at most the bytes up to `last`, or of nothing yet, and the messages it completes. */
    method ServeOne(accept: seq<Msg> -> bool, stream: seq<Byte>, pos: nat, last: nat)
      returns (pos': nat, full: bool, alive: bool)
      requires Valid() && pos <= last <= |stream| && Served(accept, stream[..pos], true)
      modifies this, rxBuf
      ensures Valid() && pos <= pos' <= last && (pos < last ==> pos < pos')
      ensures !full && Served(accept, stream[..pos'], alive)
    {
      var waiting := stream[pos..last];
      var r, n := ReadAvailable(if waiting == [] then NotNow else Data(waiting));
      full := r < 0;
      pos' := pos + n;
      assert Buffered() == old(Buffered()) + waiting[..n];
      assert stream[..pos'] == stream[..pos] + waiting[..n];
      ParseResumes(accept, [], stream[..pos], waiting[..n]);
      alive := ProcessMessages(accept);
    }
  }

  // --------------------------------------------------- the Rust connection

  datatype Received = Ok(msg: Msg) | InvalidLength | UnexpectedEof

  class LgpConnection {
    var rxBuf: seq<Byte>
    var incoming: seq<seq<Byte>>     // what the following reads return; then the peer has closed

    /** All bytes that have arrived or will arrive. */
    ghost function Stream(): seq<Byte>
      reads this
    {
      rxBuf + Concat(incoming)
    }

    constructor (chunks: seq<seq<Byte>>)
      ensures rxBuf == [] && incoming == chunks
    {
      rxBuf, incoming := [], chunks;
    }

    /** The next message of the stream, however the reads cut it. */
    method Recv() returns (r: Received)
      modifies this
      ensures match FrameAt(old(Stream()), MAX_MSG_SIZE)
              case Whole(msg, size) => r == Ok(msg) && Stream() == old(Stream())[size..]
              case BadLength => r == InvalidLength && Stream() == old(Stream())
              case TooShort => r == UnexpectedEof && Stream() == old(Stream())
    {
      while true
        invariant Stream() == old(Stream())
        decreases |incoming|
      {
        FrameKept(rxBuf, Concat(incoming), MAX_MSG_SIZE);
        if |rxBuf| >= HEADER_SIZE {
          var total := Le32(rxBuf[2], rxBuf[3], rxBuf[4], rxBuf[5]);
          if total < HEADER_SIZE || total > MAX_MSG_SIZE { return InvalidLength; }
          if |rxBuf| >= total {
            var frame := rxBuf[..total];
            rxBuf := rxBuf[total..];
            return Ok(Msg(Le16(frame[0], frame[1]), frame[HEADER_SIZE..]));
          }
        }
        if incoming == [] { assert Stream() == rxBuf; return UnexpectedEof; }
        ConcatHead(incoming);
        rxBuf := rxBuf + incoming[0];
        incoming := incoming[1..];
      }
    }
  }

  lemma {:induction false} ConcatHead(chunks: seq<seq<Byte>>)
    requires chunks != []
    ensures Concat(chunks) == chunks[0] + Concat(chunks[1..])
    decreases |chunks|
  {
    var last := |chunks| - 1;
    if last == 0 {
      assert Concat(chunks[..last]) == [] && Concat(chunks[1..]) == [];
    } else {
      var front, rest := chunks[..last], chunks[1..];
      ConcatHead(front);
      assert front[1..] == rest[..last - 1] && front[0] == chunks[0] && rest[last - 1] == chunks[last];
      Regroup(chunks[0], Concat(front[1..]), chunks[last]);
    }
  }

  /** What the compositor and the Rust connection exchange: a message sent by one as a frame is what the
      other receives, unless it is larger than the receiver's limit. */
  lemma FrameReceived(m: Msg, t: seq<Byte>)
    requires m.kind < TWO_16 && HEADER_SIZE + |m.payload| < TWO_32
    ensures FrameAt(Encode(m) + t, MAX_MSG_SIZE) == Whole(m, |Encode(m)|) <==> |m.payload| <= 65530
    ensures FrameAt(Encode(m) + t, RX_BUFFER_SIZE) == Whole(m, |Encode(m)|) <==> |m.payload| <= 4090
  {
    EncodeRead(m, t, MAX_MSG_SIZE);
    EncodeRead(m, t, RX_BUFFER_SIZE);
  }
}
