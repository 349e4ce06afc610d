/** The frames of the LGP protocol: a type, a length and a payload, cut out of a byte stream. */
module Framing {
  import opened Bytes

  const HEADER_SIZE := 6
  const RX_BUFFER_SIZE := 4096      // the compositor's receive buffer of one client
  const MAX_MSG_SIZE := 65536       // the largest frame the Rust client accepts

  datatype Msg = Msg(kind: nat, payload: seq<Byte>)

  function KindOf(s: seq<Byte>): nat
    requires |s| >= HEADER_SIZE
  {
    Le16(s[0], s[1])
  }

  function LengthOf(s: seq<Byte>): nat
    requires |s| >= HEADER_SIZE
  {
    Le32(s[2], s[3], s[4], s[5])
  }

  /** What stands at the start of a stream when frames of more than `max` bytes are not accepted. */
  datatype Frame = Whole(msg: Msg, size: nat) | TooShort | BadLength

  function FrameAt(s: seq<Byte>, max: nat): (f: Frame)
    ensures f.Whole? ==> HEADER_SIZE <= f.size <= |s| && f.size <= max
    ensures f.TooShort? ==> |s| < max || |s| < HEADER_SIZE
  {
    if |s| < HEADER_SIZE then TooShort
    else if LengthOf(s) < HEADER_SIZE || LengthOf(s) > max then BadLength
    else if |s| < LengthOf(s) then TooShort
    else Whole(Msg(KindOf(s), s[HEADER_SIZE..LengthOf(s)]), LengthOf(s))
  }

  // --------------------------------------------------- the whole stream

  datatype End = Waiting | Invalid | Refused

  /** The messages handed to the handler, the bytes left over, and why the parse ended. */
  datatype Parsed = Parsed(msgs: seq<Msg>, rest: seq<Byte>, end: End)

  /** The meaning of a stream, given the messages handed over before and a handler whose answer to a
      message may depend on all messages up to it. */
  function Parse(accept: seq<Msg> -> bool, done: seq<Msg>, s: seq<Byte>): (p: Parsed)
    ensures p.end.Waiting? ==> |p.rest| < RX_BUFFER_SIZE
    decreases |s|
  {
    match FrameAt(s, RX_BUFFER_SIZE)
    case TooShort => Parsed(done, s, Waiting)
    case BadLength => Parsed(done, s, Invalid)
    case Whole(msg, size) =>
      if accept(done + [msg]) then Parse(accept, done + [msg], s[size..])
      else Parsed(done + [msg], s, Refused)
  }

  /** More bytes do not change a frame that is whole or bad already. */
  lemma FrameKept(s: seq<Byte>, t: seq<Byte>, max: nat)
    ensures var f := FrameAt(s, max); !f.TooShort? ==> FrameAt(s + t, max) == f
  {
    if |s| >= HEADER_SIZE && LengthOf(s) <= |s| && LengthOf(s) >= HEADER_SIZE {
      assert (s + t)[HEADER_SIZE..LengthOf(s)] == s[HEADER_SIZE..LengthOf(s)];
    }
  }

  /** A stream can be parsed up to any point and resumed from the left-over bytes. */
  lemma {:induction false} ParseResumes(accept: seq<Msg> -> bool, done: seq<Msg>, s: seq<Byte>, t: seq<Byte>)
    ensures var p := Parse(accept, done, s);
            Parse(accept, done, s + t) ==
            if p.end.Waiting? then Parse(accept, p.msgs, p.rest + t) else p.(rest := p.rest + t)
    decreases |s|
  {
    FrameKept(s, t, RX_BUFFER_SIZE);
    var f := FrameAt(s, RX_BUFFER_SIZE);
    if f.Whole? && accept(done + [f.msg]) {
      assert (s + t)[f.size..] == s[f.size..] + t;
      ParseResumes(accept, done + [f.msg], s[f.size..], t);
    }
  }

  function Concat(chunks: seq<seq<Byte>>): seq<Byte> {
    if chunks == [] then [] else Concat(chunks[..|chunks| - 1]) + chunks[|chunks| - 1]
  }

  /** Parsing read by read: after each read the buffered bytes are parsed as far as possible. */
  function Feed(accept: seq<Msg> -> bool, chunks: seq<seq<Byte>>): Parsed {
    if chunks == [] then Parsed([], [], Waiting)
    else
      var p, chunk := Feed(accept, chunks[..|chunks| - 1]), chunks[|chunks| - 1];
      if p.end.Waiting? then Parse(accept, p.msgs, p.rest + chunk) else p.(rest := p.rest + chunk)
  }

  /** The way a stream is cut into reads makes no difference. */
  lemma {:induction false} CutsDoNotMatter(accept: seq<Msg> -> bool, chunks: seq<seq<Byte>>)
    ensures Feed(accept, chunks) == Parse(accept, [], Concat(chunks))
    decreases |chunks|
  {
    if chunks == [] {
    } else {
      var rest := chunks[..|chunks| - 1];
      CutsDoNotMatter(accept, rest);
      ParseResumes(accept, [], Concat(rest), chunks[|chunks| - 1]);
    }
  }

  // ------------------------------------------------------------- encoding

  function Header(kind: nat, length: nat): (h: seq<Byte>)
    ensures |h| == HEADER_SIZE
  {
    LeBytes(kind, 2) + LeBytes(length, 4)
  }

  /** LgpMessage::encode; the length field keeps the low 32 bits. */
  function Encode(m: Msg): seq<Byte> {
    Header(m.kind, HEADER_SIZE + |m.payload|) + m.payload
  }

  function EncodeAll(ms: seq<Msg>): seq<Byte> {
    if ms == [] then [] else Encode(ms[0]) + EncodeAll(ms[1..])
  }

  lemma HeaderRead(kind: nat, length: nat, t: seq<Byte>)
    requires kind < TWO_16 && length < TWO_32
    ensures KindOf(Header(kind, length) + t) == kind && LengthOf(Header(kind, length) + t) == length
  {
    Le16Bytes(kind);
    Le32Bytes(length);
  }

  /** A frame is read back exactly when it is not larger than the receiver allows. */
  lemma EncodeRead(m: Msg, t: seq<Byte>, max: nat)
    requires m.kind < TWO_16 && HEADER_SIZE + |m.payload| < TWO_32
    ensures FrameAt(Encode(m) + t, max) ==
            if HEADER_SIZE + |m.payload| <= max then Whole(m, |Encode(m)|) else BadLength
  {
    var length := HEADER_SIZE + |m.payload|;
    HeaderRead(m.kind, length, m.payload + t);
    FrameParts(Header(m.kind, length), m, t, max);
    Regroup(Header(m.kind, length), m.payload, t);
  }

  lemma Regroup(a: seq<Byte>, b: seq<Byte>, c: seq<Byte>)
    ensures (a + b) + c == a + (b + c) && (a + b)[|a|..] == b
  {
  }

  lemma FrameParts(h: seq<Byte>, m: Msg, t: seq<Byte>, max: nat)
    requires |h| == HEADER_SIZE
    requires KindOf(h + (m.payload + t)) == m.kind && LengthOf(h + (m.payload + t)) == HEADER_SIZE + |m.payload|
    ensures FrameAt(h + (m.payload + t), max) ==
            if HEADER_SIZE + |m.payload| <= max then Whole(m, HEADER_SIZE + |m.payload|) else BadLength
  {
    assert (h + (m.payload + t))[HEADER_SIZE..HEADER_SIZE + |m.payload|] == m.payload;
  }

  /** LgpMessage::decode; slicing a payload that ends before it starts panics. */
  datatype Decoded = Some(msg: Msg) | None | Panics

  function Decode(s: seq<Byte>): Decoded {
    if |s| < HEADER_SIZE || |s| < LengthOf(s) then None
    else if LengthOf(s) < HEADER_SIZE then Panics
    else Some(Msg(KindOf(s), s[HEADER_SIZE..LengthOf(s)]))
  }

  /** The Rust decoder accepts the same frames as the compositor's and gives the same messages; they differ
      only on a length below the header size, where one refuses and the other panics. */
  lemma DecodersAgree(s: seq<Byte>)
    ensures Decode(s).Some? <==> FrameAt(s, |s|).Whole?
    ensures Decode(s).Some? ==> Decode(s).msg == FrameAt(s, |s|).msg
    ensures Decode(s).Panics? <==> |s| >= HEADER_SIZE && FrameAt(s, TWO_32).BadLength?
  {
  }

  /** For example, on a header that declares a length of five. */
  lemma ShortLengthPanics()
    ensures Decode([0, 0, 5, 0, 0, 0]) == Panics && FrameAt([0, 0, 5, 0, 0, 0], RX_BUFFER_SIZE) == BadLength
  {
    assert LengthOf([0, 0, 5, 0, 0, 0]) == 5;
  }

  /** Decoding undoes encoding, whatever follows. */
  lemma DecodeEncode(m: Msg, t: seq<Byte>)
    requires m.kind < TWO_16 && HEADER_SIZE + |m.payload| < TWO_32
    ensures Decode(Encode(m) + t) == Some(m)
  {
    EncodeRead(m, t, |Encode(m) + t|);
    DecodersAgree(Encode(m) + t);
  }

  ghost predicate Sendable(m: Msg) {
    m.kind < TWO_16 && HEADER_SIZE + |m.payload| <= RX_BUFFER_SIZE
  }

  /** The handler accepts the messages one after the other. */
  ghost predicate AcceptsAll(accept: seq<Msg> -> bool, done: seq<Msg>, ms: seq<Msg>)
    decreases |ms|
  {
    ms != [] ==> accept(done + [ms[0]]) && AcceptsAll(accept, done + [ms[0]], ms[1..])
  }

  lemma OneDispatched(accept: seq<Msg> -> bool, done: seq<Msg>, m: Msg, t: seq<Byte>)
    requires Sendable(m) && accept(done + [m])
    ensures Parse(accept, done, Encode(m) + t) == Parse(accept, done + [m], t)
  {
    EncodeRead(m, t, RX_BUFFER_SIZE);
    Regroup(Encode(m), t, []);
  }

  lemma Shift(done: seq<Msg>, ms: seq<Msg>)
    requires ms != []
    ensures done + [ms[0]] + ms[1..] == done + ms
  {
    assert ms == [ms[0]] + ms[1..];
  }

  /** A sequence of encoded messages is dispatched as exactly those messages, whatever follows, as long
      as the handler accepts them. */
  lemma {:induction false} EncodedDispatched(accept: seq<Msg> -> bool, done: seq<Msg>, ms: seq<Msg>, t: seq<Byte>)
    requires forall k :: 0 <= k < |ms| ==> Sendable(ms[k])
    requires AcceptsAll(accept, done, ms)
    ensures Parse(accept, done, EncodeAll(ms) + t) == Parse(accept, done + ms, t)
    decreases |ms|
  {
    if ms == [] {
      assert EncodeAll(ms) + t == t && done + ms == done;
    } else {
      Regroup(Encode(ms[0]), EncodeAll(ms[1..]), t);
      OneDispatched(accept, done, ms[0], EncodeAll(ms[1..]) + t);
      EncodedDispatched(accept, done + [ms[0]], ms[1..], t);
      Shift(done, ms);
    }
  }
}
