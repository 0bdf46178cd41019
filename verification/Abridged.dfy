/** Abridged framing and the in-memory transport (kosta-transport/src/abridged.rs, mock.rs). */
module Abridged {
  import opened Wrappers
  import opened Sequences
  import opened Arithmetic
  import opened Bytes
  import opened TlTypes
  import opened TlIo

  const MAX_FRAME_SIZE := 0x10_0000
  const MARKER: byte := 0x7f

  datatype FrameError =
    | NoData
    | IncompleteHeader
    | UnsupportedLength(first: byte)
    | TooLarge(len: nat)
    | IncompleteFrame

  /** A frame and what follows it, or why the buffer does not start with one. */
  datatype Decoded = Frame(payload: bytes, rest: bytes) | Failed(error: FrameError)

  /** The frame of a payload; encoding a longer one panics. */
  function EncodeFrame(payload: bytes): (r: bytes)
    requires |payload| < TWO_24
  {
    if |payload| <= 0x7f then [|payload|] + payload
    else [MARKER] + LeBytes(|payload|, 3) + payload
  }

  function DecodeFrame(buf: bytes): Decoded {
    if buf == [] then Failed(NoData)
    else if buf[0] <= 0x7e then DecodePayload(buf, buf[0], 1)
    else if buf[0] == MARKER then
      if |buf| < 4 then Failed(IncompleteHeader) else DecodePayload(buf, FromLe(buf[1..4]), 4)
    else Failed(UnsupportedLength(buf[0]))
  }

  function DecodePayload(buf: bytes, len: nat, header: nat): Decoded
    requires header <= |buf|
  {
    if len > MAX_FRAME_SIZE then Failed(TooLarge(len))
    else if |buf| < header + len then Failed(IncompleteFrame)
    else Frame(buf[header..header + len], buf[header + len..])
  }

  /** The lengths framing carries faithfully: 127 collides with the marker of the long form. */
  predicate Framable(payload: bytes) {
    |payload| != 127 && |payload| <= MAX_FRAME_SIZE
  }

  lemma LongHeaderDecodes(payload: bytes, tail: bytes)
    requires 127 < |payload| < TWO_24
    ensures DecodeFrame(EncodeFrame(payload) + tail) == DecodePayload(EncodeFrame(payload) + tail, |payload|, 4)
  {
    var buf := EncodeFrame(payload) + tail;
    assert buf[1..4] == LeBytes(|payload|, 3);
    WordSizes();
    FromLeBytes(|payload|, 3);
  }

  /** A frame followed by anything decodes to its payload and leaves the rest exactly when the payload
      is framable. */
  lemma FrameRoundTrip(payload: bytes, tail: bytes)
    requires |payload| < TWO_24
    ensures DecodeFrame(EncodeFrame(payload) + tail) == Frame(payload, tail) <==> Framable(payload)
  {
    var buf := EncodeFrame(payload) + tail;
    if |payload| < 127 {
      assert buf[1..1 + |payload|] == payload && buf[1 + |payload|..] == tail;
    } else if |payload| > 127 {
      LongHeaderDecodes(payload, tail);
      if |payload| <= MAX_FRAME_SIZE {
        assert buf[4..4 + |payload|] == payload && buf[4 + |payload|..] == tail;
      }
    } else {
      assert |buf| == 128 + |tail| && buf[0] == MARKER;
    }
  }

  /** A frame, byte for byte: up to 127 bytes behind one length byte, longer payloads behind the marker and three
      length bytes, least significant first. */
  lemma FrameBytes(payload: bytes)
    requires |payload| < TWO_24
    ensures var n := |payload|;
      EncodeFrame(payload) == (if n <= 127 then [n] else [127, n % 256, n / 256 % 256, n / 65536]) + payload
  {
    var n := |payload|;
    if n > 127 {
      assert LeBytes(n, 3) == [n % 256] + LeBytes(n / 256, 2);
      assert LeBytes(n / 256, 2) == [n / 256 % 256] + LeBytes(n / 256 / 256, 1);
      assert LeBytes(n / 256 / 256, 1) == [n / 256 / 256 % 256] + LeBytes(n / 256 / 256 / 256, 0);
      assert n / 256 / 256 == n / 65536 && n / 65536 < 256;
      assert [MARKER] + LeBytes(n, 3) == [127, n % 256, n / 256 % 256, n / 65536];
    }
  }

  /** What any buffer is read as, and the first reason why it cannot be read. */
  lemma FrameRead(buf: bytes)
    ensures DecodeFrame(buf) == Failed(NoData) <==> buf == []
    ensures buf != [] && buf[0] > 127 ==> DecodeFrame(buf) == Failed(UnsupportedLength(buf[0]))
    ensures buf != [] && buf[0] == 127 && |buf| < 4 ==> DecodeFrame(buf) == Failed(IncompleteHeader)
    ensures buf != [] && buf[0] <= 127 && (buf[0] == 127 ==> |buf| >= 4) ==>
      var h, n := if buf[0] == 127 then 4 else 1, if buf[0] == 127 then LengthOf(buf[1], buf[2], buf[3]) else buf[0];
      DecodeFrame(buf) ==
        if n > 1048576 then Failed(TooLarge(n))
        else if |buf| < h + n then Failed(IncompleteFrame)
        else Frame(buf[h..h + n], buf[h + n..])
  {
    if |buf| >= 4 {
      var b := buf[1..4];
      assert FromLe(b) == b[0] + 256 * FromLe(b[1..]);
      assert FromLe(b[1..]) == b[1] + 256 * FromLe(b[2..]);
      assert FromLe(b[2..]) == b[2] + 256 * FromLe([]);
      assert b[1..][1..] == b[2..] && b[2..][1..] == [];
    }
  }

  function LengthOf(low: nat, middle: nat, high: nat): nat { low + 256 * middle + 65536 * high }

  // ---------- streams of frames ----------

  predicate AllFramable(payloads: seq<bytes>) {
    forall i :: 0 <= i < |payloads| ==> Framable(payloads[i])
  }

  function EncodeAll(payloads: seq<bytes>): bytes
    requires AllFramable(payloads)
  {
    if payloads == [] then [] else EncodeFrame(payloads[0]) + EncodeAll(payloads[1..])
  }

  /** A buffer cut off inside a frame never decodes. */
  lemma TruncatedFrameFails(payload: bytes, buf: bytes)
    requires Framable(payload) && buf < EncodeFrame(payload)
    ensures DecodeFrame(buf).Failed?
  {
    var whole := EncodeFrame(payload);
    if |payload| > 127 && |buf| >= 4 {
      LongHeaderDecodes(payload, []);
      assert whole + [] == whole;
      assert buf[1..4] == whole[1..4];
    }
  }

  lemma NothingDecodes()
    ensures DecodeFrame([]).Failed?
  {
  }

  /** Decoding a buffer that is a prefix of a stream of frames: the first frame, or not enough yet. */
  lemma PrefixDecodes(payloads: seq<bytes>, buf: bytes, more: bytes)
    requires AllFramable(payloads) && buf + more == EncodeAll(payloads)
    ensures payloads == [] ==> DecodeFrame(buf).Failed?
    ensures payloads != [] ==>
      var n := |EncodeFrame(payloads[0])|;
      if |buf| < n then DecodeFrame(buf).Failed?
      else DecodeFrame(buf) == Frame(payloads[0], buf[n..]) && buf[n..] + more == EncodeAll(payloads[1..])
  {
    hide DecodeFrame, EncodeFrame;
    if payloads == [] {
      assert buf == [];
      NothingDecodes();
    } else {
      var frame := EncodeFrame(payloads[0]);
      if |buf| < |frame| {
        assert buf == (buf + more)[..|buf|] == frame[..|buf|];
        TruncatedFrameFails(payloads[0], buf);
      } else {
        assert buf[..|frame|] == (buf + more)[..|frame|] == frame;
        assert buf == frame + buf[|frame|..];
        FrameRoundTrip(payloads[0], buf[|frame|..]);
        assert buf[|frame|..] + more == (buf + more)[|frame|..];
      }
    }
  }

  datatype Event = Chunk(data: bytes) | Recv

  /** The bytes the network has handed over in the course of the events. */
  function HandedOver(events: seq<Event>): bytes {
    if events == [] then []
    else
      var later := HandedOver(events[1..]);
      if events[0].Chunk? then events[0].data + later else later
  }

  /** The payloads that successful receives return, and the buffer left at the end. */
  function Received(buf: bytes, events: seq<Event>): (seq<bytes>, bytes)
    decreases |events|
  {
    if events == [] then ([], buf)
    else
      match events[0]
      case Chunk(data) => Received(buf + data, events[1..])
      case Recv =>
        match DecodeFrame(buf)
        case Failed(_) => Received(buf, events[1..])
        case Frame(payload, rest) =>
          var (more, left) := Received(rest, events[1..]);
          ([payload] + more, left)
  }

  lemma PrependReceived(payloads: seq<bytes>, more: seq<bytes>)
    requires payloads != [] && more <= payloads[1..]
    ensures [payloads[0]] + more <= payloads
    ensures payloads[1..][|more|..] == payloads[1 + |more|..]
  {
  }

  /** However the stream is cut into chunks and whenever receives are tried, what was received is a
      prefix of what was sent, and everything after it is still in the buffer or on its way. */
  lemma {:induction false} StreamIsFaithful(payloads: seq<bytes>, buf: bytes, events: seq<Event>, undelivered: bytes)
    requires AllFramable(payloads)
    requires buf + (HandedOver(events) + undelivered) == EncodeAll(payloads)
    ensures var (got, left) := Received(buf, events);
      got <= payloads && left + undelivered == EncodeAll(payloads[|got|..])
    decreases |events|
  {
    hide DecodeFrame, EncodeFrame, Framable;
    if events != [] {
      var later := HandedOver(events[1..]);
      match events[0]
      case Chunk(data) =>
        Reassociate(data, later, undelivered);
        Reassociate(buf, data, later + undelivered);
        StreamIsFaithful(payloads, buf + data, events[1..], undelivered);
      case Recv =>
        PrefixDecodes(payloads, buf, later + undelivered);
        match DecodeFrame(buf)
        case Failed(_) => StreamIsFaithful(payloads, buf, events[1..], undelivered);
        case Frame(payload, rest) =>
          StreamIsFaithful(payloads[1..], rest, events[1..], undelivered);
          PrependReceived(payloads, Received(rest, events[1..]).0);
    } else {
      Reassociate([], undelivered, []);
    }
  }

  function Receives(n: nat): seq<Event> {
    seq(n, _ => Recv)
  }

  /** Once every byte has arrived, one receive per payload empties the buffer. */
  lemma {:induction false} DrainDeliversAll(payloads: seq<bytes>)
    requires AllFramable(payloads)
    ensures Received(EncodeAll(payloads), Receives(|payloads|)) == (payloads, [])
  {
    hide DecodeFrame, EncodeFrame;
    if payloads != [] {
      assert Receives(|payloads|)[1..] == Receives(|payloads| - 1);
      FrameRoundTrip(payloads[0], EncodeAll(payloads[1..]));
      DrainDeliversAll(payloads[1..]);
      assert payloads == [payloads[0]] + payloads[1..];
    }
  }

  // ---------- transports ----------

  class MockTransport {
    var reader: bytes
    var writer: bytes

    constructor ()
      ensures reader == [] && writer == []
    {
      reader, writer := [], [];
    }

    method AddIncoming(data: bytes)
      modifies this`reader
      ensures reader == old(reader) + data
    {
      reader := reader + data;
    }

    method TakeSent() returns (sent: bytes)
      modifies this`writer
      ensures sent == old(writer) && writer == []
    {
      sent := writer;
      writer := [];
    }

    method Send(data: bytes)
      requires |data| < TWO_24
      modifies this`writer
      ensures writer == old(writer) + EncodeFrame(data)
    {
      writer := writer + EncodeFrame(data);
    }

    method Recv() returns (r: Result<bytes, FrameError>)
      modifies this`reader
      ensures match DecodeFrame(old(reader))
        case Frame(payload, rest) => r == Ok(payload) && reader == rest
        case Failed(e) => r == Err(e) && reader == old(reader)
    {
      if reader == [] { return Err(NoData); }
      var first := reader[0];
      var payloadLen: nat, headerLen: nat;
      if first <= 0x7e {
        payloadLen, headerLen := first, 1;
      } else if first == MARKER {
        if |reader| < 4 { return Err(IncompleteHeader); }
        payloadLen, headerLen := FromLe(reader[1..4]), 4;
      } else {
        return Err(UnsupportedLength(first));
      }
      if payloadLen > MAX_FRAME_SIZE { return Err(TooLarge(payloadLen)); }
      var total := headerLen + payloadLen;
      if |reader| < total { return Err(IncompleteFrame); }
      r := Ok(reader[headerLen..total]);
      reader := reader[total..];
    }
  }

  /** The stream decoder's errors: the reader ran out, or one of the two checks failed. */
  datatype StreamError = UnexpectedEnd | UnsupportedByte(first: byte) | FrameTooLarge(len: nat)

  function StreamErrorOf(e: FrameError): StreamError {
    match e
    case UnsupportedLength(first) => UnsupportedByte(first)
    case TooLarge(len) => FrameTooLarge(len)
    case _ => UnexpectedEnd
  }

  /** Decoding from a stream reader agrees with decoding from a slice: the same payload and rest, or the same
      reason for failing. A frame that fails a check leaves what follows its header unread. */
  method DecodeFrameFrom(r: Reader) returns (p: Result<bytes, StreamError>)
    modifies r
    ensures match DecodeFrame(old(r.rest))
      case Frame(payload, rest) => p == Ok(payload) && r.rest == rest
      case Failed(e) =>
        && p == Err(StreamErrorOf(e))
        && (e.UnsupportedLength? ==> r.rest == old(r.rest)[1..])
        && (e.TooLarge? ==> old(r.rest)[0] == MARKER && |old(r.rest)| >= 4 && r.rest == old(r.rest)[4..])
  {
    ghost var buf := r.rest;
    var lenByte := r.ReadExact(1);
    if lenByte.Err? { return Err(UnexpectedEnd); }
    var first := lenByte.value[0];
    var len: nat := first;
    ghost var header := 1;
    if first == MARKER {
      var raw := r.ReadExact(3);
      if raw.Err? { return Err(UnexpectedEnd); }
      assert raw.value == buf[1..4];
      len := FromLe(raw.value);
      header := 4;
    } else if first > 0x7e {
      return Err(UnsupportedByte(first));
    }
    assert r.rest == buf[header..];
    if len > MAX_FRAME_SIZE { return Err(FrameTooLarge(len)); }
    var payload := r.ReadExact(len);
    if payload.Err? { return Err(UnexpectedEnd); }
    assert payload.value == buf[header..header + len] && r.rest == buf[header + len..];
    return Ok(payload.value);
  }
}
