/** The client session as functions on values (kosta/src/session.rs, send_tl and recv_tl). */
module ClientModel {
  import opened Wrappers
  import opened Arithmetic
  import opened Bytes
  import opened TlTypes
  import opened TlObjects
  import opened Crypto
  import opened MsgId
  import opened Abridged

  datatype ClientState = ClientState(
    authKeyId: Option<i64>, crypto: Option<SessionCrypto>, authKey: Option<bytes>, serverSalt: i64,
    lastMsgId: i64, recvLastMsgId: i64, seqNo: i32, recvSeqNo: i32, msgIdCounter: u32)

  const DISCONNECTED := ClientState(None, None, None, 0, 0, 0, -1, -1, 0)

  datatype RecvError =
    | Transport(error: FrameError)
    | MessageTooShort
    | KeyIdMismatch
    | MacMismatch
    | MissingHeader
    | MsgIdNotIncreasing
    | UnexpectedSeqNo
    | TimestampOutOfRange
    | BadObject(tlError: TlError)

  function KeyIdOf(c: ClientState): i64 { if c.authKeyId.Some? then c.authKeyId.value else 0 }

  /** The header the next encrypted message carries. */
  function NextHeader(c: ClientState, o: TlObject, now: nat): Header {
    Header(MakeMsgId(now, c.msgIdCounter), Wrap32(c.seqNo + 1), EncodeBoxed(o))
  }

  /** Sending: numbers are taken and the message sealed once the session is authenticated. */
  function ClientSend(prims: Primitives, c: ClientState, o: TlObject, now: nat, noise: bytes): (ClientState, bytes)
    requires Lawful(prims) && |noise| == 12
  {
    if c.crypto.None? then (c, EncodeBoxed(o))
    else
      var h := NextHeader(c, o, now);
      var (crypto, sealed) := EncryptOutgoing(prims, c.crypto.value, EncodeHeader(h), noise);
      (c.(msgIdCounter := Next(c.msgIdCounter), lastMsgId := h.msgId, seqNo := h.seqNo, crypto := Some(crypto)),
       EncodePacket(KeyIdOf(c), sealed))
  }

  /** Length of message id and sequence number in front of a sealed object. */
  const HEADER := 12

  /** The length of the packet an object is sent in: 52 bytes more than the object, or the object itself in
      the clear. */
  function PacketLength(c: ClientState, o: TlObject): nat {
    |EncodeBoxed(o)| + if c.crypto.Some? then OVERHEAD + HEADER else 0
  }

  lemma ClientPacketLength(prims: Primitives, c: ClientState, o: TlObject, now: nat, noise: bytes)
    requires Lawful(prims) && |noise| == 12
    ensures |ClientSend(prims, c, o, now, noise).1| == PacketLength(c, o)
  {
    if c.crypto.Some? {
      var h := NextHeader(c, o, now);
      HeaderRoundTrip(h);
      PacketRoundTrip(KeyIdOf(c), EncryptOutgoing(prims, c.crypto.value, EncodeHeader(h), noise).1);
    }
  }

  function Parse(b: bytes): Result<TlObject, RecvError> {
    match DecodeBoxed(b)
    case Got(o, _) => Ok(o)
    case Bad(e) => Err(BadObject(e))
  }

  /** Receiving an encrypted message. State moves on as the checks pass, and stays moved when a later
      check fails: first the receive counter, then the last message id, then the sequence number. */
  function ClientRecv(prims: Primitives, c: ClientState, raw: bytes, now: nat): (ClientState, Result<TlObject, RecvError>)
    requires Lawful(prims)
  {
    if c.crypto.None? then (c, Parse(raw))
    else if |raw| < OVERHEAD then (c, Err(MessageTooShort))
    else if PacketKeyId(raw) != KeyIdOf(c) then (c, Err(KeyIdMismatch))
    else
      var decrypted := DecryptIncoming(prims, c.crypto.value, PacketBody(raw));
      if decrypted.None? then (c, Err(MacMismatch))
      else
        var c1 := c.(crypto := Some(decrypted.value.0));
        var header := DecodeHeader(decrypted.value.1);
        if header.None? then (c1, Err(MissingHeader)) else CheckIncoming(c1, header.value, now)
  }

  function CheckIncoming(c: ClientState, h: Header, now: nat): (ClientState, Result<TlObject, RecvError>) {
    if h.msgId <= c.recvLastMsgId then (c, Err(MsgIdNotIncreasing))
    else
      var c1 := c.(recvLastMsgId := h.msgId);
      if h.seqNo != Wrap32(c.recvSeqNo + 1) then (c1, Err(UnexpectedSeqNo))
      else
        var c2 := c1.(recvSeqNo := h.seqNo);
        if DiffMs(h.msgId, now) > MAX_SKEW_MS then (c2, Err(TimestampOutOfRange))
        else (c2, Parse(h.body))
  }

  // ---------- receive safety ----------

  datatype Call = Call(raw: bytes, now: nat)

  /** A message returned to the caller, and how many sequence numbers had been used up by then. */
  datatype Returned = Returned(msgId: i64, seqNo: i32, position: nat)

  /** The messages a series of receive calls returns; failed calls return none but may move the state. */
  function ReturnedBy(prims: Primitives, c: ClientState, calls: seq<Call>, position: nat): seq<Returned>
    requires Lawful(prims)
    decreases |calls|
  {
    if calls == [] then []
    else
      var (c', r) := ClientRecv(prims, c, calls[0].raw, calls[0].now);
      var position' := if c'.recvSeqNo == c.recvSeqNo then position else position + 1;
      var later := ReturnedBy(prims, c', calls[1..], position');
      if r.Ok? then [Returned(c'.recvLastMsgId, c'.recvSeqNo, position')] + later else later
  }

  /** Everything a series of calls returns lies strictly beyond where the session was, in order. */
  ghost predicate StrictlyBeyond(rs: seq<Returned>, msgId: i64, base: int, position: nat) {
    && (forall k :: 0 <= k < |rs| ==> rs[k].msgId > msgId && rs[k].position > position && rs[k].seqNo == Wrap32(base + rs[k].position))
    && (forall j, k :: 0 <= j < k < |rs| ==> rs[j].msgId < rs[k].msgId && rs[j].position < rs[k].position)
  }

  lemma StrictlyBeyondCons(r: Returned, rs: seq<Returned>, msgId: i64, base: int, position: nat)
    requires StrictlyBeyond(rs, r.msgId, base, r.position)
    requires r.msgId > msgId && r.position > position && r.seqNo == Wrap32(base + r.position)
    ensures StrictlyBeyond([r] + rs, msgId, base, position)
  {
    var all := [r] + rs;
    forall k | 0 <= k < |all|
      ensures all[k].msgId > msgId && all[k].position > position && all[k].seqNo == Wrap32(base + all[k].position)
    {
      if k > 0 { assert all[k] == rs[k - 1]; }
    }
    forall j, k | 0 <= j < k < |all| ensures all[j].msgId < all[k].msgId && all[j].position < all[k].position {
      assert all[k] == rs[k - 1];
      if j > 0 { assert all[j] == rs[j - 1]; }
    }
  }

  lemma StrictlyBeyondWeaken(rs: seq<Returned>, msgId: i64, msgId': i64, base: int, position: nat, position': nat)
    requires StrictlyBeyond(rs, msgId', base, position') && msgId <= msgId' && position <= position'
    ensures StrictlyBeyond(rs, msgId, base, position)
  {
  }

  /** How one call moves the client: the last id never falls, the sequence number moves by at most one,
      and a returned message has just moved both. */
  lemma CallMoves(prims: Primitives, c: ClientState, raw: bytes, now: nat)
    requires Lawful(prims) && c.crypto.Some?
    ensures var (c', r) := ClientRecv(prims, c, raw, now);
      && c'.crypto.Some? && c'.recvLastMsgId >= c.recvLastMsgId
      && (c'.recvSeqNo == c.recvSeqNo || c'.recvSeqNo == Wrap32(c.recvSeqNo + 1))
      && (r.Ok? ==> c'.recvLastMsgId > c.recvLastMsgId && c'.recvSeqNo == Wrap32(c.recvSeqNo + 1) && c'.recvSeqNo != c.recvSeqNo)
  {
    hide DecodeHeader, DiffMs, Parse, DecryptAndVerify, PacketBody, PacketKeyId;
    SuccessorDiffers(c.recvSeqNo);
  }

  /** Over every series of receive calls on an encrypted session, failed ones included, the messages
      returned have strictly increasing ids, each above the session's last one, and carry sequence numbers
      at strictly increasing positions of the count that starts after the session's last one. */
  lemma {:induction false} ReceiveSafety(prims: Primitives, c: ClientState, calls: seq<Call>, base: int, position: nat)
    requires Lawful(prims) && c.crypto.Some? && c.recvSeqNo == Wrap32(base + position)
    ensures StrictlyBeyond(ReturnedBy(prims, c, calls, position), c.recvLastMsgId, base, position)
    decreases |calls|
  {
    hide ClientRecv, Wrap32;
    if calls != [] {
      var (c', r) := ClientRecv(prims, c, calls[0].raw, calls[0].now);
      CallMoves(prims, c, calls[0].raw, calls[0].now);
      WrapSuccessor(base + position);
      var position' := if c'.recvSeqNo == c.recvSeqNo then position else position + 1;
      ReceiveSafety(prims, c', calls[1..], base, position');
      var later := ReturnedBy(prims, c', calls[1..], position');
      if r.Ok? {
        StrictlyBeyondCons(Returned(c'.recvLastMsgId, c'.recvSeqNo, position'), later, c.recvLastMsgId, base, position);
      } else {
        StrictlyBeyondWeaken(later, c.recvLastMsgId, c'.recvLastMsgId, base, position, position');
      }
    }
  }

  lemma {:induction false} PositionsBounded(prims: Primitives, c: ClientState, calls: seq<Call>, position: nat)
    requires Lawful(prims)
    ensures forall k :: 0 <= k < |ReturnedBy(prims, c, calls, position)| ==>
      ReturnedBy(prims, c, calls, position)[k].position <= position + |calls|
    decreases |calls|
  {
    if calls != [] {
      var (c', r) := ClientRecv(prims, c, calls[0].raw, calls[0].now);
      var position' := if c'.recvSeqNo == c.recvSeqNo then position else position + 1;
      PositionsBounded(prims, c', calls[1..], position');
    }
  }

  /** How often a count has passed from 2^31 - 1, the largest 32-bit number, to -2^31, the smallest. */
  function Epoch(x: int): int { (x + TWO_31) / TWO_32 }

  lemma NumberInEpoch(x: int)
    ensures x == Wrap32(x) + Epoch(x) * TWO_32
  {
  }

  lemma RisesWithinEpoch(x: int, y: int)
    requires x < y < x + TWO_32
    ensures Wrap32(x) < Wrap32(y) <==> Epoch(x) == Epoch(y)
  {
    hide Wrap32, Epoch;
    NumberInEpoch(x);
    NumberInEpoch(y);
    var e := Epoch(y) - Epoch(x);
    assert y - x == Wrap32(y) - Wrap32(x) + e * TWO_32;
    assert -TWO_31 <= Wrap32(x) < TWO_31 && -TWO_31 <= Wrap32(y) < TWO_31;
  }

  /** In every series of calls ids rise from each returned message to every later one. Its sequence number
      rises to that of a later one, less than 2^32 numbers on, exactly when the count did not wrap in between;
      so all of them rise as long as the numbers stay below 2^31. */
  lemma ReturnedInOrder(prims: Primitives, c: ClientState, calls: seq<Call>)
    requires Lawful(prims) && c.crypto.Some?
    ensures var rs, base := ReturnedBy(prims, c, calls, 0), c.recvSeqNo;
      forall j, k :: 0 <= j < k < |rs| ==>
        && rs[j].msgId < rs[k].msgId
        && (rs[k].position - rs[j].position < TWO_32 ==>
              (rs[j].seqNo < rs[k].seqNo <==> Epoch(base + rs[j].position) == Epoch(base + rs[k].position)))
        && (base + |calls| < TWO_31 ==> rs[j].seqNo < rs[k].seqNo)
  {
    hide Epoch, Wrap32, ReturnedBy;
    ReceiveSafety(prims, c, calls, c.recvSeqNo, 0);
    PositionsBounded(prims, c, calls, 0);
    var rs, base := ReturnedBy(prims, c, calls, 0), c.recvSeqNo;
    forall j, k | 0 <= j < k < |rs|
      ensures rs[k].position - rs[j].position < TWO_32 ==>
        (rs[j].seqNo < rs[k].seqNo <==> Epoch(base + rs[j].position) == Epoch(base + rs[k].position))
      ensures base + |calls| < TWO_31 ==> rs[j].seqNo < rs[k].seqNo
    {
      var x, y := base + rs[j].position, base + rs[k].position;
      assert x < y && rs[j].seqNo == Wrap32(x) && rs[k].seqNo == Wrap32(y);
      if rs[k].position - rs[j].position < TWO_32 { RisesWithinEpoch(x, y); }
      if base + |calls| < TWO_31 {
        assert y <= base + |calls|;
        FirstEpoch(x);
        FirstEpoch(y);
      }
    }
  }

  lemma FirstEpoch(x: int)
    requires -TWO_31 <= x < TWO_31
    ensures Wrap32(x) == x
  {
  }

  // ---------- nonces of the client's packets ----------

  /** What the owner of a session does with it. */
  datatype Use = SendUse(o: TlObject, now: nat, noise: Noise) | RecvUse(raw: bytes, now: nat)

  /** A packet with the counter and the random part its nonce was made of. */
  datatype Packet = Packet(counter: u32, noise: Noise, raw: bytes)

  /** The packets an authenticated session sends in the course of its uses. */
  function PacketsOf(prims: Primitives, c: ClientState, uses: seq<Use>): seq<Packet>
    requires Lawful(prims)
    decreases |uses|
  {
    if uses == [] || c.crypto.None? then []
    else
      match uses[0]
      case SendUse(o, now, noise) =>
        var (c', raw) := ClientSend(prims, c, o, now, noise);
        [Packet(c.crypto.value.sendCounter, noise, raw)] + PacketsOf(prims, c', uses[1..])
      case RecvUse(raw, now) => PacketsOf(prims, ClientRecv(prims, c, raw, now).0, uses[1..])
  }

  /** The packets count on from the counter, each carrying the nonce of its own. */
  ghost predicate CountedFrom(packets: seq<Packet>, counter: u32) {
    forall k :: 0 <= k < |packets| ==>
      && packets[k].counter == (counter + k) % TWO_32 && |packets[k].raw| >= OVERHEAD
      && PacketBody(packets[k].raw).nonce == GenerateNonce(packets[k].counter, packets[k].noise)
  }

  lemma SendCounts(prims: Primitives, c: ClientState, o: TlObject, now: nat, noise: Noise)
    requires Lawful(prims) && c.crypto.Some?
    ensures var (c', raw) := ClientSend(prims, c, o, now, noise);
      && c'.crypto.Some? && c'.crypto.value.sendCounter == Next(c.crypto.value.sendCounter)
      && |raw| >= OVERHEAD && PacketBody(raw).nonce == GenerateNonce(c.crypto.value.sendCounter, noise)
  {
    hide EncodeHeader, NextHeader, EncryptAndTag, GenerateNonce;
    var (crypto, sealed) := EncryptOutgoing(prims, c.crypto.value, EncodeHeader(NextHeader(c, o, now)), noise);
    PacketRoundTrip(KeyIdOf(c), sealed);
  }

  lemma RecvKeepsCounter(prims: Primitives, c: ClientState, raw: bytes, now: nat)
    requires Lawful(prims) && c.crypto.Some?
    ensures var c' := ClientRecv(prims, c, raw, now).0;
      c'.crypto.Some? && c'.crypto.value.sendCounter == c.crypto.value.sendCounter
  {
    hide DecodeHeader, DiffMs, Parse, DecryptAndVerify, PacketBody, PacketKeyId, Wrap32;
  }

  lemma CountedCons(p: Packet, packets: seq<Packet>, counter: u32)
    requires CountedFrom(packets, Next(counter)) && p.counter == counter
    requires |p.raw| >= OVERHEAD && PacketBody(p.raw).nonce == GenerateNonce(counter, p.noise)
    ensures CountedFrom([p] + packets, counter)
  {
    hide PacketBody, GenerateNonce;
    var all := [p] + packets;
    forall k | 0 < k < |all| ensures all[k].counter == (counter + k) % TWO_32 {
      assert all[k] == packets[k - 1];
      NextPlus(counter, k - 1);
    }
    assert forall k :: 0 < k < |all| ==> all[k] == packets[k - 1];
  }

  lemma NextPlus(counter: u32, k: nat)
    ensures (Next(counter) + k) % TWO_32 == (counter + k + 1) % TWO_32
  {
    if counter == TWO_32 - 1 { ModShift(k, 1, TWO_32); }
  }

  lemma {:induction false} PacketsCount(prims: Primitives, c: ClientState, uses: seq<Use>)
    requires Lawful(prims) && c.crypto.Some?
    ensures CountedFrom(PacketsOf(prims, c, uses), c.crypto.value.sendCounter)
    decreases |uses|
  {
    hide ClientSend, ClientRecv, CountedFrom, Next, PacketBody, GenerateNonce;
    if uses == [] {
      NoneCounted(c.crypto.value.sendCounter);
    } else {
      match uses[0]
      case SendUse(o, now, noise) =>
        SendCounts(prims, c, o, now, noise);
        var (c', raw) := ClientSend(prims, c, o, now, noise);
        PacketsCount(prims, c', uses[1..]);
        CountedCons(Packet(c.crypto.value.sendCounter, noise, raw), PacketsOf(prims, c', uses[1..]), c.crypto.value.sendCounter);
      case RecvUse(raw, now) =>
        RecvKeepsCounter(prims, c, raw, now);
        PacketsCount(prims, ClientRecv(prims, c, raw, now).0, uses[1..]);
    }
  }

  lemma NoneCounted(counter: u32)
    ensures CountedFrom([], counter)
  {
  }

  /** However sends and receives are mixed, the k-th packet of an authenticated session uses the k-th counter,
      and packets less than 2^32 apart never share a nonce. */
  lemma ClientNoncesNeverReused(prims: Primitives, c: ClientState, uses: seq<Use>, j: nat, k: nat)
    requires Lawful(prims) && c.crypto.Some?
    requires j < k < |PacketsOf(prims, c, uses)| && k - j < TWO_32
    ensures var packets := PacketsOf(prims, c, uses);
      && packets[k].counter == (c.crypto.value.sendCounter + k) % TWO_32
      && |packets[j].raw| >= OVERHEAD && |packets[k].raw| >= OVERHEAD
      && PacketBody(packets[j].raw).nonce != PacketBody(packets[k].raw).nonce
  {
    hide PacketsOf, GenerateNonce;
    PacketsCount(prims, c, uses);
    var packets, n := PacketsOf(prims, c, uses), c.crypto.value.sendCounter;
    ModEqualIffDifference(n + k, n + j, TWO_32);
    NoncesDiffer(packets[j].counter, packets[j].noise, packets[k].counter, packets[k].noise);
  }
}
