/** Both ends of a key exchange agree: the client's authenticate run against the server's three handlers,
    through encoding, padding, sealing and framing, for every random choice. */
module HandshakeAgreement {
  import opened Wrappers
  import opened Arithmetic
  import opened Bytes
  import opened TlTypes
  import opened TlObjects
  import opened TlLengths
  import opened Crypto
  import opened DhChecks
  import opened Dh
  import opened Padding
  import opened ServerModel
  import opened ServerInvariant
  import opened Abridged
  import opened ClientModel
  import opened EndToEnd
  import opened Handshake
  import opened HandshakeSafety

  /** The server's choices, and its store before the second and before the third request. */
  datatype ServerChoices = ServerChoices(
    serverNonce: Int128, p: nat, q: nat, fingerprint: i64, privateKey: nat, padding: bytes,
    store: Store, askedAt: nat, later: Store, finishedAt: nat)

  /** The bytes the server sends back in the course of the exchange, and the session it ends up with. */
  datatype Outcome = Outcome(replies: bytes, session: Option<SessionData>)

  function FrameOf(o: TlObject): bytes { Framed(EncodeBoxed(o)) }

  // The server reads each request from its bytes; after an error it sends nothing more.

  ghost function Serve3(prims: Primitives, prime: nat, sv: ServerChoices, request: TlObject): Outcome
    requires Lawful(prims) && prime > 0
  {
    var o := ParsedBody(EncodeBoxed(request));
    if o.None? || !o.value.SetClientDHParams? then Outcome([], None)
    else
      match AnswerSetClientDh(prims, prime, sv.later, o.value, sv.finishedAt).1
      case Err(_) => Outcome([], None)
      case Ok(done) => Outcome(FrameOf(done.1), Some(done.0))
  }

  ghost function Serve2(prims: Primitives, prime: nat, ch: Choices, sv: ServerChoices, request: TlObject): Outcome
    requires Lawful(prims) && prime > 0
  {
    var o := ParsedBody(EncodeBoxed(request));
    if o.None? || !o.value.ReqDHParams? then Outcome([], None)
    else
      match AnswerReqDh(prims, prime, sv.store, o.value, sv.privateKey, sv.askedAt, sv.padding)
      case Err(_) => Outcome([], None)
      case Ok(done) =>
        match OnServerDh(prims, ch, sv.serverNonce, done.1)
        case Err(_) => Outcome(FrameOf(done.1), None)
        case Ok(next) =>
          var end := Serve3(prims, prime, sv, next.1);
          Outcome(FrameOf(done.1) + end.replies, end.session)
  }

  /** The genuine course of an exchange: each request the client makes of the answers so far reaches the
      handlers, and each answer reaches the client. */
  ghost function Genuine(prims: Primitives, prime: nat, expected: i64, ch: Choices, sv: ServerChoices): Outcome
    requires Lawful(prims) && prime > 0
  {
    var first := ResPQOf(ch.nonce, sv.serverNonce, sv.p, sv.q, sv.fingerprint);
    match OnResPQ(prims, expected, ch, first)
    case Err(_) => Outcome(FrameOf(first), None)
    case Ok(request) =>
      var more := Serve2(prims, prime, ch, sv, request);
      Outcome(FrameOf(first) + more.replies, more.session)
  }

  // ---------- sizes ----------

  function ServerExponent(prime: nat, sv: ServerChoices): nat
    requires prime > 0
  {
    sv.privateKey % prime
  }

  function ClientExponent(prime: nat, ch: Choices): nat
    requires prime > 0
  {
    ch.privateKey % prime
  }

  function Inner1(ch: Choices, sv: ServerChoices): TlObject {
    PqInner(ch, sv.serverNonce, ToBytesBe(sv.p * sv.q), ToBytesBe(sv.p), ToBytesBe(sv.q))
  }

  function Inner2(prime: nat, ch: Choices, sv: ServerChoices): TlObject
    requires prime > 0
  {
    ServerInner(ch.nonce, sv.serverNonce, prime, ServerExponent(prime, sv))
  }

  function Inner3(prime: nat, ch: Choices, sv: ServerChoices): TlObject
    requires prime > 0
  {
    ClientInner(ch, sv.serverNonce, ComputePublicKey(G, ClientExponent(prime, ch), prime))
  }

  /** A modulus of at most 256 bytes, 32-bit p and q, paddings as pad makes them. */
  ghost predicate Sized(prime: nat, ch: Choices, sv: ServerChoices) {
    && 0 < prime && |ToBytesBe(prime)| <= 256 && sv.p < TWO_32 && sv.q < TWO_32
    && Pads(ch.pqPadding, EncodeBoxed(Inner1(ch, sv)))
    && Pads(sv.padding, EncodeBoxed(Inner2(prime, ch, sv)))
    && Pads(ch.dhPadding, EncodeBoxed(Inner3(prime, ch, sv)))
  }

  lemma ProductBound(p: nat, q: nat)
    requires p < TWO_32 && q < TWO_32
    ensures p * q < TWO_64
  {
    SquareBound(p, q, TWO_32);
  }

  lemma SquareBound(p: nat, q: nat, n: nat)
    requires p < n && q < n
    ensures p * q < n * n
  {
    assert p * (n - q) >= 0 && (n - p) * n > 0;
    assert p * (n - q) == p * n - p * q && (n - p) * n == n * n - p * n;
  }

  lemma FactorBytes(p: nat, q: nat)
    requires p < TWO_32 && q < TWO_32
    ensures 1 <= |ToBytesBe(p)| <= 4 && 1 <= |ToBytesBe(q)| <= 4 && 1 <= |ToBytesBe(p * q)| <= 8
  {
    hide ToBytesBe, Pow;
    WordSizes();
    ProductBound(p, q);
    ToBytesBeLength(p, 4);
    ToBytesBeLength(q, 4);
    ToBytesBeLength(p * q, 8);
  }

  lemma StringLength(data: bytes)
    ensures |EncodeBytes(data)| <= |data| + 7
  {
  }

  lemma Inner1Length(ch: Choices, sv: ServerChoices)
    requires sv.p < TWO_32 && sv.q < TWO_32
    ensures |EncodeBoxed(Inner1(ch, sv))| <= 105 && EncodableObject(Inner1(ch, sv))
  {
    FactorBytes(sv.p, sv.q);
    var o := Inner1(ch, sv);
    SixFields(Fields(o));
    StringLength(o.pq);
    StringLength(o.p);
    StringLength(o.q);
  }

  lemma Inner2Length(prime: nat, ch: Choices, sv: ServerChoices)
    requires 0 < prime && |ToBytesBe(prime)| <= 256
    ensures |EncodeBoxed(Inner2(prime, ch, sv))| <= 570 && EncodableObject(Inner2(prime, ch, sv))
  {
    BytesMonotone(ComputePublicKey(G, ServerExponent(prime, sv), prime), prime);
    var o := Inner2(prime, ch, sv);
    SixFields(Fields(o));
    StringLength(o.dhPrime);
    StringLength(o.gA);
  }

  lemma Inner3Length(prime: nat, ch: Choices, sv: ServerChoices)
    requires 0 < prime && |ToBytesBe(prime)| <= 256
    ensures |EncodeBoxed(Inner3(prime, ch, sv))| <= 307 && EncodableObject(Inner3(prime, ch, sv))
  {
    BytesMonotone(ComputePublicKey(G, ClientExponent(prime, ch), prime), prime);
    var o := Inner3(prime, ch, sv);
    ThreeFields(Fields(o));
    LengthFrom(Fields(o), 3);
    LengthFrom(Fields(o), 4);
    StringLength(o.gB);
  }

  // ---------- the messages ----------

  /** A request or an answer as both ends build it: it frames, and it comes back from its bytes. */
  ghost predicate Deliverable(o: TlObject) {
    EncodableObject(o) && BuiltHandshake(o) && |EncodeBoxed(o)| < MAX_FRAME_SIZE
  }

  lemma DeliverableParses(o: TlObject)
    requires Deliverable(o)
    ensures ParsedBody(EncodeBoxed(o)) == Some(o) && Parse(EncodeBoxed(o)) == Ok(o)
  {
    DecodeEncodedObject(o, []);
    assert EncodeBoxed(o) + [] == EncodeBoxed(o);
  }

  /** A request goes out and its genuine answer comes in, while the session is still in the clear. */
  lemma ExchangeDelivers(prims: Primitives, c: ClientState, out: bytes, o: TlObject, m: Moment, answer: TlObject, rest: bytes)
    requires Lawful(prims) && c.crypto.None? && Deliverable(o) && Deliverable(answer)
    ensures Exchange(prims, Link(c, FrameOf(answer) + rest, out), o, m) == (Link(c, rest, out + FrameOf(o)), Ok(answer))
  {
    HandshakeAvoidsMarker(answer);
    FrameRoundTrip(EncodeBoxed(answer), rest);
    DeliverableParses(answer);
  }

  /** Without an answer there is an error. */
  lemma ExchangeFails(prims: Primitives, c: ClientState, out: bytes, o: TlObject, m: Moment)
    requires Lawful(prims)
    ensures Exchange(prims, Link(c, [], out), o, m).1.Err?
  {
  }

  /** A sealed inner object opens to itself; its padding is left unread. */
  lemma InnerOpens(prims: Primitives, key: (bytes, bytes), o: TlObject, padding: bytes)
    requires Lawful(prims) && EncodableObject(o)
    ensures OpenInner(prims, key, EncryptInner(prims, key, EncodeBoxed(o) + padding)) == Ok(o)
  {
    DecodeEncodedObject(o, padding);
  }

  lemma SealedSize(prims: Primitives, key: (bytes, bytes), data: bytes, padding: bytes)
    requires Lawful(prims) && Pads(padding, data) && |data| <= 1000
    ensures var sealed := EncryptInner(prims, key, data + padding); |sealed| % 16 == 0 && |sealed| <= 2055
  {
  }

  function First(ch: Choices, sv: ServerChoices): TlObject {
    ResPQOf(ch.nonce, sv.serverNonce, sv.p, sv.q, sv.fingerprint)
  }

  function Request2(prims: Primitives, ch: Choices, sv: ServerChoices): TlObject
    requires Lawful(prims)
  {
    ReqDHParams(ch.nonce, sv.serverNonce, ToBytesBe(sv.p), ToBytesBe(sv.q), sv.fingerprint,
      EncryptInner(prims, TmpKey(prims, ch.nonce, sv.serverNonce), EncodeBoxed(Inner1(ch, sv)) + ch.pqPadding))
  }

  function Answer2(prims: Primitives, prime: nat, ch: Choices, sv: ServerChoices): TlObject
    requires Lawful(prims) && prime > 0
  {
    var data := EncryptInner(prims, TmpKey(prims, ch.newNonce, sv.serverNonce), EncodeBoxed(Inner2(prime, ch, sv)) + sv.padding);
    ServerDHParamsOk(ch.nonce, sv.serverNonce, data, prims.sign(SignedData(ch.nonce, sv.serverNonce, data)))
  }

  function Request3(prims: Primitives, prime: nat, ch: Choices, sv: ServerChoices): TlObject
    requires Lawful(prims) && prime > 0
  {
    SetClientDHParams(ch.nonce, sv.serverNonce,
      EncryptInner(prims, TmpKey(prims, ch.newNonce, sv.serverNonce), EncodeBoxed(Inner3(prime, ch, sv)) + ch.dhPadding))
  }

  /** Handshake objects of the built sizes are short. */
  lemma SmallDelivers(o: TlObject)
    requires BuiltHandshake(o)
    requires o.ReqDHParams? || o.SetClientDHParams? ==> |o.encryptedData| <= 2055
    requires o.ServerDHParamsOk? ==> |o.encryptedAnswer| <= 2055
    ensures Deliverable(o)
  {
    hide EncodeBoxed, EncodeFields, EncodeBytes;
    SmallEncodable(o);
    if o.ResPQ? {
      ResPQLength(o);
      StringLength(o.pq);
      StringLength(o.p);
      StringLength(o.q);
    } else if o.ReqDHParams? {
      ReqDHParamsLength(o);
      StringLength(o.p);
      StringLength(o.q);
      StringLength(o.encryptedData);
    } else if o.ServerDHParamsOk? {
      ServerDHParamsOkLength(o);
      StringLength(o.encryptedAnswer);
      StringLength(o.signature);
    } else if o.SetClientDHParams? {
      SetClientDHParamsLength(o);
      StringLength(o.encryptedData);
    } else {
      NonceObjectsLength(o);
    }
  }

  lemma SmallEncodable(o: TlObject)
    requires BuiltHandshake(o)
    requires o.ReqDHParams? || o.SetClientDHParams? ==> |o.encryptedData| <= 2055
    requires o.ServerDHParamsOk? ==> |o.encryptedAnswer| <= 2055
    ensures EncodableObject(o)
  {
    if o.ResPQ? { IdRecordsEncodable(o.fingerprints); }
  }

  lemma FirstDelivers(ch: Choices, sv: ServerChoices)
    requires sv.p < TWO_32 && sv.q < TWO_32
    ensures Deliverable(First(ch, sv))
  {
    hide ToBytesBe, Deliverable;
    FactorBytes(sv.p, sv.q);
    SmallDelivers(First(ch, sv));
  }

  lemma Request2Delivers(prims: Primitives, ch: Choices, sv: ServerChoices)
    requires Lawful(prims) && sv.p < TWO_32 && sv.q < TWO_32 && Pads(ch.pqPadding, EncodeBoxed(Inner1(ch, sv)))
    ensures Deliverable(Request2(prims, ch, sv))
  {
    hide ToBytesBe, Deliverable, EncodeBoxed, EncryptInner;
    FactorBytes(sv.p, sv.q);
    Inner1Length(ch, sv);
    SealedSize(prims, TmpKey(prims, ch.nonce, sv.serverNonce), EncodeBoxed(Inner1(ch, sv)), ch.pqPadding);
    SmallDelivers(Request2(prims, ch, sv));
  }

  lemma Answer2Delivers(prims: Primitives, prime: nat, ch: Choices, sv: ServerChoices)
    requires Lawful(prims) && 0 < prime && |ToBytesBe(prime)| <= 256 && Pads(sv.padding, EncodeBoxed(Inner2(prime, ch, sv)))
    ensures Deliverable(Answer2(prims, prime, ch, sv))
  {
    hide ToBytesBe, Deliverable, EncodeBoxed, EncryptInner, Inner2;
    Inner2Length(prime, ch, sv);
    SealedSize(prims, TmpKey(prims, ch.newNonce, sv.serverNonce), EncodeBoxed(Inner2(prime, ch, sv)), sv.padding);
    SmallDelivers(Answer2(prims, prime, ch, sv));
  }

  lemma Request3Delivers(prims: Primitives, prime: nat, ch: Choices, sv: ServerChoices)
    requires Lawful(prims) && 0 < prime && |ToBytesBe(prime)| <= 256 && Pads(ch.dhPadding, EncodeBoxed(Inner3(prime, ch, sv)))
    ensures Deliverable(Request3(prims, prime, ch, sv))
  {
    hide ToBytesBe, Deliverable, EncodeBoxed, EncryptInner, Inner3;
    Inner3Length(prime, ch, sv);
    SealedSize(prims, TmpKey(prims, ch.newNonce, sv.serverNonce), EncodeBoxed(Inner3(prime, ch, sv)), ch.dhPadding);
    SmallDelivers(Request3(prims, prime, ch, sv));
  }

  lemma NoncesDeliver(prims: Primitives, nonce: Int128, serverNonce: Int128, secret: nat)
    requires Lawful(prims)
    ensures Deliverable(ReqPq(nonce))
    ensures Deliverable(DHGenOk(nonce, serverNonce, SecretHash(prims, secret)))
  {
    SmallDelivers(ReqPq(nonce));
    SmallDelivers(DHGenOk(nonce, serverNonce, SecretHash(prims, secret)));
  }

  // ---------- each step ----------

  /** The client goes on from the first answer exactly when it accepts p and q and knows the fingerprint. */
  ghost predicate FactorsAccepted(expected: i64, ch: Choices, sv: ServerChoices) {
    expected == sv.fingerprint && PassesMillerRabin(sv.p, ch.pDraws) && PassesMillerRabin(sv.q, ch.qDraws)
  }

  lemma FirstAccepted(prims: Primitives, expected: i64, ch: Choices, sv: ServerChoices)
    requires Lawful(prims)
    ensures var r := OnResPQ(prims, expected, ch, First(ch, sv));
      if FactorsAccepted(expected, ch, sv) then r == Ok(Request2(prims, ch, sv)) else r.Err?
  {
    hide FromBytesBe, ToBytesBe, EncodeBoxed, PassesMillerRabin;
    BigEndianRoundTrip(sv.p);
    BigEndianRoundTrip(sv.q);
    BigEndianRoundTrip(sv.p * sv.q);
  }

  function Entry(prime: nat, ch: Choices, sv: ServerChoices): Pending
    requires prime > 0
  {
    Pending(ch.newNonce, ToBytesBe(ServerExponent(prime, sv)), sv.askedAt)
  }

  lemma Request2Answered(prims: Primitives, prime: nat, ch: Choices, sv: ServerChoices)
    requires Lawful(prims) && prime > 0 && sv.p < TWO_32 && sv.q < TWO_32
    ensures AnswerReqDh(prims, prime, sv.store, Request2(prims, ch, sv), sv.privateKey, sv.askedAt, sv.padding)
      == Ok((sv.store[ch.nonce + sv.serverNonce := Entry(prime, ch, sv)], Answer2(prims, prime, ch, sv)))
  {
    Inner1Length(ch, sv);
    InnerOpens(prims, TmpKey(prims, ch.nonce, sv.serverNonce), Inner1(ch, sv), ch.pqPadding);
  }

  function ClientSecret(prime: nat, ch: Choices, sv: ServerChoices): nat
    requires prime > 0
  {
    ComputeSharedSecret(ComputePublicKey(G, ServerExponent(prime, sv), prime), ClientExponent(prime, ch), prime)
  }

  ghost predicate GroupTrusted(prims: Primitives, prime: nat, ch: Choices, sv: ServerChoices)
    requires Lawful(prims) && prime > 0
  {
    var answer := Answer2(prims, prime, ch, sv);
    prims.verify(SignedData(ch.nonce, sv.serverNonce, answer.encryptedAnswer), answer.signature) && GroupAccepted(ch, prime, G)
  }

  lemma Answer2Accepted(prims: Primitives, prime: nat, ch: Choices, sv: ServerChoices)
    requires Lawful(prims) && 0 < prime && |ToBytesBe(prime)| <= 256
    ensures var r := OnServerDh(prims, ch, sv.serverNonce, Answer2(prims, prime, ch, sv));
      if GroupTrusted(prims, prime, ch, sv)
      then r == Ok((ClientSecret(prime, ch, sv), Request3(prims, prime, ch, sv))) else r.Err?
  {
    Inner2Length(prime, ch, sv);
    InnerOpens(prims, TmpKey(prims, ch.newNonce, sv.serverNonce), Inner2(prime, ch, sv), sv.padding);
    BigEndianRoundTrip(prime);
    BigEndianRoundTrip(ComputePublicKey(G, ServerExponent(prime, sv), prime));
  }

  /** The entry of this exchange, as long as it is in the store, is the one the second request left. */
  ghost predicate Undisturbed(prime: nat, ch: Choices, sv: ServerChoices)
    requires prime > 0
  {
    ch.nonce + sv.serverNonce in sv.later ==> sv.later[ch.nonce + sv.serverNonce] == Entry(prime, ch, sv)
  }

  /** The server still knows the exchange, in time, and the client's public value is in range. */
  ghost predicate StillKnown(prime: nat, ch: Choices, sv: ServerChoices)
    requires prime > 0
  {
    && ch.nonce + sv.serverNonce in sv.later && sv.finishedAt - sv.askedAt < TIMEOUT_NS
    && ValidatePublicValue(ComputePublicKey(G, ClientExponent(prime, ch), prime), prime).Ok?
  }

  lemma Request3Answered(prims: Primitives, prime: nat, ch: Choices, sv: ServerChoices)
    requires Lawful(prims) && 0 < prime && |ToBytesBe(prime)| <= 256 && Undisturbed(prime, ch, sv)
    ensures var r := AnswerSetClientDh(prims, prime, sv.later, Request3(prims, prime, ch, sv), sv.finishedAt).1;
      var secret := ClientSecret(prime, ch, sv);
      if StillKnown(prime, ch, sv)
      then r == Ok((NewSession(prims, ch.nonce, sv.serverNonce, ch.newNonce, secret),
                    DHGenOk(ch.nonce, sv.serverNonce, SecretHash(prims, secret))))
      else r.Err?
  {
    var a, b := ServerExponent(prime, sv), ClientExponent(prime, ch);
    Inner3Length(prime, ch, sv);
    InnerOpens(prims, TmpKey(prims, ch.newNonce, sv.serverNonce), Inner3(prime, ch, sv), ch.dhPadding);
    BigEndianRoundTrip(ComputePublicKey(G, b, prime));
    BigEndianRoundTrip(a);
    Agreement(G, a, b, prime);
  }

  // ---------- the whole exchange ----------

  /** What both ends hold after a successful exchange: the same secret, authorisation key, key id and
      four keys, with all numbers fresh. */
  ghost predicate Agreed(client: ClientState, session: SessionData) {
    && client.authKeyId == Some(session.authKeyId) && client.authKey == Some(session.authKey)
    && client.crypto == Some(session.crypto) && FreshSession(session)
    && client.recvLastMsgId == 0
  }

  ghost predicate EndsWell(prims: Primitives, prime: nat, c: ClientState, ch: Choices, sv: ServerChoices, link: Link, session: Option<SessionData>)
    requires Lawful(prims) && prime > 0
  {
    var secret := ClientSecret(prime, ch, sv);
    && link.client == Authenticated(prims, c, ch.nonce, sv.serverNonce, secret)
    && session == Some(NewSession(prims, ch.nonce, sv.serverNonce, ch.newNonce, secret))
    && link.incoming == []
    && link.outgoing == FrameOf(ReqPq(ch.nonce)) + FrameOf(Request2(prims, ch, sv)) + FrameOf(Request3(prims, prime, ch, sv))
  }

  lemma EndOfExchange(prims: Primitives, prime: nat, c: ClientState, ch: Choices, sv: ServerChoices, ms: (Moment, Moment, Moment))
    requires Lawful(prims) && c.crypto.None? && Sized(prime, ch, sv) && Undisturbed(prime, ch, sv)
    ensures var end := Serve3(prims, prime, sv, Request3(prims, prime, ch, sv));
      var (link, r) := AuthenticateEnd(prims, ch, sv.serverNonce, ClientSecret(prime, ch, sv),
        Request3(prims, prime, ch, sv), ms, Link(c, end.replies, FrameOf(ReqPq(ch.nonce)) + FrameOf(Request2(prims, ch, sv))));
      && (r.Ok? <==> StillKnown(prime, ch, sv))
      && (r.Ok? ==> EndsWell(prims, prime, c, ch, sv, link, end.session))
  {
    hide Deliverable, EncodeBoxed, FrameOf, Exchange, AnswerSetClientDh, StillKnown, Pads, NewSession, Authenticated;
    var request, secret := Request3(prims, prime, ch, sv), ClientSecret(prime, ch, sv);
    var out := FrameOf(ReqPq(ch.nonce)) + FrameOf(Request2(prims, ch, sv));
    Request3Delivers(prims, prime, ch, sv);
    DeliverableParses(request);
    Request3Answered(prims, prime, ch, sv);
    if StillKnown(prime, ch, sv) {
      var answer := DHGenOk(ch.nonce, sv.serverNonce, SecretHash(prims, secret));
      NoncesDeliver(prims, ch.nonce, sv.serverNonce, secret);
      assert FrameOf(answer) + [] == FrameOf(answer);
      ExchangeDelivers(prims, c, out, request, ms.2, answer, []);
    } else {
      ExchangeFails(prims, c, out, request, ms.2);
    }
  }

  lemma MiddleOfExchange(prims: Primitives, prime: nat, c: ClientState, ch: Choices, sv: ServerChoices, ms: (Moment, Moment, Moment))
    requires Lawful(prims) && c.crypto.None? && Sized(prime, ch, sv) && Undisturbed(prime, ch, sv)
    ensures var mid := Serve2(prims, prime, ch, sv, Request2(prims, ch, sv));
      var (link, r) := AuthenticateDh(prims, ch, sv.serverNonce, Request2(prims, ch, sv), ms, Link(c, mid.replies, FrameOf(ReqPq(ch.nonce))));
      && (r.Ok? <==> GroupTrusted(prims, prime, ch, sv) && StillKnown(prime, ch, sv))
      && (r.Ok? ==> EndsWell(prims, prime, c, ch, sv, link, mid.session))
  {
    hide Deliverable, EncodeBoxed, FrameOf, Exchange, OnServerDh, AnswerReqDh, AuthenticateEnd, Serve3, StillKnown, EndsWell, Pads;
    var request, answer := Request2(prims, ch, sv), Answer2(prims, prime, ch, sv);
    Request2Delivers(prims, ch, sv);
    DeliverableParses(request);
    Request2Answered(prims, prime, ch, sv);
    Answer2Delivers(prims, prime, ch, sv);
    Answer2Accepted(prims, prime, ch, sv);
    if GroupTrusted(prims, prime, ch, sv) {
      var end := Serve3(prims, prime, sv, Request3(prims, prime, ch, sv));
      ExchangeDelivers(prims, c, FrameOf(ReqPq(ch.nonce)), request, ms.1, answer, end.replies);
      EndOfExchange(prims, prime, c, ch, sv, ms);
    } else {
      assert FrameOf(answer) + [] == FrameOf(answer);
      ExchangeDelivers(prims, c, FrameOf(ReqPq(ch.nonce)), request, ms.1, answer, []);
    }
  }

  lemma WholeExchange(prims: Primitives, prime: nat, expected: i64, c: ClientState, ch: Choices, sv: ServerChoices, ms: (Moment, Moment, Moment))
    requires Lawful(prims) && c.crypto.None? && Sized(prime, ch, sv) && Undisturbed(prime, ch, sv)
    ensures var course := Genuine(prims, prime, expected, ch, sv);
      var (link, r) := Authenticate(prims, expected, ch, ms, Link(c, course.replies, []));
      && (r.Ok? <==> FactorsAccepted(expected, ch, sv) && GroupTrusted(prims, prime, ch, sv) && StillKnown(prime, ch, sv))
      && (r.Ok? ==> EndsWell(prims, prime, c, ch, sv, link, course.session))
  {
    hide Deliverable, EncodeBoxed, FrameOf, Exchange, OnResPQ, AuthenticateDh, Serve2, StillKnown, GroupTrusted, EndsWell, Pads;
    var first := First(ch, sv);
    assert [] + FrameOf(ReqPq(ch.nonce)) == FrameOf(ReqPq(ch.nonce));
    NoncesDeliver(prims, ch.nonce, sv.serverNonce, 0);
    FirstDelivers(ch, sv);
    FirstAccepted(prims, expected, ch, sv);
    if FactorsAccepted(expected, ch, sv) {
      var mid := Serve2(prims, prime, ch, sv, Request2(prims, ch, sv));
      ExchangeDelivers(prims, c, [], ReqPq(ch.nonce), ms.0, first, mid.replies);
      MiddleOfExchange(prims, prime, c, ch, sv, ms);
    } else {
      assert FrameOf(first) + [] == FrameOf(first);
      ExchangeDelivers(prims, c, [], ReqPq(ch.nonce), ms.0, first, []);
    }
  }

  /** Handshake agreement: over genuine delivery, authenticate succeeds exactly when the client accepts the
      factors and the fingerprint, trusts the signed group, and finishes in time with a public value in
      range; and then both ends hold the same keys, those of 2 raised to the product of both exponents. */
  lemma EndsHoldTheSameKeys(prims: Primitives, prime: nat, expected: i64, c: ClientState, ch: Choices, sv: ServerChoices, ms: (Moment, Moment, Moment))
    requires Lawful(prims) && c.crypto.None? && Sized(prime, ch, sv) && Undisturbed(prime, ch, sv)
    ensures var course := Genuine(prims, prime, expected, ch, sv);
      var (link, r) := Authenticate(prims, expected, ch, ms, Link(c, course.replies, []));
      && (r.Ok? <==> FactorsAccepted(expected, ch, sv) && GroupTrusted(prims, prime, ch, sv) && StillKnown(prime, ch, sv))
      && (r.Ok? ==> course.session.Some? && Agreed(link.client, course.session.value)
                    && KeysOf(prims, ExchangedSecret(prime, ch, sv), ch.nonce, sv.serverNonce, course.session.value.authKeyId,
                              course.session.value.authKey, course.session.value.crypto)
                    && link.client.serverSalt == DecodeI64(sv.serverNonce[..8])
                    && link.client.seqNo == c.seqNo && link.client.recvSeqNo == c.recvSeqNo
                    && link.client.msgIdCounter == c.msgIdCounter
                    && link.outgoing == FrameOf(ReqPq(ch.nonce)) + FrameOf(Request2(prims, ch, sv))
                                        + FrameOf(Request3(prims, prime, ch, sv)))
  {
    hide Authenticate, Genuine, FactorsAccepted, GroupTrusted, StillKnown, Undisturbed, KeysOf, EndsWell, Agreed, FrameOf, Request2, Request3;
    WholeExchange(prims, prime, expected, c, ch, sv, ms);
    var (link, r) := Authenticate(prims, expected, ch, ms, Link(c, Genuine(prims, prime, expected, ch, sv).replies, []));
    if r.Ok? { WellEnded(prims, prime, c, ch, sv, link, Genuine(prims, prime, expected, ch, sv).session); }
  }

  lemma WellEnded(prims: Primitives, prime: nat, c: ClientState, ch: Choices, sv: ServerChoices, link: Link, session: Option<SessionData>)
    requires Lawful(prims) && prime > 0 && EndsWell(prims, prime, c, ch, sv, link, session)
    ensures session.Some? && Agreed(link.client, session.value)
    ensures var s := session.value;
      KeysOf(prims, ExchangedSecret(prime, ch, sv), ch.nonce, sv.serverNonce, s.authKeyId, s.authKey, s.crypto)
    ensures link.client.serverSalt == DecodeI64(sv.serverNonce[..8]) && link.client.seqNo == c.seqNo
    ensures link.client.recvSeqNo == c.recvSeqNo && link.client.msgIdCounter == c.msgIdCounter
    ensures link.outgoing == FrameOf(ReqPq(ch.nonce)) + FrameOf(Request2(prims, ch, sv)) + FrameOf(Request3(prims, prime, ch, sv))
  {
    hide KeysOf, ClientSecret, AuthKeyOf, AuthKeyId, FrameOf, Request2, Request3;
    SecretIsExchanged(prime, ch, sv);
    SessionKeys(prims, ClientSecret(prime, ch, sv), ch.nonce, sv.serverNonce, ch.newNonce);
  }

  /** Two raised to both exponents. */
  function ExchangedSecret(prime: nat, ch: Choices, sv: ServerChoices): nat
    requires prime > 0
  {
    Pow(2, (sv.privateKey % prime) * (ch.privateKey % prime)) % prime
  }

  lemma SecretIsExchanged(prime: nat, ch: Choices, sv: ServerChoices)
    requires prime > 0
    ensures ClientSecret(prime, ch, sv) == ExchangedSecret(prime, ch, sv)
  {
    SecretIs(G, ServerExponent(prime, sv), ClientExponent(prime, ch), prime);
  }

  // ---------- from the exchange to the session protocol ----------

  /** A plain frame: its first eight bytes do not happen to be the id of a known session. */
  predicate TakenAsPlain(st: ServerState, raw: bytes) {
    |raw| >= 8 ==> !Addresses(st, raw, PacketKeyId(raw))
  }

  function Quiet(client: ClientState, server: ServerState): World {
    World(client, server, Channel([], 0), Channel([], 0), [], [], [], [], [])
  }

  /** The pass of the loop that ends an exchange leaves a fresh session under the new id. */
  lemma EstablishedStep(prims: Primitives, capacity: nat, st: ServerState, raw: bytes, env: Env)
    requires Lawful(prims) && Inv(capacity, st) && env.handled.Established? && NoCollision(st, env.handled)
    requires TakenAsPlain(st, raw) && DecodeBoxed(raw).Got?
    ensures var st', session := Step(prims, capacity, st, raw, env).0, env.handled.session;
      var id := session.authKeyId;
      && Inv(capacity, st') && id in st'.table && st'.table[id] == RowOf(id, session)
      && RecentsBelow(st', id)
  {
    StepKeeps(prims, capacity, st, raw, env);
    if |raw| >= 8 && PacketKeyId(raw) != 0 { GetKeeps(capacity, st, PacketKeyId(raw)); }
    var st1 := Classify(capacity, st, raw).0;
    UpdateKeeps(capacity, st1, env.handled.session.authKeyId, env.handled.session, []);
  }

  /** A client that was disconnected, and a server with any other sessions: when the exchange succeeds and
      its key id is new and not zero, both are in the state from which EndsInLockstep and DeadDirection
      start. */
  lemma ExchangeStartsSession(prims: Primitives, prime: nat, expected: i64, ch: Choices, sv: ServerChoices, ms: (Moment, Moment, Moment), capacity: nat, st: ServerState, env: Env)
    requires Lawful(prims) && Sized(prime, ch, sv) && Undisturbed(prime, ch, sv)
    requires Authenticate(prims, expected, ch, ms, Link(DISCONNECTED, Genuine(prims, prime, expected, ch, sv).replies, [])).1.Ok?
    requires var request := EncodeBoxed(Request3(prims, prime, ch, sv));
      Inv(capacity, st) && TakenAsPlain(st, request)
    requires env.handled.Established? && Some(env.handled.session) == Genuine(prims, prime, expected, ch, sv).session
    requires env.handled.session.authKeyId !in st.table && env.handled.session.authKeyId != 0
    ensures var client := Authenticate(prims, expected, ch, ms, Link(DISCONNECTED, Genuine(prims, prime, expected, ch, sv).replies, [])).0.client;
      var server := Step(prims, capacity, st, EncodeBoxed(Request3(prims, prime, ch, sv)), env).0;
      JustAuthenticated(capacity, env.handled.session.authKeyId, Quiet(client, server))
  {
    hide Authenticate, Genuine, EncodeBoxed, Step, Sized, Request3;
    EndsHoldTheSameKeys(prims, prime, expected, DISCONNECTED, ch, sv, ms);
    Request3Parses(prims, prime, ch, sv);
    EstablishedStep(prims, capacity, st, EncodeBoxed(Request3(prims, prime, ch, sv)), env);
  }

  lemma Request3Parses(prims: Primitives, prime: nat, ch: Choices, sv: ServerChoices)
    requires Lawful(prims) && Sized(prime, ch, sv)
    ensures DecodeBoxed(EncodeBoxed(Request3(prims, prime, ch, sv))).Got?
  {
    Request3Delivers(prims, prime, ch, sv);
    DeliverableParses(Request3(prims, prime, ch, sv));
  }
}
