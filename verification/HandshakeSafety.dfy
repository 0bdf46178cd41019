/** What a key exchange guarantees whatever arrives: the client installs keys only after every check has passed
    on the answers it read, and the server finishes each exchange at most once, within a minute
    (kosta/src/session.rs, authenticate; kosta-server/src/handlers.rs). Checks, requests and keys are stated in
    terms of the primitives. */
module HandshakeSafety {
  import opened Wrappers
  import opened Sequences
  import opened Arithmetic
  import opened Bytes
  import opened TlTypes
  import opened TlObjects
  import opened Crypto
  import opened DhChecks
  import opened Dh
  import opened ServerModel
  import opened Abridged
  import opened ClientModel
  import opened Handshake

  // ---------- keys ----------

  /** The authorisation key is a chain of eight hashes, each of the block before and the secret. */
  ghost predicate HashChain(prims: Primitives, secret: bytes, nonces: bytes, key: bytes) {
    && |key| == 256 && key[..32] == prims.sha256(secret + nonces)
    && forall i :: 1 <= i < 8 ==> key[32 * i..32 * (i + 1)] == prims.sha256(key[32 * (i - 1)..32 * i] + secret)
  }

  lemma {:induction false} BlockAt(prims: Primitives, secret: bytes, nonces: bytes, n: nat, i: nat)
    requires Lawful(prims) && i < n
    ensures KeyBlocks(prims, secret, nonces, n)[32 * i..32 * (i + 1)] == KeyBlock(prims, secret, nonces, i)
  {
    if i < n - 1 {
      BlockAt(prims, secret, nonces, n - 1, i);
      var earlier := KeyBlocks(prims, secret, nonces, n - 1);
      assert KeyBlocks(prims, secret, nonces, n)[32 * i..32 * (i + 1)] == earlier[32 * i..32 * (i + 1)];
    }
  }

  lemma AuthKeyIsChain(prims: Primitives, secret: nat, nonce: Int128, serverNonce: Int128)
    requires Lawful(prims)
    ensures HashChain(prims, ToBytesLe(secret), nonce + serverNonce, AuthKeyOf(prims, secret, nonce, serverNonce))
  {
    hide KeyBlocks, ToBytesLe;
    var s, nonces := ToBytesLe(secret), nonce + serverNonce;
    var key := AuthKeyOf(prims, secret, nonce, serverNonce);
    BlockAt(prims, s, nonces, 8, 0);
    assert key[32 * 0..32 * 1] == key[..32];
    forall i | 1 <= i < 8
      ensures key[32 * i..32 * (i + 1)] == prims.sha256(key[32 * (i - 1)..32 * i] + s)
    {
      BlockAt(prims, s, nonces, 8, i);
      BlockAt(prims, s, nonces, 8, i - 1);
    }
  }

  /** Key id, authorisation key and the four session keys that belong to a secret. */
  ghost predicate KeysOf(prims: Primitives, secret: nat, nonce: Int128, serverNonce: Int128, id: i64, authKey: bytes, crypto: SessionCrypto)
    requires Lawful(prims)
  {
    var s := ToBytesLe(secret);
    && id == DecodeI64(prims.sha1(s)[12..20])
    && HashChain(prims, s, nonce + serverNonce, authKey)
    && |crypto.clientWriteKey| == |crypto.clientMacKey| == |crypto.serverWriteKey| == |crypto.serverMacKey| == 32
    && crypto.clientWriteKey + crypto.clientMacKey + crypto.serverWriteKey + crypto.serverMacKey
         == prims.hkdf(prims.sha256(nonce + serverNonce), s)
    && crypto.sendCounter == crypto.recvCounter == 0
  }

  /** The client after a successful exchange. */
  ghost predicate KeysInstalled(prims: Primitives, before: ClientState, after: ClientState, secret: nat, nonce: Int128, serverNonce: Int128)
    requires Lawful(prims)
  {
    && after.authKeyId.Some? && after.authKey.Some? && after.crypto.Some?
    && KeysOf(prims, secret, nonce, serverNonce, after.authKeyId.value, after.authKey.value, after.crypto.value)
    && after == before.(authKeyId := after.authKeyId, authKey := after.authKey, crypto := after.crypto,
                        serverSalt := DecodeI64(serverNonce[..8]), recvLastMsgId := 0)
  }

  lemma AuthenticatedKeys(prims: Primitives, c: ClientState, secret: nat, nonce: Int128, serverNonce: Int128)
    requires Lawful(prims)
    ensures KeysInstalled(prims, c, Authenticated(prims, c, nonce, serverNonce, secret), secret, nonce, serverNonce)
  {
    hide ToBytesLe, HashChain, AuthKeyOf, NewSessionCrypto;
    AuthKeyIsChain(prims, secret, nonce, serverNonce);
    DerivedKeys(prims, ToBytesLe(secret), nonce, serverNonce);
  }

  lemma SessionKeys(prims: Primitives, secret: nat, nonce: Int128, serverNonce: Int128, newNonce: Int256)
    requires Lawful(prims)
    ensures var s := NewSession(prims, nonce, serverNonce, newNonce, secret);
      && KeysOf(prims, secret, nonce, serverNonce, s.authKeyId, s.authKey, s.crypto)
      && s.nonce == nonce && s.serverNonce == serverNonce && s.newNonce == newNonce && s.serverSalt == 0 && s.userId == 0
  {
    hide ToBytesLe, HashChain, AuthKeyOf, NewSessionCrypto;
    AuthKeyIsChain(prims, secret, nonce, serverNonce);
    DerivedKeys(prims, ToBytesLe(secret), nonce, serverNonce);
  }

  // ---------- what the client reads and checks ----------

  /** The answers read, the object sealed in the second one, and the bytes left after each. */
  datatype Transcript = Transcript(
    first: TlObject, rest1: bytes, second: TlObject, inner: TlObject, rest2: bytes, third: TlObject, rest3: bytes)

  /** The bytes start with a frame that holds the object. */
  predicate Holds(incoming: bytes, o: TlObject, rest: bytes) {
    var frame := DecodeFrame(incoming);
    frame.Frame? && frame.rest == rest && ParsesTo(frame.payload, o)
  }

  predicate ParsesTo(data: bytes, o: TlObject) {
    var parsed := DecodeBoxed(data);
    parsed.Got? && parsed.value == o
  }

  /** The sealed data opens under the key and nonce made of two other nonces, and holds the object. */
  predicate Opens(prims: Primitives, one: bytes, other: bytes, sealed: bytes, o: TlObject)
    requires Lawful(prims)
  {
    var plain := prims.gcmOpen(prims.sha256(one + other), prims.sha256(other + one)[..12], sealed);
    plain.Some? && ParsesTo(plain.value, o)
  }

  function SealFor(prims: Primitives, one: bytes, other: bytes, o: TlObject, padding: bytes): bytes
    requires Lawful(prims)
  {
    prims.gcmSeal(prims.sha256(one + other), prims.sha256(other + one)[..12], EncodeBoxed(o) + padding)
  }

  /** The nonce is the client's, p and q are probable primes with product pq, and the fingerprint is known. */
  ghost predicate FirstChecks(expected: i64, ch: Choices, first: TlObject) {
    && first.ResPQ? && first.nonce == ch.nonce && expected in first.fingerprints
    && FromBytesBe(first.p) * FromBytesBe(first.q) == FromBytesBe(first.pq)
    && PassesMillerRabin(FromBytesBe(first.p), ch.pDraws) && PassesMillerRabin(FromBytesBe(first.q), ch.qDraws)
  }

  /** Both nonces are those of the exchange, outside and inside, the signature is good, and the group is a
      probable prime of 2048 bits with a generator in range. */
  ghost predicate SecondChecks(prims: Primitives, ch: Choices, serverNonce: Int128, second: TlObject, inner: TlObject)
    requires Lawful(prims)
  {
    && second.ServerDHParamsOk? && second.nonce == ch.nonce && second.serverNonce == serverNonce
    && prims.verify(ch.nonce + serverNonce + EncodeBytes(second.encryptedAnswer), second.signature)
    && Opens(prims, ch.newNonce, serverNonce, second.encryptedAnswer, inner)
    && inner.ServerDHInnerData? && inner.nonce == ch.nonce && inner.serverNonce == serverNonce
    && PassesMillerRabin(FromBytesBe(inner.dhPrime), ch.primeDraws) && FromBytesBe(inner.dhPrime) >= Pow(2, 2047)
    && 1 < Unsigned32(inner.g) < FromBytesBe(inner.dhPrime) - 1
  }

  /** The secret of the server's public value. */
  function SecretOf(ch: Choices, inner: TlObject): nat
    requires inner.ServerDHInnerData? && FromBytesBe(inner.dhPrime) > 0
  {
    var p := FromBytesBe(inner.dhPrime);
    Pow(FromBytesBe(inner.gA), ch.privateKey % p) % p
  }

  /** The nonces again, and the hash of the secret. */
  predicate ThirdChecks(prims: Primitives, ch: Choices, serverNonce: Int128, secret: nat, third: TlObject)
    requires Lawful(prims)
  {
    && third.DHGenOk? && third.nonce == ch.nonce && third.serverNonce == serverNonce
    && third.newNonceHash1 == prims.sha1(ToBytesLe(secret))[..16]
  }

  /** The second request repeats p and q and names the server's first key; only the server can read pq, p, q and
      the new nonce. */
  function SecondRequest(prims: Primitives, ch: Choices, first: TlObject): TlObject
    requires Lawful(prims) && first.ResPQ? && first.fingerprints != []
  {
    ReqDHParams(ch.nonce, first.serverNonce, first.p, first.q, first.fingerprints[0],
      SealFor(prims, ch.nonce, first.serverNonce,
        PqInnerData(first.pq, first.p, first.q, ch.nonce, first.serverNonce, ch.newNonce), ch.pqPadding))
  }

  /** The third request carries the client's public value. */
  function ThirdRequest(prims: Primitives, ch: Choices, serverNonce: Int128, inner: TlObject): TlObject
    requires Lawful(prims) && inner.ServerDHInnerData? && FromBytesBe(inner.dhPrime) > 0
  {
    var p := FromBytesBe(inner.dhPrime);
    SetClientDHParams(ch.nonce, serverNonce,
      SealFor(prims, ch.newNonce, serverNonce,
        ClientDHInnerData(ch.nonce, serverNonce, 0, ToBytesBe(Pow(Unsigned32(inner.g), ch.privateKey % p) % p)), ch.dhPadding))
  }

  predicate Frames(o: TlObject) { |EncodeBoxed(o)| < TWO_24 }

  /** The transcript of an exchange in which every check passes. */
  ghost predicate Complete(prims: Primitives, expected: i64, ch: Choices, incoming: bytes, t: Transcript)
    requires Lawful(prims)
  {
    && Frames(ReqPq(ch.nonce)) && Holds(incoming, t.first, t.rest1) && FirstChecks(expected, ch, t.first)
    && Frames(SecondRequest(prims, ch, t.first)) && Holds(t.rest1, t.second, t.rest2)
    && SecondChecks(prims, ch, t.first.serverNonce, t.second, t.inner)
    && FromBytesBe(t.inner.dhPrime) > 0
    && Frames(ThirdRequest(prims, ch, t.first.serverNonce, t.inner)) && Holds(t.rest2, t.third, t.rest3)
    && ThirdChecks(prims, ch, t.first.serverNonce, SecretOf(ch, t.inner), t.third)
  }

  // ---------- step by step ----------

  /** In the clear a request is framed and the first frame read. */
  lemma ClearExchange(prims: Primitives, link: Link, o: TlObject, m: Moment)
    requires Lawful(prims) && link.client.crypto.None?
    ensures var (link', r) := Exchange(prims, link, o, m);
      && link'.client == link.client
      && (r.Ok? ==> Frames(o) && Holds(link.incoming, r.value, link'.incoming)
                    && link'.outgoing == link.outgoing + Framed(EncodeBoxed(o)))
    ensures forall a, rest :: Frames(o) && Holds(link.incoming, a, rest) ==>
      Exchange(prims, link, o, m) == (Link(link.client, rest, link.outgoing + Framed(EncodeBoxed(o))), Ok(a))
  {
    hide EncodeBoxed, DecodeBoxed, DecodeFrame, Framed;
  }

  lemma FirstIff(prims: Primitives, expected: i64, ch: Choices, first: TlObject)
    requires Lawful(prims)
    ensures var r := OnResPQ(prims, expected, ch, first);
      && (r.Ok? <==> FirstChecks(expected, ch, first))
      && (r.Ok? ==> first.fingerprints != [] && r.value == SecondRequest(prims, ch, first))
  {
    hide FromBytesBe, PassesMillerRabin, EncodeBoxed;
  }

  lemma OpenedIs(prims: Primitives, one: bytes, other: bytes, sealed: bytes)
    requires Lawful(prims)
    ensures var r := OpenInner(prims, TmpKey(prims, one, other), sealed);
      && (r.Ok? ==> Opens(prims, one, other, sealed, r.value))
      && (forall o :: Opens(prims, one, other, sealed, o) ==> r == Ok(o))
  {
    hide DecodeBoxed;
  }

  lemma BigGroup(n: nat)
    requires n >= Pow(2, 2047)
    ensures n > 0
  {
    PowPositive(2, 2047);
  }

  lemma SecondIff(prims: Primitives, ch: Choices, serverNonce: Int128, second: TlObject)
    requires Lawful(prims)
    ensures var r := OnServerDh(prims, ch, serverNonce, second);
      && (r.Ok? ==> exists inner :: SecondChecks(prims, ch, serverNonce, second, inner))
      && (forall inner :: SecondChecks(prims, ch, serverNonce, second, inner) ==>
            && FromBytesBe(inner.dhPrime) > 0
            && r == Ok((SecretOf(ch, inner), ThirdRequest(prims, ch, serverNonce, inner))))
  {
    hide FromBytesBe, ToBytesBe, PassesMillerRabin, EncodeBoxed, EncodeBytes, Pow, OpenInner, Opens, TmpKey;
    var r := OnServerDh(prims, ch, serverNonce, second);
    if second.ServerDHParamsOk? { OpenedIs(prims, ch.newNonce, serverNonce, second.encryptedAnswer); }
    if r.Ok? {
      var inner := OpenInner(prims, TmpKey(prims, ch.newNonce, serverNonce), second.encryptedAnswer).value;
      assert SecondChecks(prims, ch, serverNonce, second, inner);
    }
    forall inner | SecondChecks(prims, ch, serverNonce, second, inner)
      ensures FromBytesBe(inner.dhPrime) > 0
      ensures r == Ok((SecretOf(ch, inner), ThirdRequest(prims, ch, serverNonce, inner)))
    {
      BigGroup(FromBytesBe(inner.dhPrime));
      ThirdIs(prims, ch, serverNonce, inner);
    }
  }

  lemma ThirdIs(prims: Primitives, ch: Choices, serverNonce: Int128, inner: TlObject)
    requires Lawful(prims) && inner.ServerDHInnerData? && FromBytesBe(inner.dhPrime) > 0
    requires GroupAccepted(ch, FromBytesBe(inner.dhPrime), Unsigned32(inner.g))
    ensures Agree(prims, ch, serverNonce, FromBytesBe(inner.dhPrime), Unsigned32(inner.g), FromBytesBe(inner.gA))
         == Ok((SecretOf(ch, inner), ThirdRequest(prims, ch, serverNonce, inner)))
  {
    hide FromBytesBe, ToBytesBe, PassesMillerRabin, EncodeBoxed, Pow;
  }

  lemma ThirdIff(prims: Primitives, ch: Choices, serverNonce: Int128, secret: nat, third: TlObject)
    requires Lawful(prims)
    ensures OnDhGen(prims, ch.nonce, serverNonce, secret, third).Ok? <==> ThirdChecks(prims, ch, serverNonce, secret, third)
  {
  }

  // ---------- which check is reported ----------

  lemma FirstErrors(prims: Primitives, expected: i64, ch: Choices, first: TlObject)
    requires Lawful(prims)
    ensures var r := OnResPQ(prims, expected, ch, first);
      && (r == Err(Unexpected) <==> !first.ResPQ?)
      && (first.ResPQ? ==>
            var p, q := FromBytesBe(first.p), FromBytesBe(first.q);
            var product, prime := p * q == FromBytesBe(first.pq), PassesMillerRabin(p, ch.pDraws) && PassesMillerRabin(q, ch.qDraws);
            && (r == Err(NonceMismatch) <==> first.nonce != ch.nonce)
            && (r == Err(WrongProduct) <==> first.nonce == ch.nonce && !product)
            && (r == Err(FactorsNotPrime) <==> first.nonce == ch.nonce && product && !prime)
            && (r == Err(WrongFingerprint) <==> first.nonce == ch.nonce && product && prime && expected !in first.fingerprints))
  {
    hide FromBytesBe, PassesMillerRabin, EncodeBoxed;
  }

  lemma SecondErrors(prims: Primitives, ch: Choices, serverNonce: Int128, second: TlObject)
    requires Lawful(prims)
    ensures var r := OnServerDh(prims, ch, serverNonce, second);
      if !second.ServerDHParamsOk? then r == Err(Unexpected)
      else if second.nonce != ch.nonce || second.serverNonce != serverNonce then r == Err(NonceMismatch)
      else if !prims.verify(ch.nonce + serverNonce + EncodeBytes(second.encryptedAnswer), second.signature) then r == Err(BadSignature)
      else
        var plain := prims.gcmOpen(prims.sha256(ch.newNonce + serverNonce), prims.sha256(serverNonce + ch.newNonce)[..12], second.encryptedAnswer);
        if plain.None? then r == Err(BadInner(NotDecrypted))
        else if DecodeBoxed(plain.value).Bad? then r == Err(BadInner(Unparsed(DecodeBoxed(plain.value).error)))
        else
          var inner := DecodeBoxed(plain.value).value;
          if !inner.ServerDHInnerData? then r == Err(Unexpected)
          else if inner.nonce != ch.nonce || inner.serverNonce != serverNonce then r == Err(NonceMismatch)
          else
            var prime := FromBytesBe(inner.dhPrime);
            && (r == Err(BadGroup(NotPrime)) <==> !PassesMillerRabin(prime, ch.primeDraws))
            && (r == Err(BadGroup(TooSmall)) <==> PassesMillerRabin(prime, ch.primeDraws) && prime < Pow(2, 2047))
            && (r == Err(BadGroup(GeneratorOutOfRange)) <==>
                  PassesMillerRabin(prime, ch.primeDraws) && prime >= Pow(2, 2047) && !(1 < Unsigned32(inner.g) < prime - 1))
  {
    hide FromBytesBe, PassesMillerRabin, EncodeBoxed, EncodeBytes, DecodeBoxed, Pow, ComputePublicKey, ComputeSharedSecret;
  }

  lemma ThirdErrors(prims: Primitives, ch: Choices, serverNonce: Int128, secret: nat, third: TlObject)
    requires Lawful(prims)
    ensures var r := OnDhGen(prims, ch.nonce, serverNonce, secret, third);
      && (r == Err(Unexpected) <==> !third.DHGenOk?)
      && (r == Err(NonceMismatch) <==> third.DHGenOk? && (third.nonce != ch.nonce || third.serverNonce != serverNonce))
      && (r == Err(HashMismatch) <==> third.DHGenOk? && third.nonce == ch.nonce && third.serverNonce == serverNonce
                                      && third.newNonceHash1 != prims.sha1(ToBytesLe(secret))[..16])
  {
  }

  // ---------- the client's theorem ----------

  /** What a complete transcript leaves: the keys of its secret, and the three requests written in turn. */
  ghost predicate Ends(prims: Primitives, ch: Choices, before: Link, t: Transcript, after: Link)
    requires Lawful(prims)
  {
    && t.first.ResPQ? && t.first.fingerprints != [] && t.inner.ServerDHInnerData? && FromBytesBe(t.inner.dhPrime) > 0
    && KeysInstalled(prims, before.client, after.client, SecretOf(ch, t.inner), ch.nonce, t.first.serverNonce)
    && after.incoming == t.rest3
    && after.outgoing == before.outgoing + Framed(EncodeBoxed(ReqPq(ch.nonce)))
                         + Framed(EncodeBoxed(SecondRequest(prims, ch, t.first)))
                         + Framed(EncodeBoxed(ThirdRequest(prims, ch, t.first.serverNonce, t.inner)))
  }

  lemma LastStep(prims: Primitives, ch: Choices, serverNonce: Int128, secret: nat, req: TlObject, ms: (Moment, Moment, Moment), link: Link)
    requires Lawful(prims) && link.client.crypto.None?
    ensures var (link', r) := AuthenticateEnd(prims, ch, serverNonce, secret, req, ms, link);
      && (r.Err? ==> link'.client == link.client)
      && (r.Ok? ==> exists a, rest :: Frames(req) && Holds(link.incoming, a, rest) && ThirdChecks(prims, ch, serverNonce, secret, a))
    ensures forall a, rest :: Frames(req) && Holds(link.incoming, a, rest) && ThirdChecks(prims, ch, serverNonce, secret, a) ==>
      AuthenticateEnd(prims, ch, serverNonce, secret, req, ms, link)
        == (Link(Authenticated(prims, link.client, ch.nonce, serverNonce, secret), rest,
                 link.outgoing + Framed(EncodeBoxed(req))), Ok(()))
  {
    hide Exchange, OnDhGen, ThirdChecks, Authenticated, Framed, EncodeBoxed, Holds;
    ClearExchange(prims, link, req, ms.2);
    var (link3, resp) := Exchange(prims, link, req, ms.2);
    if resp.Ok? { ThirdIff(prims, ch, serverNonce, secret, resp.value); }
    forall a, rest | Frames(req) && Holds(link.incoming, a, rest) && ThirdChecks(prims, ch, serverNonce, secret, a)
      ensures OnDhGen(prims, ch.nonce, serverNonce, secret, a).Ok?
    {
      ThirdIff(prims, ch, serverNonce, secret, a);
    }
  }

  /** The rest of a transcript, from the second answer on. */
  ghost predicate CompleteFrom(prims: Primitives, ch: Choices, serverNonce: Int128, incoming: bytes, t: Transcript)
    requires Lawful(prims)
  {
    && Holds(incoming, t.second, t.rest2) && SecondChecks(prims, ch, serverNonce, t.second, t.inner)
    && FromBytesBe(t.inner.dhPrime) > 0
    && Frames(ThirdRequest(prims, ch, serverNonce, t.inner)) && Holds(t.rest2, t.third, t.rest3)
    && ThirdChecks(prims, ch, serverNonce, SecretOf(ch, t.inner), t.third)
  }

  /** The link after the second and third exchange of a complete transcript. */
  function After(prims: Primitives, ch: Choices, serverNonce: Int128, req: TlObject, link: Link, t: Transcript): Link
    requires Lawful(prims) && t.inner.ServerDHInnerData? && FromBytesBe(t.inner.dhPrime) > 0
  {
    Link(Authenticated(prims, link.client, ch.nonce, serverNonce, SecretOf(ch, t.inner)), t.rest3,
         link.outgoing + Framed(EncodeBoxed(req))
         + Framed(EncodeBoxed(ThirdRequest(prims, ch, serverNonce, t.inner))))
  }

  lemma MiddleFails(prims: Primitives, ch: Choices, serverNonce: Int128, req: TlObject, ms: (Moment, Moment, Moment), link: Link)
    requires Lawful(prims) && link.client.crypto.None?
    ensures var (link', r) := AuthenticateDh(prims, ch, serverNonce, req, ms, link);
      && (r.Err? ==> link'.client == link.client)
      && (r.Ok? ==> Frames(req) && exists t :: CompleteFrom(prims, ch, serverNonce, link.incoming, t))
  {
    hide Exchange, OnServerDh, AuthenticateEnd, Holds, SecondChecks, ThirdChecks, ThirdRequest, SecretOf, Framed, EncodeBoxed, FromBytesBe, Frames;
    ClearExchange(prims, link, req, ms.1);
    var (link2, resp) := Exchange(prims, link, req, ms.1);
    if resp.Ok? {
      SecondIff(prims, ch, serverNonce, resp.value);
      var agreed := OnServerDh(prims, ch, serverNonce, resp.value);
      if agreed.Ok? {
        LastStep(prims, ch, serverNonce, agreed.value.0, agreed.value.1, ms, link2);
        var inner :| SecondChecks(prims, ch, serverNonce, resp.value, inner);
        if AuthenticateEnd(prims, ch, serverNonce, agreed.value.0, agreed.value.1, ms, link2).1.Ok? {
          var a, rest :| Frames(agreed.value.1) && Holds(link2.incoming, a, rest) && ThirdChecks(prims, ch, serverNonce, agreed.value.0, a);
          assert CompleteFrom(prims, ch, serverNonce, link.incoming,
            Transcript(GetDialogs, [], resp.value, inner, link2.incoming, a, rest));
        }
      }
    }
  }

  lemma SecondShape(prims: Primitives, ch: Choices, serverNonce: Int128, t: Transcript)
    requires Lawful(prims) && SecondChecks(prims, ch, serverNonce, t.second, t.inner)
    ensures t.inner.ServerDHInnerData?
  {
  }

  lemma MiddleSucceeds(prims: Primitives, ch: Choices, serverNonce: Int128, req: TlObject, ms: (Moment, Moment, Moment), link: Link, t: Transcript)
    requires Lawful(prims) && link.client.crypto.None? && Frames(req) && CompleteFrom(prims, ch, serverNonce, link.incoming, t)
    ensures t.inner.ServerDHInnerData?
    ensures AuthenticateDh(prims, ch, serverNonce, req, ms, link) == (After(prims, ch, serverNonce, req, link, t), Ok(()))
  {
    hide Exchange, OnServerDh, AuthenticateEnd, Holds, ThirdChecks, ThirdRequest, SecretOf, Framed, EncodeBoxed, FromBytesBe, Frames, Authenticated, SecondChecks;
    SecondShape(prims, ch, serverNonce, t);
    ClearExchange(prims, link, req, ms.1);
    SecondIff(prims, ch, serverNonce, t.second);
    var link2 := Link(link.client, t.rest2, link.outgoing + Framed(EncodeBoxed(req)));
    assert Exchange(prims, link, req, ms.1) == (link2, Ok(t.second));
    LastStep(prims, ch, serverNonce, SecretOf(ch, t.inner), ThirdRequest(prims, ch, serverNonce, t.inner), ms, link2);
  }

  lemma WholeFails(prims: Primitives, expected: i64, ch: Choices, ms: (Moment, Moment, Moment), link: Link)
    requires Lawful(prims) && link.client.crypto.None?
    ensures var (link', r) := Authenticate(prims, expected, ch, ms, link);
      && (r.Err? ==> link'.client == link.client)
      && (r.Ok? ==> exists t :: Complete(prims, expected, ch, link.incoming, t))
  {
    hide Exchange, OnResPQ, AuthenticateDh, Holds, FirstChecks, SecondRequest, CompleteFrom, Framed, EncodeBoxed, Frames;
    ClearExchange(prims, link, ReqPq(ch.nonce), ms.0);
    var (link1, resp) := Exchange(prims, link, ReqPq(ch.nonce), ms.0);
    if resp.Ok? {
      FirstIff(prims, expected, ch, resp.value);
      var req := OnResPQ(prims, expected, ch, resp.value);
      if req.Ok? {
        assert resp.value.ResPQ? by { FirstIsResPQ(expected, ch, resp.value); }
        MiddleFails(prims, ch, resp.value.serverNonce, req.value, ms, link1);
        if AuthenticateDh(prims, ch, resp.value.serverNonce, req.value, ms, link1).1.Ok? {
          var t :| CompleteFrom(prims, ch, resp.value.serverNonce, link1.incoming, t);
          CompleteJoins(prims, expected, ch, link.incoming, t.(first := resp.value, rest1 := link1.incoming), t);
        }
      }
    }
  }

  lemma FirstIsResPQ(expected: i64, ch: Choices, first: TlObject)
    requires FirstChecks(expected, ch, first)
    ensures first.ResPQ? && first.fingerprints != []
  {
  }

  lemma CompleteJoins(prims: Primitives, expected: i64, ch: Choices, incoming: bytes, t: Transcript, u: Transcript)
    requires Lawful(prims) && u == t.(first := u.first, rest1 := u.rest1)
    requires Frames(ReqPq(ch.nonce)) && Holds(incoming, t.first, t.rest1) && FirstChecks(expected, ch, t.first)
    requires Frames(SecondRequest(prims, ch, t.first)) && CompleteFrom(prims, ch, t.first.serverNonce, t.rest1, u)
    ensures Complete(prims, expected, ch, incoming, t)
  {
    hide Holds, FirstChecks, SecondChecks, ThirdChecks, SecondRequest, ThirdRequest, SecretOf, Frames, FromBytesBe;
  }

  lemma WholeSucceeds(prims: Primitives, expected: i64, ch: Choices, ms: (Moment, Moment, Moment), link: Link, t: Transcript)
    requires Lawful(prims) && link.client.crypto.None? && Complete(prims, expected, ch, link.incoming, t)
    ensures t.first.ResPQ? && t.first.fingerprints != [] && t.inner.ServerDHInnerData? && FromBytesBe(t.inner.dhPrime) > 0
    ensures var link1 := Link(link.client, t.rest1, link.outgoing + Framed(EncodeBoxed(ReqPq(ch.nonce))));
      Authenticate(prims, expected, ch, ms, link)
        == (After(prims, ch, t.first.serverNonce, SecondRequest(prims, ch, t.first), link1, t), Ok(()))
  {
    hide Exchange, OnResPQ, AuthenticateDh, Holds, FirstChecks, SecondChecks, ThirdChecks, SecondRequest, ThirdRequest, SecretOf, Framed, EncodeBoxed, FromBytesBe, Frames, After;
    FirstIsResPQ(expected, ch, t.first);
    ClearExchange(prims, link, ReqPq(ch.nonce), ms.0);
    FirstIff(prims, expected, ch, t.first);
    var link1 := Link(link.client, t.rest1, link.outgoing + Framed(EncodeBoxed(ReqPq(ch.nonce))));
    assert Exchange(prims, link, ReqPq(ch.nonce), ms.0) == (link1, Ok(t.first));
    MiddleSucceeds(prims, ch, t.first.serverNonce, SecondRequest(prims, ch, t.first), ms, link1, t);
  }

  lemma EndsAre(prims: Primitives, expected: i64, ch: Choices, link: Link, t: Transcript)
    requires Lawful(prims) && Complete(prims, expected, ch, link.incoming, t)
    ensures t.first.ResPQ? && t.first.fingerprints != [] && t.inner.ServerDHInnerData? && FromBytesBe(t.inner.dhPrime) > 0
    ensures var link1 := Link(link.client, t.rest1, link.outgoing + Framed(EncodeBoxed(ReqPq(ch.nonce))));
      Ends(prims, ch, link, t, After(prims, ch, t.first.serverNonce, SecondRequest(prims, ch, t.first), link1, t))
  {
    hide Holds, PassesMillerRabin, ThirdChecks, SecondRequest, ThirdRequest, SecretOf, Framed, EncodeBoxed, FromBytesBe, Frames, Authenticated, KeysInstalled;
    AuthenticatedKeys(prims, link.client, SecretOf(ch, t.inner), ch.nonce, t.first.serverNonce);
  }

  /** authenticate on a fresh session, whatever the bytes it reads: it succeeds if and only if they hold three
      answers that pass every check, and then the session holds the keys of their secret and the three requests
      were written; otherwise nothing of the session has changed. */
  lemma KeysOnlyAfterAllChecks(prims: Primitives, expected: i64, ch: Choices, ms: (Moment, Moment, Moment), link: Link)
    requires Lawful(prims) && link.client.crypto.None?
    ensures var (link', r) := Authenticate(prims, expected, ch, ms, link);
      && (r.Ok? <==> exists t :: Complete(prims, expected, ch, link.incoming, t))
      && (r.Err? ==> link'.client == link.client)
    ensures forall t :: Complete(prims, expected, ch, link.incoming, t) ==>
      Ends(prims, ch, link, t, Authenticate(prims, expected, ch, ms, link).0)
  {
    hide Authenticate, Complete, Ends, After;
    WholeFails(prims, expected, ch, ms, link);
    forall t | Complete(prims, expected, ch, link.incoming, t)
      ensures Authenticate(prims, expected, ch, ms, link).1.Ok?
      ensures Ends(prims, ch, link, t, Authenticate(prims, expected, ch, ms, link).0)
    {
      WholeSucceeds(prims, expected, ch, ms, link, t);
      EndsAre(prims, expected, ch, link, t);
    }
  }

  /** A session that already holds keys keeps them when authenticate fails. */
  lemma KeysKeptOnFailure(prims: Primitives, expected: i64, ch: Choices, ms: (Moment, Moment, Moment), link: Link)
    requires Lawful(prims) && link.client.crypto.Some?
    ensures var (link', r) := Authenticate(prims, expected, ch, ms, link);
      r.Err? ==> SameIdentity(link.client, link'.client)
  {
    hide Exchange, OnResPQ, OnServerDh, OnDhGen;
    var (link1, resp1) := Exchange(prims, link, ReqPq(ch.nonce), ms.0);
    ExchangeKeepsKeys(prims, link, ReqPq(ch.nonce), ms.0);
    if resp1.Ok? {
      var req := OnResPQ(prims, expected, ch, resp1.value);
      if req.Ok? {
        FirstIff(prims, expected, ch, resp1.value);
        ExchangeKeepsKeys(prims, link1, req.value, ms.1);
        var (link2, resp2) := Exchange(prims, link1, req.value, ms.1);
        if resp2.Ok? {
          var agreed := OnServerDh(prims, ch, resp1.value.serverNonce, resp2.value);
          if agreed.Ok? { ExchangeKeepsKeys(prims, link2, agreed.value.1, ms.2); }
        }
      }
    }
  }

  predicate SameIdentity(c: ClientState, c': ClientState) {
    && c.crypto.Some? && c'.crypto.Some? && SameKeys(c'.crypto.value, c.crypto.value)
    && c'.authKeyId == c.authKeyId && c'.authKey == c.authKey && c'.serverSalt == c.serverSalt
  }

  lemma SendKeepsKeys(prims: Primitives, c: ClientState, o: TlObject, now: nat, noise: Noise)
    requires Lawful(prims) && c.crypto.Some?
    ensures SameIdentity(c, ClientSend(prims, c, o, now, noise).0)
  {
    hide EncodeBoxed, Seal, EncodeHeader, EncodePacket;
  }

  lemma RecvKeepsKeys(prims: Primitives, c: ClientState, raw: bytes, now: nat)
    requires Lawful(prims) && c.crypto.Some?
    ensures SameIdentity(c, ClientRecv(prims, c, raw, now).0)
  {
    hide DecodeHeader, Parse, DecryptAndVerify, PacketBody, PacketKeyId, Wrap32;
  }

  lemma ExchangeKeepsKeys(prims: Primitives, link: Link, o: TlObject, m: Moment)
    requires Lawful(prims) && link.client.crypto.Some?
    ensures SameIdentity(link.client, Exchange(prims, link, o, m).0.client)
  {
    hide ClientSend, ClientRecv, DecodeFrame, EncodeBoxed;
    if PacketLength(link.client, o) < TWO_24 {
      SendKeepsKeys(prims, link.client, o, m.sendAt, m.noise);
      var frame := DecodeFrame(link.incoming);
      if frame.Frame? {
        RecvKeepsKeys(prims, ClientSend(prims, link.client, o, m.sendAt, m.noise).0, frame.payload, m.recvAt);
      }
    }
  }
}
