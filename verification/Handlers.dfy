/** The server's handshake handlers over their store (kosta-server/src/handlers.rs). */
module Handlers {
  import opened Wrappers
  import opened Bytes
  import opened TlTypes
  import opened TlIo
  import opened TlObjects
  import opened Crypto
  import opened DhChecks
  import opened Dh
  import opened Padding
  import opened ServerModel
  import opened Handshake
  import opened SessionCache
  import Server

  /** One turn of the prime search: the number read from the random bytes, and the bases of its test. */
  datatype Draw = Draw(number: nat, bases: Draws)

  function Candidate(number: nat): nat {
    if number < 2 then 3 else if number % 2 == 0 then number + 1 else number
  }

  ghost predicate Accepts(d: Draw) { PassesMillerRabin(Candidate(d.number), d.bases) }

  /** The random source: draw after draw, without end. Numbers that pass the test keep turning up, and not
      always the same one; otherwise the source's loops would not end. */
  type Source = nat -> Draw

  ghost predicate Found(source: Source, start: nat, other: Option<nat>, i: nat) {
    start <= i && Accepts(source(i)) && other != Some(Candidate(source(i).number))
  }

  ghost predicate Findable(source: Source, start: nat, other: Option<nat>) {
    exists i: nat :: Found(source, start, other, i)
  }

  ghost predicate Inexhaustible(source: Source) {
    forall start: nat, other: Option<nat> :: Findable(source, start, other)
  }

  /** The first draw from start on that is found. */
  ghost predicate FirstFound(source: Source, start: nat, other: Option<nat>, i: nat) {
    Found(source, start, other, i) && forall k :: start <= k < i ==> !Found(source, start, other, k)
  }

  /** The search loop: the first candidate that passes. */
  method GenerateRandomPrime(source: Source, start: nat) returns (p: nat, next: nat)
    requires Inexhaustible(source)
    ensures next > 0 && FirstFound(source, start, None, next - 1) && p == Candidate(source(next - 1).number)
  {
    next := start;
    assert Findable(source, start, None);
    ghost var end: nat :| Found(source, start, None, end);
    while true
      invariant start <= next <= end
      invariant forall k :: start <= k < next ==> !Found(source, start, None, k)
      decreases end - next
    {
      var number := source(next).number;
      var num := if number < 2 then 3 else if number % 2 == 0 then number + 1 else number;
      var prime := IsPrimeTest(num, source(next).bases);
      next := next + 1;
      if prime { return num, next; }
    }
  }

  /** The candidate is three for numbers below two, and otherwise the least odd number that is not smaller. */
  lemma CandidateIs(number: nat)
    ensures number < 2 ==> Candidate(number) == 3
    ensures number >= 2 ==> Candidate(number) % 2 == 1 && number <= Candidate(number) <= number + 1
  {
  }

  lemma CandidateOdd(number: nat)
    requires number < TWO_32
    ensures Candidate(number) % 2 == 1 && 3 <= Candidate(number) < TWO_32
  {
  }

  /** What the search passes over is no second factor either. */
  lemma NoneSkipped(source: Source, start: nat, from: nat, p: nat, i: nat)
    requires FirstFound(source, from, None, i)
    ensures forall k :: from <= k < i ==> !Found(source, start, Some(p), k)
  {
    hide PassesMillerRabin, Candidate;
    forall k | from <= k < i ensures !Found(source, start, Some(p), k) { assert !Found(source, from, None, k); }
  }

  /** A second factor, drawn until it differs from the first. */
  method GenerateOtherPrime(source: Source, start: nat, p: nat) returns (q: nat, ghost last: nat)
    requires Inexhaustible(source)
    ensures FirstFound(source, start, Some(p), last) && q == Candidate(source(last).number)
  {
    hide PassesMillerRabin, Candidate;
    assert Findable(source, start, Some(p));
    ghost var end: nat :| Found(source, start, Some(p), end);
    var next;
    q, next := GenerateRandomPrime(source, start);
    NoneSkipped(source, start, start, p, next - 1);
    while q == p
      invariant start < next && Accepts(source(next - 1)) && q == Candidate(source(next - 1).number)
      invariant forall k :: start <= k < next - 1 ==> !Found(source, start, Some(p), k)
      decreases end + 1 - next
    {
      ghost var from := next;
      q, next := GenerateRandomPrime(source, next);
      NoneSkipped(source, start, from, p, next - 1);
    }
    last := next - 1;
  }

  ghost predicate AnswersWith(resp: TlObject, req: TlObject, serverNonce: Int128, d: Draw, e: Draw, fingerprint: i64)
    requires req.ReqPq?
  {
    && (d.number >= 2 ==> d.number <= Candidate(d.number) <= d.number + 1)
    && (e.number >= 2 ==> e.number <= Candidate(e.number) <= e.number + 1)
    && Candidate(d.number) % 2 == Candidate(e.number) % 2 == 1
    && Candidate(d.number) < TWO_32 && Candidate(e.number) < TWO_32
    && resp == ResPQOf(req.nonce, serverNonce, Candidate(d.number), Candidate(e.number), fingerprint)
  }

  /** The first request is always answered: with the first two different numbers drawn that pass the
      primality test, both odd and below 2^32, and with their product. */
  method HandleReqPq(req: TlObject, serverNonce: Int128, source: Source, fingerprint: i64) returns (resp: TlObject)
    requires req.ReqPq? && Inexhaustible(source) && forall n: nat :: source(n).number < TWO_32
    ensures exists i: nat, j: nat ::
      && FirstFound(source, 0, None, i) && FirstFound(source, i + 1, Some(Candidate(source(i).number)), j)
      && AnswersWith(resp, req, serverNonce, source(i), source(j), fingerprint)
  {
    hide PassesMillerRabin, ToBytesBe, Candidate, Found, FirstFound, Inexhaustible;
    var p, next := GenerateRandomPrime(source, 0);
    var q, last := GenerateOtherPrime(source, next, p);
    CandidateIs(source(next - 1).number);
    CandidateIs(source(last).number);
    CandidateOdd(source(next - 1).number);
    CandidateOdd(source(last).number);
    resp := ResPQ(req.nonce, serverNonce, ToBytesBe(p * q), ToBytesBe(p), ToBytesBe(q), [fingerprint]);
    ghost var i := next - 1;
    assert next == i + 1 && AnswersWith(resp, req, serverNonce, source(i), source(last), fingerprint);
  }

  method DecryptObject(prims: Primitives, key: (bytes, bytes), data: bytes) returns (r: Result<TlObject, HandlerError>)
    ensures r == OpenInner(prims, key, data)
  {
    var decrypted := DecryptInner(prims, key, data);
    if decrypted.None? { return Err(NotDecrypted); }
    var reader := new Reader(decrypted.value);
    var o := ReadBoxed(reader);
    r := if o.Ok? then Ok(o.value) else Err(Unparsed(o.error));
  }

  method SealObject(prims: Primitives, key: (bytes, bytes), o: TlObject) returns (data: bytes, ghost padding: bytes)
    ensures Pads(padding, EncodeBoxed(o)) && data == EncryptInner(prims, key, EncodeBoxed(o) + padding)
  {
    var writer := new Writer();
    WriteBoxed(o, writer);
    assert writer.out == EncodeBoxed(o);
    var padded := Pad(writer.out);
    padding := padded[|writer.out|..];
    assert padded == writer.out + padding;
    data := EncryptInner(prims, key, padded);
  }

  class HandshakeStore {
    var entries: Store

    constructor ()
      ensures entries == map[]
    {
      entries := map[];
    }

    method Clean(now: nat)
      modifies this
      ensures entries == Cleaned(old(entries), now)
    {
      entries := map k | k in entries && now - entries[k].since < TIMEOUT_NS :: entries[k];
    }

    method HandleReqDhParams(prims: Primitives, prime: nat, req: TlObject, privateKey: nat, now: nat)
        returns (r: Result<TlObject, HandlerError>, ghost padding: bytes)
      requires Lawful(prims) && prime > 0 && req.ReqDHParams?
      modifies this
      ensures match AnswerReqDh(prims, prime, old(entries), req, privateKey, now, padding)
        case Ok(done) => r == Ok(done.1) && entries == done.0
          && Pads(padding, EncodeBoxed(ServerInner(req.nonce, req.serverNonce, prime, privateKey % prime)))
        case Err(e) => r == Err(e) && entries == old(entries)
    {
      hide EncodeBoxed, EncodeBytes, ToBytesBe, OpenInner, ComputePublicKey;
      padding := [];
      var o := DecryptObject(prims, TmpKey(prims, req.nonce, req.serverNonce), req.encryptedData);
      if o.Err? { return Err(o.error), padding; }
      if !o.value.PqInnerData? { return Err(WrongInner), padding; }
      var inner := o.value;
      if inner.nonce != req.nonce || inner.serverNonce != req.serverNonce { return Err(WrongNonces), padding; }
      var a := privateKey % prime;
      var gA := ComputePublicKey(G, a, prime);
      entries := entries[req.nonce + req.serverNonce := Pending(inner.newNonce, ToBytesBe(a), now)];
      var answer;
      answer, padding := SealObject(prims, TmpKey(prims, inner.newNonce, req.serverNonce),
        ServerDHInnerData(req.nonce, req.serverNonce, G, ToBytesBe(prime), ToBytesBe(gA), 0));
      var toSign := new Writer();
      toSign.WriteAll(req.nonce);
      toSign.WriteAll(req.serverNonce);
      toSign.WriteAll(EncodeBytes(answer));
      assert toSign.out == SignedData(req.nonce, req.serverNonce, answer);
      r := Ok(ServerDHParamsOk(req.nonce, req.serverNonce, answer, prims.sign(toSign.out)));
    }

    method HandleSetClientDhParams(prims: Primitives, prime: nat, req: TlObject, now: nat, cache: Cache)
        returns (r: Result<TlObject, HandlerError>)
      requires Lawful(prims) && prime > 0 && req.SetClientDHParams? && cache.Valid()
      modifies this, cache`entries, cache.db
      ensures cache.Valid() && fresh(cache.Shared() - old(cache.Shared()))
      ensures entries == AnswerSetClientDh(prims, prime, old(entries), req, now).0
      ensures match AnswerSetClientDh(prims, prime, old(entries), req, now).1
        case Ok(done) => r == Ok(done.1)
          && cache.View() == ApplyHandled(cache.capacity, old(cache.View()), None, Established(done.0, done.1))
        case Err(e) => r == Err(e) && cache.View() == old(cache.View())
    {
      hide ApplyHandled, FinishedSession;
      Clean(now);
      var key := req.nonce + req.serverNonce;
      if key !in entries { return Err(NoHandshake); }
      var finished := FinishSession(prims, prime, entries[key], req);
      if finished.Err? { return Err(finished.error); }
      Server.HandleSession(cache, None, Established(finished.value.0, finished.value.1));
      entries := entries - {key};
      r := Ok(finished.value.1);
    }
  }

  /** The secret, the session and the last answer, from the remembered exponent and the request. */
  method FinishSession(prims: Primitives, prime: nat, pending: Pending, req: TlObject)
      returns (r: Result<(SessionData, TlObject), HandlerError>)
    requires Lawful(prims) && prime > 0 && req.SetClientDHParams?
    ensures r == FinishedSession(prims, prime, pending, req)
  {
    hide NewSession;
    var a := FromBytesBe(pending.a);
    var o := DecryptObject(prims, TmpKey(prims, pending.newNonce, req.serverNonce), req.encryptedData);
    if o.Err? { return Err(o.error); }
    if !o.value.ClientDHInnerData? { return Err(WrongInner); }
    var inner := o.value;
    if inner.nonce != req.nonce || inner.serverNonce != req.serverNonce { return Err(WrongNonces); }
    var gB := FromBytesBe(inner.gB);
    var valid := ValidatePublicValue(gB, prime);
    if valid.Err? { return Err(BadPublicValue(valid.error)); }
    var secret := ComputeSharedSecret(gB, a, prime);
    var session := MakeSession(prims, req.nonce, req.serverNonce, pending.newNonce, secret);
    r := Ok((session, DHGenOk(req.nonce, req.serverNonce, prims.sha1(ToBytesLe(secret))[..16])));
  }

  method MakeSession(prims: Primitives, nonce: Int128, serverNonce: Int128, newNonce: Int256, secret: nat)
      returns (session: SessionData)
    requires Lawful(prims)
    ensures session == NewSession(prims, nonce, serverNonce, newNonce, secret)
  {
    var key := AuthKeyFromSharedSecret(prims, secret, nonce, serverNonce);
    var crypto := NewSessionCrypto(prims, ToBytesLe(secret), nonce, serverNonce);
    session := SessionData(key[..], AuthKeyId(prims, secret), 0, 0, nonce, serverNonce, newNonce, crypto, -1, 0, 0, 0, -1, 0);
  }
}
