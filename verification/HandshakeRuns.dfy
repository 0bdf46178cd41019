/** The server's store of pending exchanges over whole runs of its handlers (kosta-server/src/handlers.rs): which
    exchange a request finishes, and that it does so at most once and within a minute. */
module HandshakeRuns {
  import opened Wrappers
  import opened Arithmetic
  import opened Bytes
  import opened TlTypes
  import opened TlObjects
  import opened Crypto
  import opened DhChecks
  import opened Dh
  import opened ServerModel
  import opened Handshake
  import opened HandshakeSafety

  // ---------- one request ----------

  /** The second request is answered exactly when its inner data opens under the key of its nonces, is of the right
      kind and repeats them; the answer carries g^a of the drawn exponent, sealed for the client's new nonce, and
      a signature over what the client sees. */
  lemma AskedIff(prims: Primitives, prime: nat, store: Store, req: TlObject, privateKey: nat, now: nat, padding: bytes)
    requires Lawful(prims) && prime > 0 && req.ReqDHParams?
    ensures var r := AnswerReqDh(prims, prime, store, req, privateKey, now, padding);
      && (r.Ok? <==> exists inner :: AskChecks(prims, req, inner))
      && (forall inner :: AskChecks(prims, req, inner) ==>
            r == Ok((store[req.nonce + req.serverNonce := Pending(inner.newNonce, ToBytesBe(privateKey % prime), now)],
                     AskAnswer(prims, prime, req, inner, privateKey, padding))))
  {
    hide EncodeBoxed, EncodeBytes, ToBytesBe, OpenInner, Opens, TmpKey, Pow;
    OpenedIs(prims, req.nonce, req.serverNonce, req.encryptedData);
    var contents := OpenInner(prims, TmpKey(prims, req.nonce, req.serverNonce), req.encryptedData);
    if AnswerReqDh(prims, prime, store, req, privateKey, now, padding).Ok? { assert AskChecks(prims, req, contents.value); }
    forall inner | AskChecks(prims, req, inner)
      ensures AnswerReqDh(prims, prime, store, req, privateKey, now, padding)
           == Ok((store[req.nonce + req.serverNonce := Pending(inner.newNonce, ToBytesBe(privateKey % prime), now)],
                  AskAnswer(prims, prime, req, inner, privateKey, padding)))
    {
      AnswerIs(prims, prime, req, inner, privateKey, padding);
    }
  }

  ghost predicate AskChecks(prims: Primitives, req: TlObject, inner: TlObject)
    requires Lawful(prims) && req.ReqDHParams?
  {
    && Opens(prims, req.nonce, req.serverNonce, req.encryptedData, inner)
    && inner.PqInnerData? && inner.nonce == req.nonce && inner.serverNonce == req.serverNonce
  }

  function AskAnswer(prims: Primitives, prime: nat, req: TlObject, inner: TlObject, privateKey: nat, padding: bytes): TlObject
    requires Lawful(prims) && prime > 0 && req.ReqDHParams? && inner.PqInnerData?
  {
    var sealed := SealFor(prims, inner.newNonce, req.serverNonce,
      ServerDHInnerData(req.nonce, req.serverNonce, 2, ToBytesBe(prime), ToBytesBe(Pow(2, privateKey % prime) % prime), 0), padding);
    ServerDHParamsOk(req.nonce, req.serverNonce, sealed, prims.sign(req.nonce + req.serverNonce + EncodeBytes(sealed)))
  }

  lemma AnswerIs(prims: Primitives, prime: nat, req: TlObject, inner: TlObject, privateKey: nat, padding: bytes)
    requires Lawful(prims) && prime > 0 && req.ReqDHParams? && inner.PqInnerData?
    ensures var answer := EncryptInner(prims, TmpKey(prims, inner.newNonce, req.serverNonce),
        EncodeBoxed(ServerInner(req.nonce, req.serverNonce, prime, privateKey % prime)) + padding);
      ServerDHParamsOk(req.nonce, req.serverNonce, answer, prims.sign(SignedData(req.nonce, req.serverNonce, answer)))
        == AskAnswer(prims, prime, req, inner, privateKey, padding)
  {
    hide EncodeBoxed, EncodeBytes, ToBytesBe, Pow;
  }

  /** The third request, on a known exchange: its inner data opens under the key of the new nonce, is of the right
      kind, repeats both nonces, and its public value lies strictly between 1 and prime - 1. */
  ghost predicate FinishChecks(prims: Primitives, prime: nat, pending: Pending, req: TlObject, inner: TlObject)
    requires Lawful(prims) && req.SetClientDHParams?
  {
    && Opens(prims, pending.newNonce, req.serverNonce, req.encryptedData, inner)
    && inner.ClientDHInnerData? && inner.nonce == req.nonce && inner.serverNonce == req.serverNonce
    && 1 < FromBytesBe(inner.gB) < prime - 1
  }

  /** Then the session holds the keys of the secret, and the answer proves that the server knows it. */
  lemma FinishedIff(prims: Primitives, prime: nat, pending: Pending, req: TlObject)
    requires Lawful(prims) && prime > 0 && req.SetClientDHParams?
    ensures var r := FinishedSession(prims, prime, pending, req);
      && (r.Ok? <==> exists inner :: FinishChecks(prims, prime, pending, req, inner))
      && (forall inner :: FinishChecks(prims, prime, pending, req, inner) ==>
            var secret := Pow(FromBytesBe(inner.gB), FromBytesBe(pending.a)) % prime;
            && r.Ok? && KeysOf(prims, secret, req.nonce, req.serverNonce, r.value.0.authKeyId, r.value.0.authKey, r.value.0.crypto)
            && r.value.0.newNonce == pending.newNonce
            && r.value.1 == DHGenOk(req.nonce, req.serverNonce, prims.sha1(ToBytesLe(secret))[..16]))
  {
    hide ToBytesLe, FromBytesBe, OpenInner, Opens, TmpKey, Pow, KeysOf, NewSession;
    OpenedIs(prims, pending.newNonce, req.serverNonce, req.encryptedData);
    var contents := OpenInner(prims, TmpKey(prims, pending.newNonce, req.serverNonce), req.encryptedData);
    if FinishedSession(prims, prime, pending, req).Ok? { assert FinishChecks(prims, prime, pending, req, contents.value); }
    forall inner | FinishChecks(prims, prime, pending, req, inner)
      ensures var secret := Pow(FromBytesBe(inner.gB), FromBytesBe(pending.a)) % prime;
        var r := FinishedSession(prims, prime, pending, req);
        && r.Ok? && KeysOf(prims, secret, req.nonce, req.serverNonce, r.value.0.authKeyId, r.value.0.authKey, r.value.0.crypto)
        && r.value.0.newNonce == pending.newNonce
        && r.value.1 == DHGenOk(req.nonce, req.serverNonce, prims.sha1(ToBytesLe(secret))[..16])
    {
      SessionKeys(prims, Pow(FromBytesBe(inner.gB), FromBytesBe(pending.a)) % prime, req.nonce, req.serverNonce, pending.newNonce);
    }
  }

  /** Which check the server reports. */
  lemma AskErrors(prims: Primitives, prime: nat, store: Store, req: TlObject, privateKey: nat, now: nat, padding: bytes)
    requires Lawful(prims) && prime > 0 && req.ReqDHParams?
    ensures var r := AnswerReqDh(prims, prime, store, req, privateKey, now, padding);
      var plain := prims.gcmOpen(prims.sha256(req.nonce + req.serverNonce), prims.sha256(req.serverNonce + req.nonce)[..12], req.encryptedData);
      if plain.None? then r == Err(NotDecrypted)
      else if DecodeBoxed(plain.value).Bad? then r == Err(Unparsed(DecodeBoxed(plain.value).error))
      else
        var inner := DecodeBoxed(plain.value).value;
        && (r == Err(WrongInner) <==> !inner.PqInnerData?)
        && (r == Err(WrongNonces) <==> inner.PqInnerData? && (inner.nonce != req.nonce || inner.serverNonce != req.serverNonce))
  {
    hide EncodeBoxed, EncodeBytes, DecodeBoxed, ToBytesBe, Pow;
  }

  lemma FinishErrors(prims: Primitives, prime: nat, store: Store, req: TlObject, now: nat)
    requires Lawful(prims) && prime > 0 && req.SetClientDHParams?
    ensures var r := AnswerSetClientDh(prims, prime, store, req, now).1;
      var pending := Lookup(store, req.nonce + req.serverNonce);
      if !Recent(pending, now) then r == Err(NoHandshake)
      else
        var plain := prims.gcmOpen(prims.sha256(pending.value.newNonce + req.serverNonce),
                                   prims.sha256(req.serverNonce + pending.value.newNonce)[..12], req.encryptedData);
        if plain.None? then r == Err(NotDecrypted)
        else if DecodeBoxed(plain.value).Bad? then r == Err(Unparsed(DecodeBoxed(plain.value).error))
        else
          var inner := DecodeBoxed(plain.value).value;
          && (r == Err(WrongInner) <==> !inner.ClientDHInnerData?)
          && (inner.ClientDHInnerData? ==>
                var nonces := inner.nonce == req.nonce && inner.serverNonce == req.serverNonce;
                && (r == Err(WrongNonces) <==> !nonces)
                && (r == Err(BadPublicValue(PublicValueOutOfRange)) <==> nonces && !(1 < FromBytesBe(inner.gB) < prime - 1)))
  {
    hide DecodeBoxed, FromBytesBe, ToBytesLe, NewSession, ComputeSharedSecret;
    CleanedIs(store, now, req.nonce + req.serverNonce);
  }

  // ---------- runs ----------

  datatype Call =
    | Ask(req: TlObject, privateKey: nat, now: nat, padding: bytes)      // the second request
    | Finish(req: TlObject, now: nat)                                    // the third

  predicate WellFormed(call: Call) {
    match call
    case Ask(req, _, _, _) => req.ReqDHParams?
    case Finish(req, _) => req.SetClientDHParams?
  }

  /** The nonces that name an exchange. */
  function KeyOf(call: Call): bytes
    requires WellFormed(call)
  {
    call.req.nonce + call.req.serverNonce
  }

  function StepStore(prims: Primitives, prime: nat, store: Store, call: Call): Store
    requires Lawful(prims) && prime > 0 && WellFormed(call)
  {
    match call
    case Ask(req, privateKey, now, padding) =>
      (match AnswerReqDh(prims, prime, store, req, privateKey, now, padding) case Ok(done) => done.0 case Err(_) => store)
    case Finish(req, now) => AnswerSetClientDh(prims, prime, store, req, now).0
  }

  predicate AllWellFormed(calls: seq<Call>) { forall i :: 0 <= i < |calls| ==> WellFormed(calls[i]) }

  /** The clock of the handlers does not run backwards. */
  ghost predicate ClockRuns(calls: seq<Call>) {
    forall i, j :: 0 <= i < j < |calls| ==> calls[i].now <= calls[j].now
  }

  function StoreAfter(prims: Primitives, prime: nat, calls: seq<Call>): Store
    requires Lawful(prims) && prime > 0 && AllWellFormed(calls)
  {
    if calls == [] then map[]
    else StepStore(prims, prime, StoreAfter(prims, prime, calls[..|calls| - 1]), calls[|calls| - 1])
  }

  /** The last call of a run establishes a session. */
  predicate Establishes(prims: Primitives, prime: nat, before: seq<Call>, call: Call)
    requires Lawful(prims) && prime > 0 && AllWellFormed(before) && WellFormed(call)
  {
    call.Finish? && AnswerSetClientDh(prims, prime, StoreAfter(prims, prime, before), call.req, call.now).1.Ok?
  }

  /** The exchange under a key that was asked for and not finished since, by the history alone. */
  ghost function Open(prims: Primitives, prime: nat, calls: seq<Call>, k: bytes): Option<Pending>
    requires Lawful(prims) && prime > 0 && AllWellFormed(calls)
  {
    if calls == [] then None
    else
      var before, last := calls[..|calls| - 1], calls[|calls| - 1];
      if KeyOf(last) != k then Open(prims, prime, before, k)
      else if last.Ask? then
        (if exists inner :: AskChecks(prims, last.req, inner) then
           var inner :| AskChecks(prims, last.req, inner);
           Some(Pending(inner.newNonce, ToBytesBe(last.privateKey % prime), last.now))
         else Open(prims, prime, before, k))
      else if Establishes(prims, prime, before, last) then None
      else Open(prims, prime, before, k)
  }

  predicate Recent(p: Option<Pending>, now: nat) { p.Some? && now - p.value.since < 60_000_000_000 }

  function Lookup(store: Store, k: bytes): Option<Pending> { if k in store then Some(store[k]) else None }

  lemma CleanedIs(store: Store, now: nat, k: bytes)
    ensures Lookup(Cleaned(store, now), k) == if Recent(Lookup(store, k), now) then Lookup(store, k) else None
  {
  }

  lemma StepLookup(prims: Primitives, prime: nat, store: Store, call: Call, k: bytes)
    requires Lawful(prims) && prime > 0 && WellFormed(call)
    ensures var store' := StepStore(prims, prime, store, call);
      if call.Ask? then
        (if KeyOf(call) == k && exists inner :: AskChecks(prims, call.req, inner)
         then forall inner :: AskChecks(prims, call.req, inner) ==>
                Lookup(store', k) == Some(Pending(inner.newNonce, ToBytesBe(call.privateKey % prime), call.now))
         else Lookup(store', k) == Lookup(store, k))
      else
        Lookup(store', k) ==
          if (KeyOf(call) == k && AnswerSetClientDh(prims, prime, store, call.req, call.now).1.Ok?) then None
          else if Recent(Lookup(store, k), call.now) then Lookup(store, k) else None
  {
    hide AnswerReqDh, FinishedSession, AskChecks, ToBytesBe;
    match call
    case Ask(req, privateKey, now, padding) => AskedIff(prims, prime, store, req, privateKey, now, padding);
    case Finish(req, now) => CleanedIs(store, now, k);
  }

  /** What the store still knows at any time is what the history says, as far as it is less than a minute old. */
  lemma {:induction false} StoreIsHistory(prims: Primitives, prime: nat, calls: seq<Call>, k: bytes, now: nat)
    requires Lawful(prims) && prime > 0 && AllWellFormed(calls) && ClockRuns(calls)
    requires calls != [] ==> calls[|calls| - 1].now <= now
    ensures Lookup(Cleaned(StoreAfter(prims, prime, calls), now), k)
         == if Recent(Open(prims, prime, calls, k), now) then Open(prims, prime, calls, k) else None
  {
    CleanedIs(StoreAfter(prims, prime, calls), now, k);
    if calls != [] {
      hide StepStore, AnswerSetClientDh, AskChecks, ToBytesBe, Cleaned;
      var before, last := calls[..|calls| - 1], calls[|calls| - 1];
      var store := StoreAfter(prims, prime, before);
      StoreIsHistory(prims, prime, before, k, now);
      CleanedIs(store, now, k);
      StepLookup(prims, prime, store, last, k);
    }
  }

  /** In every run, a third request establishes a session if and only if, by the history, its exchange was asked
      for less than a minute ago and not finished since, and its inner data passes the checks. */
  lemma EstablishesIff(prims: Primitives, prime: nat, before: seq<Call>, call: Call)
    requires Lawful(prims) && prime > 0 && AllWellFormed(before) && ClockRuns(before) && WellFormed(call) && call.Finish?
    requires before != [] ==> before[|before| - 1].now <= call.now
    ensures var open := Open(prims, prime, before, KeyOf(call));
      Establishes(prims, prime, before, call) <==>
        && open.Some? && call.now - open.value.since < 60_000_000_000
        && exists inner :: FinishChecks(prims, prime, open.value, call.req, inner)
  {
    hide FinishedSession, FinishChecks, Open, StoreAfter;
    StoreIsHistory(prims, prime, before, KeyOf(call), call.now);
    var open := Open(prims, prime, before, KeyOf(call));
    if open.Some? { FinishedIff(prims, prime, open.value, call.req); }
  }

  /** Once finished, an exchange stays finished until it is asked for again. */
  lemma {:induction false} OpenNeedsAsk(prims: Primitives, prime: nat, calls: seq<Call>, i: nat)
    requires Lawful(prims) && prime > 0 && AllWellFormed(calls) && i < |calls|
    requires Establishes(prims, prime, calls[..i], calls[i]) && Open(prims, prime, calls, KeyOf(calls[i])).Some?
    ensures exists m :: i < m < |calls| && calls[m].Ask? && KeyOf(calls[m]) == KeyOf(calls[i])
  {
    hide AskChecks, ToBytesBe;
    var before, last := calls[..|calls| - 1], calls[|calls| - 1];
    if i < |calls| - 1 && !(last.Ask? && KeyOf(last) == KeyOf(calls[i])) {
      assert before[..i] == calls[..i];
      OpenNeedsAsk(prims, prime, before, i);
    }
  }

  /** No exchange is finished twice: between two third requests that establish sessions under the same nonces lies
      a second request under them. */
  lemma FinishedOnce(prims: Primitives, prime: nat, calls: seq<Call>, i: nat, j: nat)
    requires Lawful(prims) && prime > 0 && AllWellFormed(calls) && ClockRuns(calls) && i < j < |calls|
    requires Establishes(prims, prime, calls[..i], calls[i]) && Establishes(prims, prime, calls[..j], calls[j])
    requires KeyOf(calls[i]) == KeyOf(calls[j])
    ensures exists m :: i < m < j && calls[m].Ask? && KeyOf(calls[m]) == KeyOf(calls[i])
  {
    hide Open, FinishChecks, Establishes;
    var before := calls[..j];
    assert before[..i] == calls[..i] && before[i] == calls[i];
    EstablishesFinish(prims, prime, before, calls[j]);
    EstablishesIff(prims, prime, before, calls[j]);
    OpenNeedsAsk(prims, prime, before, i);
    var m :| i < m < |before| && before[m].Ask? && KeyOf(before[m]) == KeyOf(before[i]);
    assert calls[m] == before[m];
  }

  lemma EstablishesFinish(prims: Primitives, prime: nat, before: seq<Call>, call: Call)
    requires Lawful(prims) && prime > 0 && AllWellFormed(before) && WellFormed(call)
    requires Establishes(prims, prime, before, call)
    ensures call.Finish?
  {
  }
}
