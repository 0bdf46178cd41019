# KoSta, modelled and verified in Dafny

KoSta is a messenger protocol of the MTProto kind. A client and a server agree on keys by a
Diffie-Hellman exchange (`authenticate` and the three handshake handlers), then exchange sealed messages
that carry a clock-based message id and a sequence number. The server keeps each session in a row of a
table, behind a write-through LRU cache that may evict it at any moment.

The project has four layers.

- Values and codecs: machine integers and byte strings (`Bytes`), TL serialisation (`TlTypes`, `TlIo`,
  `TlObjects`, `TlLengths`; `TlWire` spells the format out byte for byte), random padding (`Padding`), Abridged framing and the in-memory transport
  (`Abridged`), message ids (`MsgId`), sealing and packets (`Crypto`).
- The session protocol. The server: `ServerModel` gives one pass of the client loop as a function of the
  cache and the table, `SessionCache` and `Server` are the loop itself, statement by statement over mutable
  objects, proved equal to that function. `ServerInvariant` says what every operation keeps, `ServerRuns`
  draws the safety theorems for whole runs, `RecvCounter` follows the receive counter in cache and table.
  `FrameChecks` reads off the bytes of a frame what a pass does with it and when it ends the connection.
  `Recency` and `Residency` say how long a session stays cached. `Refinement` and `CacheRuns` compare the cache with an unbounded map, frame by frame and over whole runs.
  The client: `ClientModel` and the class of `ClientSession`. `EndToEnd` joins both ends by two channels that
  may lose packets, `AnswerDirection` adds the way back, `Lockstep` is about channels that lose nothing.
  `ProtocolFrames` shows that what the ends send survives framing, and `ByteStreams` carries the results over
  from channels of packets to streams of bytes.
- The key exchange: `Handshake` (functions), `Handlers` (the server's store and handlers), `ClientSession`
  (`Authenticate`), `HandshakeAgreement` (both ends agree, and start the session protocol in step),
  `HandshakeSafety` (what the client has checked by the time it holds keys, whatever it was sent) and
  `HandshakeRuns` (each exchange is finished at most once and in time).
- Stand-alone algorithms: Miller-Rabin and the number theory it rests on (`Arithmetic`, `NumberTheory`,
  `DhChecks`), factoring (`Factor`), Diffie-Hellman (`Dh`), AES-IGE chaining (`Ige`), the sliding-window
  rate limiter (`RateLimiter`).

Main results: `Lockstep.EndsInLockstep` and, over byte streams, `ByteStreams.StreamsInLockstep`;
`EndToEnd.DeadDirection`, `AnswerDirection.DeadAnswers` and `AnswerDirection.LiveAnswers`;
`ServerRuns.AcceptedInOrder`, `ServerRuns.NoncesNeverReused`, `RecvCounter.RunCounters`;
`CacheRuns.AlikeIffUndisputed` with `Refinement.DivergesIffForgottenReplay` and
`CacheRuns.ShownOnceIsInvisible`; `HandshakeAgreement.EndsHoldTheSameKeys` with
`HandshakeAgreement.ExchangeStartsSession`, `HandshakeSafety.KeysOnlyAfterAllChecks`,
`HandshakeRuns.EstablishesIff` and `HandshakeRuns.FinishedOnce`; `FrameChecks.StepJudges`,
`FrameChecks.StepCloses`, `Residency.CachedIffFewOthers`; `TlObjects.BoxedRoundTrip`, `TlWire.WireFormat`, `ProtocolFrames.ClientFramesSurvive`
and `ProtocolFrames.ServerFramesSurvive`, `Abridged.StreamIsFaithful`; `DhChecks.PassesAlwaysIffPrime` and
`DhChecks.SurvivesIff`, `Factor.FactorPq`, `RateLimiter.RefusedIffWindowFull`, `RateLimiter.SlidingWindowBound`, `Ige.DecryptUndoesEncrypt`, `ClientModel.ReceiveSafety`.

Properties that do not hold as one might expect, with the exact condition under which they do:

- Framing loses a payload of 127 bytes (`Abridged.FrameRoundTrip`: a payload of less than 2^24 bytes comes
  back if and only if its length is not 127 and at most 1 MiB). So a sealed object of 75 bytes and an object
  of 127 bytes in the clear are lost (`ProtocolFrames.SentSurvivesIff`). None that the protocol sends has
  these lengths; objects of other sizes do (`ProtocolFrames.OtherSizesDoNotSurvive`), and so does a list of
  dialogs sent in the clear (`ProtocolFrames.ClearDialogsDoNotSurvive`).
- The LRU cache is not transparent. Over a whole run it accepts, hands over and answers what an unbounded map
  would if and only if no frame comes that is next in sequence and in time and whose id only one of the two
  remembers (`CacheRuns.AlikeIffUndisputed`). While no session has filled its set of 1000 recent ids, these
  are exactly the replays of an id that an eviction has forgotten (`CacheRuns.AlikeIffNoReplayAdmitted`,
  `CacheRuns.RememberedForAThousand`). There is no such frame if no session is shown one message id twice
  (`CacheRuns.ShownOnceIsInvisible`), and there is one in some run for every capacity
  (`CacheRuns.SomeRunDiffers`).
- The persisted receive counter falls behind the one in the cache. It is what it was at the last answered
  frame, and the counter in the cache is ahead of it by the frames accepted since then or since the session
  was last evicted (`RecvCounter.RunCounters`). After an accepted frame the two agree if and only if the
  frame was answered, or the lag has just come to 2^32 (`RecvCounter.AgreesIffAnswered`).
- A request that is lost or turned down stops all later requests for good (`EndToEnd.DeadDirection`). An
  answer that is turned down for its age does not stop later answers, a lost one does
  (`AnswerDirection.LiveAnswers`, `AnswerDirection.DeadAnswers`).
- The client's received sequence numbers rise between two returned messages if and only if the count did not
  wrap around 2^31 in between (`ClientModel.ReturnedInOrder`).
- A byte string of 2^24 bytes or more does not survive serialisation (`TlTypes.BytesRoundTrip`, an
  equivalence).
- The distance in the age check is the true distance of the clocks if and only if they lie within 2^31 of
  each other (`MsgId.DiffIsClockDistance`); a fresh session lets a first message through its order check if
  and only if the clock lies in the positive half of its 32-bit range (`MsgId.FreshAccepts`).
- The primality test never turns a prime down, but accepts some composites for some bases: 25 passes when every
  base is 7 (`DhChecks.SomeCompositePasses`). A number passes for every choice of bases if and only if it is
  prime (`DhChecks.PassesAlwaysIffPrime`); a single base lets it pass if and only if the condition of
  `DhChecks.SurvivesIff` holds.
- `factor_pq` finds a semiprime if and only if it fits 64 bits or its smaller factor is at most 100000; its
  rho stage never contributes (`Factor.FactorPq`, `Factor.RhoAttempt`). Below two, `primes_up_to` returns
  the limit itself (`Factor.PrimesUpTo`).

Integers follow the release build: `+` on `i32`, `i64` and `u32` wraps. Byte strings are sequences of
integers from 0 to 255. The cryptographic primitives are function values (`Crypto.Primitives`) of which
only output sizes and "opening undoes sealing" are assumed (`Crypto.Lawful`). Clocks, randomness and the
outcome of the request handlers are parameters, so the theorems hold for all of them.

## Model

| member | source | states |
|---|---|---|
| `Bytes.IntegersRoundTrip` | kosta-core/src/tl/types.rs:19-59 | 32- and 64-bit integers come back from their little-endian bytes |
| `Bytes.BigEndianRoundTrip` | kosta-server/src/handlers.rs:149-154 | a big unsigned integer comes back from its shortest big-endian bytes |
| `Bytes.ToBytesBeLength` | kosta-server/src/handlers.rs:149-154 | a number below 256^n takes between 1 and n bytes |
| `Bytes.LeBytesAt` | kosta-core/src/tl/types.rs:19-59 | the byte at place k is the digit to the base 256 at place k, least significant first |
| `Bytes.BigEndianAt` | kosta-server/src/handlers.rs:149-154 | the bytes of a big integer are its digits, most significant first, without a leading zero |
| `Bytes.XorAt` | kosta-crypto/src/ctr.rs:9-16 | a bit of an exclusive or is set if and only if it is set in just one of the two |
| `TlTypes.BytesRoundTrip` | kosta-core/src/tl/types.rs:120-154 | a byte string comes back from the wire, whatever follows it, if and only if it is shorter than 2^24 |
| `TlTypes.IntRoundTrip` | kosta-core/src/tl/types.rs:19-31 | an integer comes back and leaves what follows unread |
| `TlTypes.AtomRoundTrip` | kosta-core/src/tl/types.rs:61-188 | integers, nonces, strings, booleans and statuses come back and leave the tail |
| `TlTypes.ValueRoundTrip` | kosta-core/src/tl/types.rs:156-269 | so do vectors and options, nested to any depth |
| `TlTypes.FieldsRoundTrip` | kosta-core/src/tl/constructors.rs:53-663 | a struct's fields, written in order, come back in order and leave the tail |
| `TlTypes.ItemsRoundTrip` | kosta-core/src/tl/types.rs:156-175 | the elements of a vector come back in order and leave the tail |
| `TlTypes.DecodedFields` | kosta-core/src/tl/constructors.rs:53-663 | whatever bytes are accepted yield fields of the declared kinds, with lengths the wire can carry |
| `TlTypes.DecodedItems` | kosta-core/src/tl/types.rs:166-175 | a decoded vector has as many well-formed elements as its count says |
| `TlIo.WriteTlBytes` | kosta-core/src/tl/types.rs:120-134 | appends header, data and zero padding and nothing else |
| `TlIo.WriteValue` | kosta-core/src/tl/types.rs:156-269 | appends exactly the encoding of the value |
| `TlIo.WriteItems` | kosta-core/src/tl/types.rs:157-165 | the loop over a vector appends the elements' encodings in order |
| `TlIo.WriteFields` | kosta-core/src/tl/constructors.rs:53-663 | the writers append the fields' encodings in order |
| `TlIo.ReadTlBytes` | kosta-core/src/tl/types.rs:136-154 | the reader returns what decoding its bytes yields and stops right behind it, or reports the same error |
| `TlIo.ReadValue` | kosta-core/src/tl/types.rs:156-269 | the same for every kind of value |
| `TlIo.ReadItems` | kosta-core/src/tl/types.rs:166-175 | the counting loop reads exactly the elements, or stops at the first error |
| `TlIo.ReadFields` | kosta-core/src/tl/constructors.rs:53-663 | the readers take the fields in order, or stop at the first error |
| `TlObjects.TagOfConstructorId` | kosta-core/src/tl/constructors.rs:8-42 | each of the 24 identifiers selects its own constructor |
| `TlObjects.IdentifierRoundTrip` | kosta-core/src/tl/constructors.rs:703-841 | an identifier written as a signed integer is read back as the unsigned one |
| `TlObjects.ObjectFaithful` | kosta-core/src/tl/constructors.rs:53-663 | every object's fields fit its layout and determine it |
| `TlObjects.DecodeEncodedObject` | kosta-core/src/tl/constructors.rs:703-841 | reading a written object yields it and leaves exactly the tail |
| `TlObjects.BoxedRoundTrip` | kosta-core/src/tl/constructors.rs:703-841 | that holds if and only if all strings are shorter than 2^24 and all vectors shorter than 2^31 |
| `TlObjects.EncodingsPrefixFree` | kosta-core/src/tl/constructors.rs:703-806 | no encoding is a prefix of another object's, so encodings are injective |
| `TlObjects.DecodedObjectEncodable` | kosta-core/src/tl/constructors.rs:808-841 | every object read from any bytes has lengths the wire can carry |
| `TlObjects.AcceptedBytesNormalise` | kosta-core/src/tl/constructors.rs:703-841 | writing an accepted object again and reading it gives the same object |
| `TlObjects.WriteBoxed` | kosta-core/src/tl/constructors.rs:703-806 | appends exactly the object's encoding |
| `TlObjects.ReadBoxed` | kosta-core/src/tl/constructors.rs:808-841 | returns what the bytes decode to and leaves the rest, or the error |
| `TlWire.WireFormat` | kosta-core/src/tl/constructors.rs:53-806 | every object is written as its identifier and the parts of its own writer, in order, spelled out byte for byte |
| `TlWire.StrIs` | kosta-core/src/tl/types.rs:120-134 | a byte string is its length in one byte, or 254 and three bytes, its data, and zeros up to a multiple of four |
| `TlWire.ReadUnderIdentifier` | kosta-core/src/tl/constructors.rs:808-841 | bytes are accepted only under the identifier of the object returned, and refused as unknown if and only if their first four are no struct's |
| `TlWire.StringsRead` | kosta-core/src/tl/types.rs:136-154 | a byte string is read if and only if all of it and its padding are there, whatever the padding holds |
| `TlWire.WordsRead` | kosta-core/src/tl/types.rs:176-307 | flags and options are set by any nonzero word; other statuses than 0 to 5 are refused; a negative count overflows |
| `TlLengths.BoxedLengthMod4` | kosta-core/src/tl/types.rs:120-134 | an encoding's length modulo 4 is its number of short byte strings modulo 4 |
| `TlLengths.Only75` | kosta-core/src/tl/constructors.rs:703-806 | only ResPQ, PqInnerData and ReqDHParams can take 75 bytes |
| `TlLengths.Only127` | kosta-core/src/tl/constructors.rs:703-806 | only these three and DialogList can take 127 bytes |
| `TlLengths.ResPQLength` | kosta-core/src/tl/constructors.rs:75-85 | the exact length of a ResPQ |
| `TlLengths.ReqDHParamsLength` | kosta-core/src/tl/constructors.rs:147-157 | the exact length of a ReqDHParams |
| `TlLengths.ServerDHParamsOkLength` | kosta-core/src/tl/constructors.rs:178-186 | the exact length of a ServerDHParamsOk |
| `TlLengths.SetClientDHParamsLength` | kosta-core/src/tl/constructors.rs:264-271 | the exact length of a SetClientDHParams |
| `TlLengths.HandshakeAvoidsMarker` | kosta-server/src/handlers.rs:145-171 | no handshake object of the sizes the code builds takes 75 or 127 bytes |
| `TlLengths.OtherSizesReach75` | kosta-core/src/tl/constructors.rs:75-85 | with other sizes a ResPQ does take 75 bytes |
| `Abridged.FrameRoundTrip` | kosta-transport/src/abridged.rs:10-97 | a frame followed by anything yields its payload and leaves the rest if and only if its length is not 127 and at most 1 MiB |
| `Abridged.FrameBytes` | kosta-transport/src/abridged.rs:10-26 | a frame byte for byte: one length byte up to 127, else the marker and three, least significant first |
| `Abridged.FrameRead` | kosta-transport/src/abridged.rs:59-97 | what any buffer is read as, or the first reason why it cannot be read |
| `Abridged.TruncatedFrameFails` | kosta-transport/src/abridged.rs:59-92 | a buffer cut off inside a frame is never decoded |
| `Abridged.PrefixDecodes` | kosta-transport/src/abridged.rs:59-97 | a prefix of a stream yields its first payload once complete, and fails before |
| `Abridged.StreamIsFaithful` | kosta-transport/src/mock.rs:26-47 | under any chunking and any receive attempts, what was received is a prefix of what was sent and the rest is still to come |
| `Abridged.DrainDeliversAll` | kosta-transport/src/mock.rs:45-47 | once all bytes are there, one receive per payload delivers them all in order |
| `Abridged.MockTransport.AddIncoming` | kosta-transport/src/mock.rs:26-28 | appends the bytes to the incoming buffer |
| `Abridged.MockTransport.TakeSent` | kosta-transport/src/mock.rs:31-35 | returns everything sent so far and empties the buffer |
| `Abridged.MockTransport.Send` | kosta-transport/src/mock.rs:39-43 | appends the payload's frame |
| `Abridged.MockTransport.Recv` | kosta-transport/src/mock.rs:45-47 | returns the first payload and drains its frame, or fails and leaves the buffer alone |
| `Abridged.DecodeFrameFrom` | kosta-transport/src/abridged.rs:28-55 | the stream decoder agrees with the slice decoder: same payload and rest, or the same reason for failing |
| `Padding.Pad` | kosta-crypto/src/padding.rs:6-20 | adds 12 to 1039 bytes up to a multiple of 16, whatever is drawn |
| `Padding.PaddingIsTail` | kosta-crypto/src/padding.rs:6-25 | unpadding gives the data back, and an object decodes from its padded encoding leaving just the padding |
| `MsgId.MsgIdIs` | kosta/src/session.rs:429-433 | shift, or and wrap give the signed low 32 bits of the clock times 2^32 plus the counter |
| `MsgId.MsgIdOrder` | kosta/src/session.rs:429-433 | ids are ordered by signed clock first, counter second |
| `MsgId.DiffIsWrapped` | kosta/src/session.rs:501-504 | the age check's distance does not depend on the counter |
| `MsgId.DiffIsClockDistance` | kosta-server/src/server.rs:211-214 | it is the true distance of the signed clocks if and only if that is at most 2^31 |
| `MsgId.FreshAccepts` | kosta-server/src/server.rs:187-191 | a fresh session's order check lets a counter-0 message through if and only if 1 <= ms mod 2^32 < 2^31 |
| `Crypto.LawsAreConsistent` | kosta-crypto/src/gcm.rs:5-20 | some primitives meet what is assumed of them |
| `Crypto.AcceptsOnlyEncryptions` | kosta-crypto/src/session_crypto.rs:58-100 | a ciphertext and tag are accepted as a plaintext if and only if they are its encryption |
| `Crypto.SealingIs` | kosta-crypto/src/session_crypto.rs:58-78 | a ciphertext is the plaintext xored, bit by bit, with the keystream of key and nonce, and its tag the first 16 bytes of the HMAC over nonce and ciphertext |
| `Crypto.AlteredIsRefused` | kosta-crypto/src/session_crypto.rs:81-99 | a message with another nonce or ciphertext is refused if and only if the HMACs differ in their first 16 bytes, one with another tag always |
| `Crypto.NonceIs` | kosta-crypto/src/session_crypto.rs:47-54 | a nonce is its counter in network order and twelve random bytes |
| `Crypto.DerivedKeys` | kosta-crypto/src/session_crypto.rs:15-45 | the four keys are 32 bytes each and together the expansion of the secret, salted with the hash of both nonces |
| `Crypto.EachSealsUnderItsKeys` | kosta-crypto/src/session_crypto.rs:149-185 | client and server each seal under their own two keys with the send counter, and move it by one modulo 2^32 |
| `Crypto.NoncesDiffer` | kosta-crypto/src/session_crypto.rs:49-54 | nonces of different counters differ whatever their random part |
| `Crypto.EndsAgree` | kosta-crypto/src/session_crypto.rs:149-200 | each end opens what the other seals, and only the receive counter moves |
| `Crypto.PacketRoundTrip` | kosta/src/session.rs:442-453 | a packet's key id, nonce, ciphertext and tag come back, and its length is 40 more than the ciphertext |
| `Crypto.HeaderRoundTrip` | kosta-server/src/server.rs:267-270 | message id, sequence number and body come back, with 12 bytes added |
| `ServerInvariant.GetKeeps` | kosta-server/src/session_cache.rs:29-79 | a session is found if and only if it has a row, agrees with it, and no other session changes |
| `ServerInvariant.UpdateKeeps` | kosta-server/src/session_cache.rs:81-104 | row and cache change together, other sessions stay or fall out |
| `ServerInvariant.PutDistinct` | kosta-server/src/session_cache.rs:101-102 | the cache never holds two entries of one id nor more than its capacity |
| `ServerInvariant.SavedSessionLoads` | kosta-server/src/session_cache.rs:33-79 | a saved session is loaded as it was, but for the counters of its crypto context, which are those saved |
| `Recency.KeptIffFewOthers` | kosta-server/src/session_cache.rs:29-105 | in a bounded list of the most recently used, an id is kept if and only if fewer different others than the capacity were used after it |
| `Residency.StepUses` | kosta-server/src/server.rs:125-298 | one pass brings the sessions it uses to the front of the cache, one after the other |
| `Residency.CachedIffFewOthers` | kosta-server/src/session_cache.rs:29-105 | a session just used is still cached after further frames if and only if they use fewer other sessions than the cache holds |
| `ServerInvariant.ReceiveKeeps` | kosta-server/src/server.rs:157-227 | acceptance moves the row by one number to a later id; rejection leaves the table alone |
| `ServerInvariant.SignUpKeeps` | kosta-server/src/handlers.rs:387-402 | signing up changes the user of the session, in row and cache, and nothing else |
| `ServerInvariant.RespondKeeps` | kosta-server/src/server.rs:244-288 | an answer takes the row's next numbers, moves each by one, and is sealed with the row's nonce counter |
| `ServerInvariant.StepKeeps` | kosta-server/src/server.rs:124-298 | one pass on any frame keeps cache and table coherent; every row moves by exactly what was accepted and answered |
| `ServerInvariant.StepVerdict` | kosta-server/src/server.rs:139-217 | the verdict on a frame depends on its session's row and recent ids alone, not on what is cached |
| `FrameChecks.VerdictByBytes` | kosta-server/src/server.rs:161-217 | the first check that fails on the bytes of a packet names the verdict: length, HMAC, header, order, replay, sequence, age |
| `FrameChecks.StepJudges` | kosta-server/src/server.rs:139-217 | a pass shows that verdict on every frame of a known session |
| `FrameChecks.RemembersByBytes` | kosta-server/src/server.rs:187-201 | the id of every authentic packet that passes the order and replay checks is remembered, and no other |
| `FrameChecks.StepShows` | kosta-server/src/server.rs:161-298 | a frame turned down shows nothing; an accepted one hands its object over, sends the handler's answer sealed, and ends the connection if and only if the handler fails |
| `FrameChecks.PlainShows` | kosta-server/src/server.rs:133-157 | a frame of no known session is read in the clear and answered in the clear |
| `FrameChecks.StepCloses` | kosta-server/src/server.rs:180-246 | a pass ends the connection if and only if the packet is authentic with less than 12 clear bytes, or the handler fails; never for a stale, replayed, late or misnumbered frame |
| `FrameChecks.ServedToTheEndIff` | kosta-server/src/server.rs:124-298 | a connection is served to its last frame if and only if no frame before it ends it in one of these two ways |
| `ServerInvariant.StepSeals` | kosta-server/src/server.rs:267-288 | an answer is only sent to an accepted frame, and is sealed under that session's keys |
| `ServerRuns.RunIsLogged` | kosta-server/src/server.rs:124-298 | in every run, with any evictions, each row is where the log of accepted and answered messages says |
| `ServerRuns.AcceptedInOrder` | kosta-server/src/server.rs:187-224 | accepted messages carry numbers 0, 1, 2, ... and strictly increasing ids; no id is accepted twice |
| `ServerRuns.RejectedInRun` | kosta-server/src/server.rs:161-217 | in every run, a frame of a session that is not accepted changes no row of the table, is not handled and not answered |
| `ServerRuns.NoncesNeverReused` | kosta-server/src/server.rs:272-280 | the k-th answer uses counter k, across evictions and reloads; answers less than 2^32 apart never share a nonce |
| `RecvCounter.StepCounters` | kosta-server/src/server.rs:219-280 | one pass moves the receive counters of every session, cached and persisted, as what it accepted and answered says |
| `RecvCounter.AcceptedCounts` | kosta-server/src/server.rs:219-280 | an accepted frame moves the cached counter by one; the row takes it over if the frame is answered and stays as it is otherwise |
| `RecvCounter.AgreesIffAnswered` | kosta-server/src/server.rs:219-280 | after an accepted frame row and cache agree if and only if it was answered, or the lag has come to 2^32 |
| `RecvCounter.RecvCounterLags` | kosta-server/src/server.rs:219-224 | a frame accepted without an answer, whatever the reason, is counted in the cache alone, and an eviction takes that back |
| `RecvCounter.RunCounters` | kosta-server/src/server.rs:219-280 | in every run the row holds the counter of the last answered frame, and the cache is ahead by the frames accepted since, or since the last eviction |
| `ServerRuns.EventKeeps` | kosta-server/src/session_cache.rs:29-105 | a pass of the loop or an eviction keeps the invariant and moves sessions as its output shows |
| `ServerRuns.ServingExtendsRun` | kosta-server/src/server.rs:124-298 | a connection's loop is a stretch of a run, up to the frame that ends it |
| `Refinement.SimStep` | kosta-server/src/session_cache.rs:29-105 | one frame keeps the cached server and an unbounded map in step and shows the same |
| `Refinement.CacheIsInvisible` | kosta-server/src/session_cache.rs:29-105 | over every run without a forgotten replay, an LRU of any capacity shows what an unbounded map shows, drops included |
| `Refinement.DivergesIffForgottenReplay` | kosta-server/src/server.rs:193-217 | they judge a frame differently if and only if it replays an id lost by an eviction and is next in sequence and in time |
| `Refinement.EvictionAdmitsReplay` | kosta-server/src/server.rs:193-217 | a frame one place early, an eviction, the frame before it, and the early frame again: the server accepts what an unbounded map drops |
| `CacheRuns.DecideAlikeIff` | kosta-server/src/server.rs:193-217 | while both hold the same rows, they decide differently on a frame if and only if it is next in sequence and in time and just one of them remembers its id |
| `CacheRuns.AlikeIffUndisputed` | kosta-server/src/session_cache.rs:29-105 | over every run, with any capacity and evictions, both accept, hand over and answer the same if and only if no such frame came |
| `CacheRuns.ShownOnceForgetsNothing` | kosta-server/src/server.rs:193-201 | if no session is shown the same message id twice, no frame of the run is a forgotten replay |
| `CacheRuns.ShownOnceIsInvisible` | kosta-server/src/session_cache.rs:29-105 | and then the LRU shows in every event what an unbounded map shows, down to the reason of a drop |
| `CacheRuns.RememberedForAThousand` | kosta-server/src/session_cache.rs:50-56 | a remembered id is known if and only if fewer than 1000 different other ids were remembered after it |
| `CacheRuns.AlikeIffNoReplayAdmitted` | kosta-server/src/server.rs:193-217 | until a set of recent ids is full, the two differ if and only if the server accepts a replay forgotten by an eviction |
| `CacheRuns.ReplayGetsThrough` | kosta-server/src/server.rs:193-217 | in every session, at every clock above its last id, two genuine frames and an eviction make the server accept a replay |
| `CacheRuns.FreshSessionReplays` | kosta-server/src/server.rs:193-217 | in a fresh session it happens with the ids of the first millisecond |
| `CacheRuns.SomeRunDiffers` | kosta-server/src/session_cache.rs:29-105 | for every capacity some run of five events is not answered as with an unbounded map |
| `SessionCache.Database.SaveSessionFull` | kosta-server/src/db.rs:198-238 | replaces the row of that id and no other |
| `SessionCache.Database.UpdateRecvSeqAndLastMsg` | kosta-server/src/db.rs:240-247 | changes two columns of an existing row, nothing otherwise |
| `SessionCache.Database.UpdateCounters` | kosta-server/src/db.rs:249-256 | changes the two counters of an existing row, nothing otherwise |
| `SessionCache.Database.UpdateSendState` | kosta-server/src/db.rs:258-265 | changes the two sending numbers of an existing row, nothing otherwise |
| `SessionCache.Database.UpdateUserId` | kosta-server/src/db.rs:267-274 | changes the user of an existing row, nothing otherwise |
| `SessionCache.Database.GetFullSession` | kosta-server/src/db.rs:276-343 | returns the row if there is one |
| `SessionCache.Cache.GetSession` | kosta-server/src/session_cache.rs:29-79 | a clone of the cached session, moved to the front, or of the loaded row; recent ids stay shared |
| `SessionCache.Cache.UpdateSession` | kosta-server/src/session_cache.rs:81-104 | saves the row and puts the session in front of the cache |
| `Server.Remember` | kosta-server/src/server.rs:193-201 | an id remembered through a clone is seen in the cache, and in no other session |
| `Server.ReceiveFrame` | kosta-server/src/server.rs:161-227 | the checks and updates on a frame are those of the specification, in the same order |
| `Server.AcceptFrame` | kosta-server/src/server.rs:219-224 | the three writes leave the row that the session is saved as |
| `Server.HandleSession` | kosta-server/src/handlers.rs:296-345 | sign-up and a finished handshake change table and cache as specified |
| `Server.RecordUser` | kosta-server/src/handlers.rs:387-402 | the row and the cached session record the user |
| `Server.Answer` | kosta-server/src/server.rs:244-288 | numbers, seals and records an answer as specified |
| `Server.HandleEncrypted` | kosta-server/src/server.rs:157-298 | an encrypted frame is handled as specified |
| `Server.HandleFrame` | kosta-server/src/server.rs:125-298 | one pass of the loop equals the specification's step |
| `Server.HandleClient` | kosta-server/src/server.rs:124-298 | the loop serves a connection's frames in turn, up to the one that ends it |
| `ClientModel.ReceiveSafety` | kosta/src/session.rs:459-511 | over every series of receive calls, failed ones included, returned messages have strictly increasing ids and numbers at strictly increasing positions |
| `FrameChecks.ClientJudges` | kosta/src/session.rs:459-511 | the first check that fails on the bytes of a packet names the error, and the state has moved exactly as far as the checks passed |
| `ClientModel.ReturnedInOrder` | kosta/src/session.rs:459-511 | ids of returned messages rise; their sequence numbers rise from one to another if and only if the count did not wrap in between, so always below 2^31 |
| `ClientModel.ClientNoncesNeverReused` | kosta-crypto/src/session_crypto.rs:149-159 | however sends and receives are mixed, the k-th packet uses the k-th counter, and packets less than 2^32 apart never share a nonce |
| `ClientSession.Session.FromMockTransport` | kosta/src/session.rs:199-221 | a new session is disconnected, with numbers -1 and counters 0 |
| `ClientSession.Session.WritePlain` | kosta/src/session.rs:426-440 | takes the next numbers once authenticated and writes header and object |
| `ClientSession.Session.SendTl` | kosta/src/session.rs:426-456 | state and bytes sent are those of the specification, in the clear or sealed |
| `ClientSession.Session.RecvTl` | kosta/src/session.rs:459-518 | state moves check by check as specified; a transport failure changes nothing |
| `ClientSession.Session.CheckResPQ` | kosta/src/session.rs:241-301 | accepts the first answer exactly when nonce, product, primality and fingerprint pass, and builds the second request |
| `ClientSession.Session.CheckServerDh` | kosta/src/session.rs:307-350 | accepts the second answer exactly when nonces, signature, inner data and group pass |
| `ClientSession.Session.AgreeOnSecret` | kosta/src/session.rs:341-376 | the secret and the third request, if the group passes |
| `ClientSession.Session.Finish` | kosta/src/session.rs:381-418 | installs the keys exactly when nonces and hash match, and changes nothing otherwise |
| `ClientSession.Session.Authenticate` | kosta/src/session.rs:230-420 | the three exchanges leave state, unread bytes and sent bytes as specified |
| `EndToEnd.HeadIsJudged` | kosta-server/src/server.rs:157-217 | the oldest request in flight is accepted, as itself, exactly when the verdict on it says so |
| `EndToEnd.ActKeepsBase` | kosta/src/session.rs:426-456 | every action of either end, of the network or of the cache keeps the numbers of both ends consistent |
| `EndToEnd.DeadDirection` | kosta-server/src/server.rs:187-221 | accepted requests are exactly the first ones sent; once one is lost or turned down, no later one is ever accepted |
| `EndToEnd.RecvSealed` | kosta/src/session.rs:486-511 | an authentic packet moves the last id if it is later, the number if it is also next, and is returned if it is also in time and parses |
| `AnswerDirection.AnswerJudged` | kosta/src/session.rs:486-511 | the oldest answer is consumed if and only if it is next with a later id, and returned if and only if it is also in time and readable |
| `AnswerDirection.DeadAnswers` | kosta/src/session.rs:486-494 | the answers consumed are exactly the first ones sent; once one is lost or its id did not rise, no later one is consumed or returned |
| `AnswerDirection.LiveAnswers` | kosta/src/session.rs:486-511 | until then the client goes on after every answer, also after one that it turned down for its age or could not read |
| `Lockstep.HeadAccepted` | kosta-server/src/server.rs:157-244 | with agreeing clocks the oldest request is accepted, handled, and answered if the handler answers |
| `Lockstep.ReturnDownward` | kosta/src/session.rs:459-518 | with agreeing clocks the oldest answer is returned to the client's caller |
| `Lockstep.ActInStep` | kosta/src/session.rs:426-518 | every timely action keeps both ends in step |
| `Lockstep.EndsInLockstep` | kosta/src/session.rs:426-518 | each end's sending number is the other's receiving number plus the messages in flight; every object sent is handled exactly once in order, and every answer is returned likewise |
| `ByteStreams.CarriesRead` | kosta-transport/src/mock.rs:45-47 | reading a stream yields the oldest packet under way, as soon as its frame has arrived |
| `ByteStreams.StreamsRefineChannels` | kosta-transport/src/mock.rs:26-47 | with any chunking and any attempts to read, each run of both ends over framed bytes is a run over channels of packets, and the bytes under way are the frames of the packets under way |
| `ByteStreams.StreamsInLockstep` | kosta/src/session.rs:426-518 | lockstep over byte streams; what has arrived can be read, and once the streams are empty everything sent was handled and every answer returned |
| `ProtocolFrames.SentSurvivesIff` | kosta/src/session.rs:426-456 | what the client sends survives framing if and only if it fits the frame size and is not 127 bytes long: not 75 for a sealed object |
| `ProtocolFrames.ClientFramesSurvive` | kosta/src/session.rs:426-456 | everything the client sends, sealed or in the clear, survives framing if and only if it is at most 1 MiB long; only a list of dialogs in the clear, which no client sends, is not covered |
| `ProtocolFrames.ServerFramesSurvive` | kosta-server/src/server.rs:267-292 | so does everything a pass of the server loop sends |
| `ProtocolFrames.OtherSizesDoNotSurvive` | kosta-transport/src/abridged.rs:10-16 | a sealed object of 75 bytes does not survive |
| `ProtocolFrames.ClearDialogsDoNotSurvive` | kosta-transport/src/abridged.rs:10-16 | nor does a list of three dialogs of 127 bytes in the clear |
| `Handshake.AuthKeyFromSharedSecret` | kosta-crypto/src/keys.rs:45-68 | the 256 bytes filled in place are eight hashes, each of the one before and the secret |
| `Handlers.GenerateRandomPrime` | kosta-server/src/handlers.rs:46-57 | the loop returns the candidate of the first draw that passes the test |
| `Handlers.HandleReqPq` | kosta-server/src/handlers.rs:138-172 | the answer holds the first two different candidates that pass, both odd and below 2^32, and their product |
| `Handlers.HandshakeStore.Clean` | kosta-server/src/handlers.rs:38-43 | exactly the entries less than 60 seconds old stay |
| `Handlers.HandshakeStore.HandleReqDhParams` | kosta-server/src/handlers.rs:185-252 | remembers nonce, exponent and time and answers as specified, or fails and remembers nothing |
| `Handlers.HandshakeStore.HandleSetClientDhParams` | kosta-server/src/handlers.rs:255-374 | saves the session in table and cache and forgets the exchange, or fails and changes no session |
| `Handlers.FinishSession` | kosta-server/src/handlers.rs:271-330 | secret, keys and session come from the remembered exponent, or the failing check is reported |
| `HandshakeAgreement.FirstAccepted` | kosta/src/session.rs:241-301 | the client goes on exactly when it accepts both factors and knows the fingerprint |
| `HandshakeAgreement.Request2Answered` | kosta-server/src/handlers.rs:185-252 | the server opens the client's inner data to what was sealed and answers |
| `HandshakeAgreement.Answer2Accepted` | kosta/src/session.rs:307-376 | the client goes on exactly when signature and group pass, with the secret of the server's public value |
| `HandshakeAgreement.Request3Answered` | kosta-server/src/handlers.rs:255-374 | the server finishes exactly when the exchange is known, in time and the public value in range, with the client's secret |
| `HandshakeAgreement.EndsHoldTheSameKeys` | kosta/src/session.rs:230-420 | over genuine delivery `authenticate` succeeds if and only if those checks pass, and then both ends hold the same key id, authorisation key and four keys, those of 2 raised to the product of both exponents |
| `HandshakeSafety.AuthKeyIsChain` | kosta-crypto/src/keys.rs:45-68 | the authorisation key is eight 32-byte hashes, each of the one before and the secret |
| `HandshakeSafety.FirstIff` | kosta/src/session.rs:241-301 | the first answer is accepted if and only if nonce, product, primality and fingerprint pass, and leads to the request sealed for both nonces |
| `HandshakeSafety.SecondIff` | kosta/src/session.rs:307-376 | the second answer is accepted if and only if nonces, signature, inner data and group pass, and leads to the secret and the third request |
| `HandshakeSafety.KeysOnlyAfterAllChecks` | kosta/src/session.rs:230-420 | whatever a fresh session reads, `authenticate` succeeds if and only if it is three answers that pass every check, and then holds the keys of their secret; otherwise the session is unchanged |
| `HandshakeSafety.KeysKeptOnFailure` | kosta/src/session.rs:230-420 | a session that holds keys keeps them when `authenticate` fails |
| `HandshakeSafety.FirstErrors` | kosta/src/session.rs:241-301 | which failing check on the first answer is reported |
| `HandshakeSafety.SecondErrors` | kosta/src/session.rs:307-350 | which failing check on the second answer is reported |
| `HandshakeRuns.AskedIff` | kosta-server/src/handlers.rs:185-252 | the second request is answered if and only if its inner data opens and repeats the nonces; the answer is sealed for the new nonce and signed |
| `HandshakeRuns.FinishedIff` | kosta-server/src/handlers.rs:271-330 | a session is made if and only if the inner data opens, repeats the nonces and its public value is in range, and holds the keys of the secret |
| `HandshakeRuns.StoreIsHistory` | kosta-server/src/handlers.rs:38-43 | what the store knows is what the history says, as far as it is less than a minute old |
| `HandshakeRuns.EstablishesIff` | kosta-server/src/handlers.rs:255-374 | in every run a third request makes a session if and only if its exchange was asked for less than 60 seconds ago, not finished since, and its inner data passes |
| `HandshakeRuns.FinishedOnce` | kosta-server/src/handlers.rs:255-374 | no exchange is finished twice without being asked for again |
| `HandshakeAgreement.EstablishedStep` | kosta-server/src/handlers.rs:296-345 | the pass that ends an exchange leaves a fresh row and no recent ids |
| `HandshakeAgreement.ExchangeStartsSession` | kosta-server/src/handlers.rs:255-374 | a successful exchange leaves both ends in the state the session theorems start from |
| `Dh.SecretIs` | kosta-crypto/src/dh.rs:14-21 | the secret is the generator raised to the product of both exponents |
| `Dh.Agreement` | kosta-crypto/src/dh.rs:14-21 | both ends reach the same secret for every modulus, generator and exponents |
| `DhChecks.OddTimesPowerOfTwo` | kosta/src/dh_checks.rs:11-17 | halving leaves n - 1 = d * 2^s with d odd |
| `DhChecks.BaseInRange` | kosta/src/dh_checks.rs:22-30 | every drawn base lies in [2, n - 2] |
| `DhChecks.PrimeAlwaysPasses` | kosta/src/dh_checks.rs:6-50 | a prime passes with every choice of bases |
| `DhChecks.Round` | kosta/src/dh_checks.rs:22-48 | a round survives if and only if n is a strong probable prime to its base |
| `DhChecks.SurvivesIff` | kosta/src/dh_checks.rs:32-47 | a base lets n = d * 2^s + 1 pass if and only if a^(n-1) is 1 and no square on the way becomes 1 except from 1 or n - 1 |
| `DhChecks.SharedDivisorExposes` | kosta/src/dh_checks.rs:32-47 | a base that shares a divisor with an odd composite exposes it |
| `DhChecks.PassesAlwaysIffPrime` | kosta/src/dh_checks.rs:6-50 | a number passes with every choice of bases if and only if it is prime |
| `DhChecks.SomeCompositePasses` | kosta/src/dh_checks.rs:6-50 | for particular bases a composite passes: 25 with base 7 |
| `DhChecks.IsPrimeTest` | kosta/src/dh_checks.rs:6-50 | the answer is that of Miller-Rabin for the drawn bases: true for every prime, false if some base shares a divisor with n |
| `DhChecks.BitsBound` | kosta/src/dh_checks.rs:56-59 | a number has more than e bits if and only if it is at least 2^e |
| `DhChecks.ValidateDhParams` | kosta/src/dh_checks.rs:52-64 | accepts exactly a tested prime of at least 2048 bits with 1 < g < p - 1, and names the first failing check |
| `NumberTheory.EuclidLemma` | kosta/src/factor.rs:10-35 | a prime that divides a product divides a factor |
| `NumberTheory.FermatLittle` | kosta/src/dh_checks.rs:32-46 | a^(p-1) is 1 modulo a prime p that does not divide a |
| `NumberTheory.SquareRootsOfOne` | kosta/src/dh_checks.rs:37-43 | modulo a prime only 1 and p - 1 square to 1 |
| `Factor.FactorU64` | kosta/src/factor.rs:10-35 | finds nothing exactly for 0, 1 and primes; otherwise the least divisor, which is prime |
| `Factor.CrossOut` | kosta/src/factor.rs:48-54 | crossing out from i * i on handles i |
| `Factor.Sieve` | kosta/src/factor.rs:38-55 | the table marks exactly the primes |
| `Factor.PrimesUpTo` | kosta/src/factor.rs:38-60 | the ascending list of exactly the primes up to a limit of at least 2; below, the limit itself |
| `Factor.GcdIs` | kosta/src/factor.rs:127-127 | the divisors of the result are exactly the common divisors |
| `Factor.RhoAttempt` | kosta/src/factor.rs:114-129 | an attempt ends with d still 1 |
| `Factor.DivideBySmallPrimes` | kosta/src/factor.rs:87-102 | finds the factors of every larger semiprime with a factor up to 100000 |
| `Factor.AcceptedMeansReachable` | kosta/src/factor.rs:67-149 | an accepted split of a semiprime is its factorisation, and within reach |
| `Factor.FactorPq` | kosta/src/factor.rs:67-149 | returns the two primes in ascending order for exactly the semiprimes within reach; every answer is a split of n into tested factors |
| `Ige.BlockInverse` | kosta-crypto/src/ige.rs:12-25 | the two block steps undo each other under the same registers |
| `Ige.DecryptUndoesEncrypt` | kosta-crypto/src/ige.rs:7-50 | decryption undoes encryption for every permutation cipher, vector and whole number of blocks |
| `Ige.EncryptUndoesDecrypt` | kosta-crypto/src/ige.rs:7-50 | and encryption undoes decryption |
| `Ige.EncryptedIffChained` | kosta-crypto/src/ige.rs:7-27 | a ciphertext is the encryption if and only if the cipher maps each plaintext block, xored with the ciphertext block before, to the ciphertext block xored with the plaintext block before |
| `Ige.DecryptedIffChained` | kosta-crypto/src/ige.rs:29-50 | and a plaintext the decryption if and only if the ciphertext is chained to it |
| `Ige.IgeEncrypt` | kosta-crypto/src/ige.rs:7-27 | the loop computes the chaining and rejects exactly unaligned input |
| `Ige.IgeDecrypt` | kosta-crypto/src/ige.rs:29-50 | the same for decryption |
| `RateLimiter.Limiter.Check` | kosta-server/src/rate_limiter.rs:22-34 | admits if and only if fewer than the maximum of stored times are less than one window old, and stores the pruned window |
| `RateLimiter.PruningIsInvisible` | kosta-server/src/rate_limiter.rs:25-27 | while the clock runs forward, the stored timestamps give the same window as the whole history |
| `RateLimiter.RefusedIffWindowFull` | kosta-server/src/rate_limiter.rs:22-34 | a request is refused if and only if the full history holds the maximum of admissions less than one window old |
| `RateLimiter.AdmittedAfterPause` | kosta-server/src/rate_limiter.rs:25-33 | a key without an admission in the last window is admitted |
| `RateLimiter.KeysAreSeparate` | kosta-server/src/rate_limiter.rs:25-33 | what is stored for a key depends on its own calls alone |
| `RateLimiter.SlidingWindowBound` | kosta-server/src/rate_limiter.rs:22-34 | no half-open interval of the window's length ever holds more than the maximum of admissions of a key |

## Left out

- The primitives AES, SHA, HMAC, HKDF, Ed25519 and GCM, and the random source: function values and parameters; only sizes and that opening undoes sealing are assumed. No secrecy, unforgeability or collision claim is made.
- Concurrent connections that share a session: the code's look-up, check and update are not atomic, and the model has one frame at a time.
- Sockets, TLS, shutdown, configuration, key files and `connect`, `reconnect` and `from_transport` of the client: only the in-memory transport is modelled, whose framing the others share.
- The client's `session_id`, `user_id`, host, port and timeout, which play no part in the protocol, and its one-line helpers `send_message`, `get_history`, `send_ack` and `update_status`.
- Transport, database and lock failures inside the server loop: an arriving frame is a parameter, and row operations succeed. The column `created_at` is not modelled.
- The application handlers: what a handler does to sessions, and whether and what it answers, is a parameter (`ServerModel.Handled`); messages, dialogs, users and statuses in the database are thin queries.
- The web server, its metrics and pages, and the global limiters built from the rate limiter.
- UTF-8 validity of strings: a string is taken as its bytes.
- `AuthKey::msg_key`, `AuthKey::kdf` and the empty `kdf.rs` of kosta-crypto, which nothing modelled here uses.
- `SessionData` and `SessionCrypto` are values because the code clones them on every use; only the set of recent ids, which clones share, is an object.
- The struct codecs are driven by one table of layouts instead of 24 pairs of functions; order and kinds of the fields are the source's.
- A negative vector count makes `Vec::with_capacity` panic; the model reports `CapacityOverflow` instead. A request too long to frame panics in `encode_frame`; `Authenticate` reports `FramePanics`.
- The floating-point square root of factor.rs is any number whose successor's square exceeds the argument.
- Handlers.GenerateRandomPrime: the random source is a parameter that never runs dry of numbers that pass the test (`Handlers.Inexhaustible`), without which the source's loop would not end either.
- Abridged.MockTransport.Send: requires a payload of less than 2^24 bytes, beyond which the source panics.
- Abridged.DecodeFrameFrom: does not say how much of an incomplete frame is consumed when the reader ends, which `read_exact` leaves open.
- HandshakeAgreement.EndsHoldTheSameKeys: the salt is not part of the agreement, because the server keeps 0 and the client eight bytes of the server's nonce; the modulus is a parameter of at most 256 bytes.
