# Secure LLM sessions and the model manager: a Dafny model

The system puts an encrypted session channel in front of a local language-model server. A client performs a signed
key exchange, then seals every request with a rising counter; the server looks the session up, advances a 1024-bit
replay window, opens the envelope, persists the session and answers with one sealed envelope or a stream of them.
Behind the channel a model manager keeps a bounded, least-recently-used map of loaded models, each with a bounded job
queue and one worker. This project models that logic and proves what it keeps over whole runs.

`dafny verify dfyconfig.toml` checks everything. The modules, bottom up:

| files | content |
|---|---|
| `Bytes`, `Bits` | byte strings, big-endian integers, bit arithmetic on unbounded naturals |
| `Wire`, `Envelope` | framing, associated data, sealing and opening over an ideal AEAD |
| `Replay`, `ClientReplay` | the two replay checks: a bitmap on the server, a trimmed set on the client |
| `Session`, `Router`, `Channel` | sessions, the in-memory store, the receive step, and runs against an adversarial network |
| `Kdf`, `Transcripts`, `Handshake`, `SessionKeys`, `Exchange`, `SuiteModel` | key derivation, transcripts, both ends of the handshake, what its keys are made of and bind, the first exchange on a new session, witnesses for the assumed laws |
| `RedisStore`, `Failover`, `ResponseFailover`, `Cluster`, `Reaping` | the shared-broker store, the window and the response counter of one session under instances that take over from one another, the instances and their broker themselves, reaping |
| `Lifetimes` | what renews a session and what ends it, on either store, over steps and runs |
| `Transport`, `Responses`, `Streaming`, `StreamClient`, `SharedReplay` | the client's request path, everything a session sends, event streams from end to end, one replay memory for all sessions of a client |
| `ModelCache`, `Adapters`, `ModelLru` | the map of loaded models, what its keys tell apart, its refinement of textbook LRU |
| `ModelMachine`, `ModelBooks` | the manager as a step machine, one step from one suspending `await` to the next |
| `Worker`, `ModelService` | one slot's queue, futures and worker loop; the map and the workers of all its slots together |
| `ModelDrain`, `ModelStranded`, `ModelStuck` | forced unloads and the shutdown, what a cancelled unload leaves behind, without and with the slot's worker |
| `RateLimit` | the token bucket |

## How it is modelled

* **Cryptography is ideal.** Encryption is an arbitrary function of plaintext, associated data, nonce and key that
  adds 16 bytes and is injective in the plaintext; a log remembers every tuple ever sealed, and opening succeeds
  exactly on logged tuples (section 2.8 of RFC 8439). X25519 (section 6.1 of RFC 7748) is a commuting function,
  Ed25519 verifies only its own key and message and only what was signed, HMAC is any function with 32-byte results.
  `SuiteModel` gives a toy
  instance of every law, so the laws do not contradict each other.
* **Objects the code updates are classes** proved against functions on values; the run theorems are lemmas about those
  functions. Clock readings, random choices, backend outcomes, network bytes and the order of wake-ups are inputs,
  universally quantified.
* **Suspension.** Between two suspending awaits a step is atomic. `decrypt_request` does not suspend once the body is
  read when the store is in memory, so a receive is one step there; in the model manager `_load` never suspends, so the
  check, the load and the insert are one step. A call that finds its lock free goes on at once or, when others are
  queued for it, parks behind them, as `asyncio.Lock` does; step theorems allow any order of wake-ups.
* **Encodings.** JSON, base64, hex and UTF-8 are pairs of inverse functions; HTTP methods are ASCII byte strings.
  Time is real-valued, so floating-point rounding is not modelled.

## Where the code and its promises part

* Associated data is joined with `|`, not concatenated. It is injective for methods without a `|`; `AadCollision` shows
  that any method holding one shares its binding with another method and path.
* The client does not keep the 1024-counter window that the documentation gives both sides: it keeps a set trimmed to
  2048 counters whenever it passes 4096. `DroppedAcceptedAgain` says exactly which repeats a trim lets through.
* The client's memory belongs to the transport: a handshake replaces it while streams of older sessions are still read
  (`SharedReplay`). An authentic reply that comes for the first time since then is refused if a reply of another session
  has brought its counter since, and, while 4096 counters have come at most, exactly then (`FirstArrivalRefused`);
  `OldStreamRefusesReply` is the failing family. The older stream's own envelopes are accepted once more
  (`HandshakeForgets`).
* A request whose answer reads as a lost session goes out again under a new one. With the server's own answers that
  follows exactly an unknown session (`HonestRetry`), but nothing authenticates a plain answer, nor a 204: one call can be
  delivered twice (`ForgedRetry`; `CallDelivered` bounds it by the two envelopes), and a 204 is the one success that was
  not sealed (`UnsealedAnswers`).
* The handshake is described as mutual, with KCI resistance (server/secure_llm_server/crypto/handshake.py:4-6) and a
  transcript signature on both sides (docs/threat-model.md:40). The client checks the server's signature under the key that
  comes with it and pins X25519 only: `ResponseAccepted` is the exact condition, any signing key will do
  (`AnySignerAccepted`), and whoever has the client's static secret can answer for the server (`ClientSecretSuffices`).
* After a failover the store's docstring promises that only counters above the watermark are accepted. The code
  restores the watermark with an empty bitmap and accepts any counter above the watermark less 1024 (`RoundTrip`, `WindowReopens`).
  Repeats stay within that window if an instance never serves from a cache older than another instance's service:
  `Clusters.DeliversTwice` names the hydration and the broker's watermark behind each. `StaleCache` and `WarmHandBack`
  show what happens otherwise.
* A session is persisted when a request is delivered, before its response takes a counter. An instance that hydrates the
  record therefore seals its first replies under counters, and so nonces, that the last instance has used with the same
  key: `HandOver` has both sets of nonces, `CountersRepeat` the exact condition over whole runs, and `RepliesRepeat` the
  same over the instances and their broker. docs/threat-model.md:32 says that the client answers by a new handshake; the
  code reports a replay and keeps the session (`RepeatKeepsSession`).
* A session that is terminated on one instance goes on being served by any other that has it cached, and with its next
  delivery there the record is back in the broker (`TerminateForgets`, `TerminatedElsewhere`).
* Closing a session while it streams does not end the stream: the encoder reads the keys afresh for every chunk and goes
  on under the all-zero ones, up to its end marker (`EmitKeys`, `ClosedUnderZeroKey`). The client stops unauthenticated
  at the first such chunk; `LiveBeforeClose` and `WholeStream` say exactly what it has yielded by then.
* A stream's envelopes are authentic one by one (`YieldedWasSealed`), but their order, their completeness and the request
  they answer are not protected, since the end marker is in the clear: `AnyChoiceReads`.
* The manager closes each backend once only if no two unloads of one slot overlap. The idle timer tests for that, the
  other three unload paths do not. `RunBooks` gives the condition in terms of unloads that end, `QuietRunBooks` in terms
  of that test; `EvictedTwice` and `ForcedUnloadLeaks` are the failing families and `LeakFromStart` a run from the start.
* A load with a larger context overwrites its resident slot without closing it, unless the map is full and that slot is
  the oldest: `OverwritesIff` is the exact condition, `OverwrittenFromStart` a run, `EnsureAccounted` the consequence.
* `ensure_loaded` hands out a slot whose unload has begun. `AskedJob`: a request that gets it after its stop signal is
  accepted and never answered; `LateJobFromStart` is such a run, `ServedIffAhead` says exactly which jobs are served.
* A cancelled unload strands its slot: marked as unloading, still handed out, and out of reach of the idle timer
  (`CancelStrands`, `StrandedHandsOut`). Only a cancellation does that (`NoneStranded`), and only a new unload frees it
  (`StrandedStays`). If the cancellation comes while the unload awaits the worker, asyncio cancels the worker too, later
  unloads inherit its cancellation, and the slot never leaves (`CancelSticks`, `StuckForever`); with a cap of one no other
  model is ever loaded again. `StuckFromStart` is such a run.
* Rate limiting is promised per tenant and client (docs/threat-model.md:17). The middleware reads both from the request's
  state before the handler, which alone sets them, has run: every request has the key `default:anon`, and one client's
  burst refuses all others (`OneBucket`, `BurstExactly`).
* The cache key and the prefix test need ids without a colon: `CacheKeysCollide`, `PrefixCrossesTenants` and
  `PrefixCrossesModels` are the failing families. Under it a slot belongs to one tenant, model, mode and set of adapters
  (`SlotSharedIff`). manager.py:38 says that the order of adapters matters; the key sorts them, so two orders, and two
  scales that print alike, share a slot (`FingerprintIff`), and an adapter id with a plus sign passes for two (`PlusCrosses`).
* A shutdown empties the map (`UndisturbedShutdown`) but does not keep a later call from loading a model, which the idle
  timer then never unloads (`LoadsAfterShutdown`).
* The server strips the host before it rebuilds the transcript and the client does not: `HonestRequestAccepted`
  includes that condition.

## Model

| member | source | states |
|---|---|---|
| Replay.ReplayWindow.CheckAndAdvance | server/secure_llm_server/crypto/replay.py:23-40 | the bitmap, kept below 2^1024, marks exactly the accepted counters of the window; a counter passes exactly when it is non-negative, not accepted before and above the watermark less 1024 |
| Replay.HeadOverRun | server/secure_llm_server/crypto/replay.py:23-40 | after any sequence of calls the watermark is the largest accepted counter (or the starting one) and nothing accepted is forgotten |
| Replay.SlideRepresents | server/secure_llm_server/crypto/replay.py:26-32 | shift, or with 1 and mask keep every bit that still fits the window and add the new counter |
| Replay.JumpRepresents | server/secure_llm_server/crypto/replay.py:27-29 | a jump by the window size or more leaves only the new counter in the window |
| Replay.MarkRepresents | server/secure_llm_server/crypto/replay.py:33-40 | setting the bit of an older counter adds that counter to the set and changes no other |
| Replay.MaskTest | server/secure_llm_server/crypto/replay.py:37-39 | the masked test is the test of that one bit |
| Wire.UnpackEnvelope | protocol/secure_llm_protocol/wire.py:71-88 | the cursor parser accepts exactly the packed forms with a full tag |
| Wire.PackLayout | protocol/secure_llm_protocol/wire.py:51-68 | exactly 16-byte sessions, 12-byte nonces and 64-bit counters pack, and magic, version, session, counter, nonce and ciphertext stand at their offsets |
| Bytes.BigEndian | protocol/secure_llm_protocol/wire.py:65 | the first of the counter's bytes is the most significant |
| Wire.PackThenUnpack | protocol/secure_llm_protocol/wire.py:51-88 | unpacking a packed envelope gives it back; without a full tag it is refused as too short |
| Wire.UnpackThenPack | protocol/secure_llm_protocol/wire.py:51-88 | packing what was unpacked gives the same buffer, byte for byte |
| Wire.UnpackAccepts | protocol/secure_llm_protocol/wire.py:71-88 | a buffer parses if and only if it is a packed envelope |
| Wire.AadJoined | protocol/secure_llm_protocol/wire.py:91-102 | the associated data is the join by a bar of magic, version, session, counter, upper-cased method and path |
| Wire.AadInjective | protocol/secure_llm_protocol/wire.py:91-102 | equal associated data means equal session, counter and bar-joined header; for methods without a bar also equal upper-cased method and equal path |
| Wire.AadCollision | protocol/secure_llm_protocol/wire.py:91-102 | every method with a bar shares its associated data with another method and path |
| Envelopes.NonceForInjective | server/secure_llm_server/crypto/envelope.py:51-56 | under one key direction different 64-bit counters give different nonces |
| Envelopes.NonceLayout | server/secure_llm_server/crypto/envelope.py:51-56 | a nonce is the direction's four-byte prefix and then the big-endian counter |
| Envelopes.SealExtendsLog | server/secure_llm_server/crypto/envelope.py:59-76 | sealing never changes what an earlier ciphertext opens to |
| Envelopes.SealThenOpen | client/secure_llm_client/crypto/envelope.py:49-80 | what one side seals the other opens to the same counter and plaintext, in the same context, under any later log |
| Envelopes.OpenIsLogged | server/secure_llm_server/crypto/envelope.py:79-105 | whatever opens was sealed under that key for that session, counter, method and path |
| Sessions.InMemorySessionStore.Lookup | server/secure_llm_server/session/store.py:73-77 | a session is found exactly when it is stored and not expired |
| Sessions.InMemorySessionStore.ReapExpired | server/secure_llm_server/session/store.py:92-98 | reaping removes exactly the expired sessions and counts them |
| Sessions.SessionManager.Create | server/secure_llm_server/session/manager.py:85-101 | a created session is stored under its id with an empty window and counters at zero; no other entry changes |
| Sessions.SessionManager.LookupAsync | server/secure_llm_server/session/manager.py:111-124 | a returned session is stored, unexpired at the last check and not closed; one that was found and expires before the last check ends closed with zeroed keys and is deleted |
| Sessions.SessionManager.CloseAndDelete | server/secure_llm_server/session/manager.py:119-123 | the session is closed, both keys are zero, its entry is gone and every other entry is as before |
| Sessions.SessionManager.Terminate | server/secure_llm_server/session/manager.py:129-137 | answers whether a live session was found and leaves it closed with zeroed keys |
| Router.DecryptRequest | server/secure_llm_server/routers/_envelope_dep.py:48-117 | on the heap, the receive step answers and leaves the session table as the value-level step does, in every error branch; after a delivery the session is found exactly while this use is within its ttl and its creation within the maximum lifetime |
| Router.AdmitRequest | server/secure_llm_server/routers/_envelope_dep.py:77-105 | the window moves before the envelope is opened, so a refused envelope still uses up its counter; a delivery sets the last use, nothing else does |
| Router.DeliveryRenews | server/secure_llm_server/routers/_envelope_dep.py:104-109 | after any delivery its session is found exactly while that use is within the ttl and its creation within the maximum lifetime |
| Router.RefusalRenewsNothing | server/secure_llm_server/routers/_envelope_dep.py:68-103 | whatever the outcome, every session it was not delivered to is found as long as before |
| Router.AnsweredBecause | server/secure_llm_server/routers/_envelope_dep.py:48-117 | each refusal has its one cause, looked for in the order of parsing, session, counter, seal and schema; a request without any of them is delivered with what it was sealed from |
| Router.EncryptResponse | server/secure_llm_server/routers/_envelope_dep.py:120-147 | each response takes the next counter and is sealed under the session's own response key or the override |
| Channel.AuthenticAtMostOnce | server/secure_llm_server/routers/_envelope_dep.py:48-117 | over every run against a network that duplicates, reorders, drops and injects, deliveries map one-to-one into what clients sealed, with the same session, counter and plaintext, and the same method and path when neither method holds a bar |
| Channel.CallDelivered | client/secure_llm_client/transport.py:166-201 | over every such run one client call is delivered at most once, unless it tried again and both its envelopes were delivered |
| Channel.RunKeeps | server/secure_llm_server/routers/_envelope_dep.py:48-117 | handshakes, sends, deliveries, responses, closes and reaps all keep the channel invariant |
| Channel.DeliveryWasSent | server/secure_llm_server/routers/_envelope_dep.py:84-96 | an envelope that opens on a stored session was sealed by that session's client |
| Kdf.HkdfExpand | server/secure_llm_server/crypto/kdf.py:20-30 | the loop ends and yields T(1), T(2), ... of section 2.3 of RFC 5869 cut to length, refusing exactly the lengths over 255 blocks |
| Kdf.Hkdf | server/secure_llm_server/crypto/kdf.py:14-34 | extract and expand equal sections 2.2 and 2.3 of RFC 5869, an empty salt read as 32 zeros |
| Kdf.ClientHkdf | client/secure_llm_client/crypto/kdf.py:13-24 | the client's twin equals the same function on every input and refuses the same lengths, although it has no length check |
| Transcripts.DecimalInjective | server/secure_llm_server/crypto/handshake.py:85 | different integers print differently and without separators |
| Transcripts.BaseJoined | server/secure_llm_server/crypto/handshake.py:67-87 | the base transcript is the join by NUL of its nine fields |
| Transcripts.FullJoined | server/secure_llm_server/crypto/handshake.py:90-103 | the full transcript is the join by NUL of the base and its six fields |
| Transcripts.BaseInjective | server/secure_llm_server/crypto/handshake.py:67-87 | equal base transcripts have equal keys, host and timestamp, whatever bytes the host holds |
| Transcripts.FullInjective | server/secure_llm_server/crypto/handshake.py:90-103 | equal full transcripts also have equal server keys and session ids |
| Handshake.HonestRequestAccepted | server/secure_llm_server/crypto/handshake.py:123-161 | an honest request is accepted if and only if its timestamp is within the skew, its client is listed and current with that signing key, and its host has no white space at its ends; an empty host passes only if the server expects none or a blank one |
| Handshake.HonestRefusals | server/secure_llm_server/crypto/handshake.py:123-161 | an honest request is refused with the error of its own first fault, and never for its version or its encoding |
| Handshake.Agreement | client/secure_llm_client/crypto/handshake.py:130-241 | when the server accepts, the client completes if and only if its pin matches; both then hold the same session id, lifetime, keys and prefixes, and these are the 72 bytes derived from the ephemeral share followed by the static share under the full transcript |
| Handshake.SlicesPartition | server/secure_llm_server/crypto/handshake.py:176-183 | the two keys and the two prefixes are disjoint slices that make up all 72 bytes |
| SessionKeys.ServerKeys | server/secure_llm_server/crypto/handshake.py:163-193 | the server's keys and prefixes, in order, are the HKDF output over its ephemeral share with the request's ephemeral key followed by its static share with the client's static key, salted with the full transcript; the response announces those prefixes, and the session gets its entry's tenant and scopes |
| SessionKeys.ClientKeys | client/secure_llm_client/crypto/handshake.py:212-241 | the client's are the same output over its shares with the response's ephemeral key and the pinned static key |
| SessionKeys.KeysBind | server/secure_llm_server/crypto/handshake.py:163-183 | equal request keys mean an equal ephemeral share, an equal static share and an equal transcript, or HMAC collides at one of the two places where these derivations use it |
| SessionKeys.SameKeySameHandshake | server/secure_llm_server/crypto/handshake.py:123-205 | whatever the network changed, a server and a client with the same key had the same session id, keys, host and time, or HMAC collides there |
| Exchange.KeysMatch | server/secure_llm_server/session/manager.py:85-101 | after an honest handshake the stored session and its client have the same id and the same keys in each direction |
| Exchange.FirstRequest | server/secure_llm_server/session/manager.py:85-101 | the first request on the new session is delivered as it was sealed exactly while the session is within its ttl, the default one if the handshake gave none, and its maximum lifetime, and the body is valid |
| Exchange.FirstReply | server/secure_llm_server/routers/_envelope_dep.py:120-147 | the client reads back the server's first reply; the session has its client's tenant, fingerprint and scopes |
| Handshake.AcceptedIsSigned | server/secure_llm_server/crypto/handshake.py:123-161 | a request is accepted if and only if its version is known, its timestamp within the skew, its keys have 32 bytes, its client is listed and current, and that client's signing secret signed exactly its keys, effective host and timestamp |
| Handshake.SignatureBindsFields | server/secure_llm_server/crypto/handshake.py:139-161 | a signature made for some fields is accepted with no others, whatever the network changes |
| Handshake.ResponseAccepted | client/secure_llm_client/crypto/handshake.py:130-241 | a response is accepted if and only if it carries the pinned key, its prefixes are the derived ones, and the signing key that it names itself signed the transcript |
| Handshake.AnySignerAccepted | client/secure_llm_client/crypto/handshake.py:143-177 | an accepted response stays accepted, with the same session, when any other signing key takes the server's place |
| Handshake.ClientSecretSuffices | client/secure_llm_client/crypto/handshake.py:130-241 | a response made from the client's static secret and the server's public key alone is accepted, and its maker holds the session's keys |
| ClientReplay.ReplayClient.Check | client/secure_llm_client/transport.py:59-67 | a counter is refused exactly when remembered; the set stays within 4096 and covers what was accepted |
| ClientReplay.RepeatsRefused | client/secure_llm_client/transport.py:59-67 | for every sequence and any number of trims the set stays within 4096, a repeat of any of the 2048 largest accepted counters is refused and a new counter never is |
| ClientReplay.NewestAreLargest | client/secure_llm_client/transport.py:65-67 | a trim keeps exactly 2048 members, all above every dropped one |
| ClientReplay.DroppedAcceptedAgain | client/secure_llm_client/transport.py:65-67 | right after a trim a counter is acceptable again if and only if 2048 larger ones are remembered |
| Transport.Client.SessionState | client/secure_llm_client/transport.py:143-147 | a handshake happens only without a session, and starts both the counter and the replay memory afresh |
| Transport.Client.SealNext | client/secure_llm_client/transport.py:177-187 | each envelope takes the next counter, so no counter is used twice in one session |
| Transport.Client.DecodeResponse | client/secure_llm_client/transport.py:294-354 | every answer is decoded as specified, in all error branches, and only an authentic one reaches the replay check |
| Transport.Client.Request | client/secure_llm_client/transport.py:166-201 | at most two envelopes go out, each the request's own body sealed for its session; the second only after an answer of status 400 or 401 that reads as a lost session, whoever sent it, and under the next session and counter 1; the answer is what the last response decodes to, or the failure of the handshake that was needed |
| Transport.HonestRequestDelivered | server/secure_llm_server/routers/_envelope_dep.py:48-117 | an honest envelope is delivered, with its own body, if and only if its session is live, its counter acceptable and its body valid |
| Transport.ResponseDecoded | client/secure_llm_client/transport.py:320-354 | the client reads back a sealed response unless it has seen that counter |
| Transport.SealedAnswer | client/secure_llm_client/transport.py:320-354 | a sealed answer of any status with an error code, under an error status or in the shape of an error, fails with that code and is never data; any other that parses is data, an empty one included |
| Transport.DataWasSealed | client/secure_llm_client/transport.py:294-354 | whatever answer arrives, data was sealed under the session's response key for that session, method and path |
| Transport.UnsealedAnswers | client/secure_llm_client/transport.py:294-354 | when the session sealed nothing, a 204 is a success whatever comes with it, a plain error fails with its code, an envelope fails to decrypt, and anything else is an internal error; the replay memory stays as it is |
| Transport.HonestRetry | server/secure_llm_server/routers/_envelope_dep.py:57-109 | of the server's own answers exactly that to an unknown session makes the client try again |
| Transport.ForgedRetry | client/secure_llm_client/transport.py:191-201 | whenever the first envelope is delivered and its answer is replaced by a plain 401, the retry delivers the same body once more if the new session is live |
| Responses.SendReplies | server/secure_llm_server/routers/_envelope_dep.py:138-147 | however responses, chunks and a close interleave, the k-th reply goes out under the k-th next counter and under the keys the session has then, or the saved ones, and is remembered by the log |
| Responses.NoncesDistinct | server/secure_llm_server/crypto/envelope.py:51-56 | while one session object serves, no nonce repeats, closed or not and whatever keys were saved; across a hand-over see `ResponseFailover` |
| Responses.ReplyOpens | client/secure_llm_client/transport.py:262-269 | a reply opens, under the keys it was sealed with, to its own counter and body |
| Responses.ForeignReplyRefused | client/secure_llm_client/crypto/envelope.py:64-80 | a reply sealed under other keys is refused by a client whose key was never used with that nonce |
| Responses.FirstArrivalsAccepted | client/secure_llm_client/transport.py:59-67 | distinct new counters are accepted in any order of arrival, across any number of trims |
| Responses.RepliesAccepted | client/secure_llm_client/transport.py:59-67 | the replay check of a new client accepts the counters 1, 2, 3, ... of a session in any order, each the first time it comes |
| ResponseFailover.HandOver | server/secure_llm_server/routers/_envelope_dep.py:104-140 | after n replies since the last write, a cold instance finds the same key and the written counter, its first replies use the same nonces as those n, and all are distinct exactly if one of the two did not reply |
| ResponseFailover.ServeCounters | server/secure_llm_server/session/redis_store.py:84-161 | on a live session the receive step takes the counter from the cache or the record, and only a delivery writes it back |
| ResponseFailover.CountersRepeat | server/secure_llm_server/routers/_envelope_dep.py:104-140 | over every run of deliveries, refusals, replies and restarts with one owner at a time, no response counter is used twice if and only if no instance replies that hydrated a record older than a reply |
| ResponseFailover.FailoverRepeats | server/secure_llm_server/routers/_envelope_dep.py:104-140 | deliver, reply, fail over, deliver, reply uses counter 1 twice |
| ResponseFailover.RepeatKeepsSession | client/secure_llm_client/transport.py:191-201 | the client reports a repeated counter as a replay and keeps its session, without a new handshake |
| RedisStore.RoundTrip | server/secure_llm_server/session/redis_store.py:61-106 | a record restores everything but the bitmap, and the restored window accepts exactly the counters above the watermark less 1024 |
| RedisStore.RedisSessionStore.LookupCached | server/secure_llm_server/session/redis_store.py:129-135 | a lookup answers a cached live session and drops an expired one |
| RedisStore.RedisSessionStore.HydrateFromBroker | server/secure_llm_server/session/redis_store.py:140-152 | cached, fetched, expired and missing sessions each leave cache and broker as specified |
| RedisStore.RedisSessionStore.PutThrough | server/secure_llm_server/session/redis_store.py:154-161 | a put writes the cache and a record whose life is what remains of the session, at least the floor |
| RedisStore.RedisSessionStore.DeleteRecord | server/secure_llm_server/session/redis_store.py:163-166 | the session is in neither cache nor broker, every other entry is as before, and the answer says whether there was a live record |
| RedisStore.RedisSessionStore.LookupAsync | server/secure_llm_server/session/manager.py:111-124 | over this store the lookup answers and leaves cache and broker as specified, deleting a session that expires on the way |
| RedisStore.RedisSessionStore.TerminateSession | server/secure_llm_server/session/manager.py:129-137 | over this store a termination answers and leaves cache and broker as specified |
| RedisStore.RedisSessionStore.ReapExpired | server/secure_llm_server/session/redis_store.py:168-176 | reaping drops exactly the expired cache entries, counts them and leaves the broker alone |
| Failover.ServeIsServeCounter | server/secure_llm_server/routers/_envelope_dep.py:79-109 | on a live session the store's receive step moves window and watermark as the abstract counter step does |
| Failover.OrderlyRuns | server/secure_llm_server/session/redis_store.py:140-161 | with one owner at a time the persisted watermark never goes back |
| Failover.DeliveredTwice | server/secure_llm_server/session/redis_store.py:84-106 | a counter delivered twice was delivered by different hydrations and lies within 1024 below the later one's watermark |
| Failover.WarmHandBack | server/secure_llm_server/session/redis_store.py:129-135 | two instances taking turns with warm caches deliver a counter twice outside that bound |
| Failover.StaleCache | server/secure_llm_server/session/redis_store.py:129-135 | a delivery moves the watermark back exactly when the serving cache and the counter are both behind it |
| Failover.RepeatFrom | server/secure_llm_server/session/redis_store.py:84-106 | the second delivery of a counter belongs to an instance that hydrated after the first, and the watermark it hydrated is the bound |
| Clusters.WindowsSimulate | server/secure_llm_server/session/redis_store.py:109-176 | every run of several caches over one broker, with requests for any sessions, replies and restarts, is for a live session a run of its window fleet, with the same caches, deliveries and watermark at every prefix |
| Clusters.DeliversTwice | server/secure_llm_server/session/redis_store.py:84-161 | with one owner at a time a counter is delivered twice only if its instance found the session missing from its cache after the first delivery and no later than the second, and it lies within 1024 below the watermark the broker had just then |
| Clusters.WatermarkRises | server/secure_llm_server/session/redis_store.py:140-161 | with one owner at a time the watermark in the broker's record never goes back |
| Clusters.CountersSimulate | server/secure_llm_server/routers/_envelope_dep.py:104-140 | the same runs, with the counters of the replies, are runs of the session's counter fleet |
| Clusters.RepliesRepeat | server/secure_llm_server/routers/_envelope_dep.py:104-140 | over every run of the instances with one owner at a time, no response counter is used twice if and only if no instance replies that hydrated a record older than a reply |
| Reaping.MemReapingUnobservable | server/secure_llm_server/session/store.py:73-98 | with a non-decreasing clock, reaping at any points of a run changes no answer of the in-memory store, the counters of replies of live sessions included |
| Reaping.RedisReapingUnobservable | server/secure_llm_server/session/redis_store.py:129-176 | the same for the broker-backed store |
| Reaping.LookupAgrees | server/secure_llm_server/session/manager.py:111-124 | tables that differ only in expired entries give the same lookup and still do afterwards |
| Reaping.LookupNeverExpired | server/secure_llm_server/session/manager.py:111-124 | on either store and for any clock readings the lookup never answers an expired or closed session |
| Lifetimes.KeptAlive | server/secure_llm_server/session/manager.py:39-52 | over any run of the in-memory store, a session whose deliveries are at most its ttl apart stays, with its keys, and is found exactly until its ttl after the last delivery or its maximum lifetime |
| Lifetimes.LateIsUnknown | server/secure_llm_server/session/manager.py:111-124 | a request for such a session is answered as one for an unknown session exactly when it comes after that |
| Lifetimes.KeptCached | server/secure_llm_server/session/redis_store.py:129-176 | the same over any run of an instance of the broker store that holds the session |
| Lifetimes.ServeRenews | server/secure_llm_server/session/redis_store.py:154-161 | a delivery renews cache and record: the instance finds the session exactly while it is within ttl and lifetime, a cold one too but for the last second |
| Lifetimes.LookupsTidy | server/secure_llm_server/session/redis_store.py:129-152 | a lookup leaves no expired entry in the cache; a hydration leaves what it found in the cache and no expired record in the broker |
| Lifetimes.RefusalKeeps | server/secure_llm_server/routers/_envelope_dep.py:77-103 | a refusal changes no record, and the instance finds the session as long as before |
| Lifetimes.ExpiredIsDeleted | server/secure_llm_server/session/manager.py:111-124 | a session that is found but has expired by the second look is gone from the table, and on the broker store from cache and broker |
| Lifetimes.TerminateRemoves | server/secure_llm_server/session/manager.py:129-137 | in memory, terminating a session that is found makes it unknown to every later request and touches no other |
| Lifetimes.TerminateForgets | server/secure_llm_server/session/redis_store.py:163-166 | on the broker store, terminating a session that is reached removes it from cache and broker, so that neither this nor a cold instance finds it again; the answer says whether there was a record |
| Lifetimes.TerminatedElsewhere | server/secure_llm_server/session/redis_store.py:129-161 | another instance that has it cached goes on serving it, and its next delivery brings the record back |
| RateLimit.RateLimiter.Allow | server/secure_llm_server/middleware/rate_limit.py:46-59 | one call decides and refills as the bucket of its key specifies and leaves other keys alone |
| RateLimit.RateBound | server/secure_llm_server/middleware/rate_limit.py:46-59 | in any stretch of any trace at most capacity plus rate times its length is allowed |
| RateLimit.RefusedIff | server/secure_llm_server/middleware/rate_limit.py:46-59 | a request is refused if and only if with it some stretch up to now would exceed that bound |
| RateLimit.MinuteBound | server/secure_llm_server/middleware/rate_limit.py:24-30 | a limit of n requests a minute allows at most its burst, the larger of 10 and n/2, and n for each minute of any stretch |
| RateLimit.PaceAllowed | server/secure_llm_server/middleware/rate_limit.py:24-30 | and never refuses a request that comes 60/n seconds after the one before |
| RateLimit.SpacedAllowed | server/secure_llm_server/middleware/rate_limit.py:53-59 | a request at least 1/rate after the one before it is never refused |
| RateLimit.ErasingRefused | server/secure_llm_server/middleware/rate_limit.py:53-59 | deleting any refused requests from a trace changes no other decision |
| RateLimit.KeysIndependent | server/secure_llm_server/middleware/rate_limit.py:49-52 | the decisions of a key are those of its own requests alone |
| RateLimit.OneBucket | server/secure_llm_server/middleware/rate_limit.py:32-44 | whoever sends the requests, all share one bucket: the decisions depend on their times alone |
| RateLimit.KeySeparates | server/secure_llm_server/middleware/rate_limit.py:35-37 | the key would tell clients and colon-free tenants apart if the request's state were set |
| RateLimit.BurstExactly | server/secure_llm_server/middleware/rate_limit.py:46-59 | of requests that come together, from any tenants and clients, exactly the first ones up to the capacity are allowed |
| ModelCache.ModelManager.EnsureLoaded | server/secure_llm_server/models/manager.py:202-252 | an undisturbed call hits, or evicts and inserts, as specified; unknown models and adapters are refused before any eviction, and each refusal names its cause; for colon-free tenants, models and modes the slot it returns has exactly the name asked for, adapters included, and at least the context asked for |
| ModelCache.CacheKeyInjective | server/secure_llm_server/models/manager.py:214-216 | for colon-free tenants, models and modes equal keys mean equal names, adapters included |
| ModelCache.CacheKeysCollide | server/secure_llm_server/models/manager.py:216 | with a colon in a tenant name its slots have the keys of another tenant's |
| Adapters.FingerprintIff | server/secure_llm_server/models/manager.py:165-169 | for ids without a plus sign two lists of adapters have the same fingerprint if and only if they hold the same ids at the same printed scales, in whatever order |
| Adapters.PlusCrosses | server/secure_llm_server/models/manager.py:169 | an id with a plus sign has the fingerprint of two adapters |
| Adapters.SlotSharedIff | server/secure_llm_server/models/manager.py:214-222 | for plain names two calls share a key if and only if they name the same tenant, model, mode and adapters |
| ModelCache.ModelManager.ForceUnload | server/secure_llm_server/models/manager.py:303-311 | exactly the slots under the prefix leave, in order, each closed once, and the answer says whether there were any |
| ModelCache.ModelManager.Snapshot | server/secure_llm_server/models/manager.py:173-200 | for each catalogued model the first slot that matches by prefix and id |
| ModelCache.PrefixIsPair | server/secure_llm_server/models/manager.py:305-306 | for ids without a colon the prefix test is equality of tenant and model |
| ModelCache.PrefixCrossesTenants | server/secure_llm_server/models/manager.py:216 | with a colon in a tenant name its slots answer to another tenant's prefix |
| ModelCache.PrefixCrossesModels | server/secure_llm_server/models/manager.py:305-306 | with a colon in a model id its slots answer to the prefix of the id before the colon |
| ModelCache.PairExactly | server/secure_llm_server/models/manager.py:173-200 | over plain names, what is selected, rejected and reported is decided by the pair itself |
| ModelCache.FirstMatchIsFirst | server/secure_llm_server/models/manager.py:173-200 | the slot that is reported stands before every other slot of its pair |
| ModelMachine.ReachablePairs | server/secure_llm_server/models/manager.py:303-311 | the same in every map reached by any interleaving of calls for plain ids |
| ModelMachine.HitIsNamed | server/secure_llm_server/models/manager.py:218-222 | where all names are plain a call that hits gets the slot of exactly its name, adapters included |
| ModelService.SlotIsNamed | server/secure_llm_server/models/manager.py:218-222 | the same in every state reached by any run of the map with its workers |
| ModelDrain.UndisturbedForce | server/secure_llm_server/models/manager.py:303-311 | a forced unload that nothing interrupts closes the pair's slots once each, in map order, and keeps all others |
| ModelDrain.UndisturbedShutdown | server/secure_llm_server/models/manager.py:313-316 | a shutdown that nothing interrupts empties the map and closes every resident backend once, oldest first |
| ModelDrain.LoadsAfterShutdown | server/secure_llm_server/models/manager.py:202-252 | after a shutdown a call still loads a model, and no idle timer unloads it |
| ModelLru.ResidentAreMostRecent | server/secure_llm_server/models/manager.py:216-252 | after completed default-context calls the resident keys are the most recently requested distinct ones, in recency order, as many as the cap allows |
| ModelLru.StackProperty | server/secure_llm_server/models/manager.py:238-251 | what is resident under a cap is resident under every larger cap |
| ModelLru.EnsureAccounted | server/secure_llm_server/models/manager.py:216-252 | a call leaves every backend resident or closed once if and only if it does not overwrite a resident slot; with the default context it never does |
| ModelLru.OverwritesIff | server/secure_llm_server/models/manager.py:216-252 | a call overwrites a resident slot exactly when it misses with its key resident and that slot is not the one evicted |
| ModelLru.HitExactly | server/secure_llm_server/models/manager.py:218-222 | a call is answered from the map exactly if the slot of its key is there with context enough |
| ModelLru.ClosedOnce | server/secure_llm_server/models/manager.py:396-413 | over every run of completed default-context calls each backend is resident or closed, once |
| ModelMachine.StepKeeps | server/secure_llm_server/models/manager.py:202-252 | any step of any call, wake-up, drain, forced unload, shutdown, idle timer or cancellation keeps the cap, unique keys, one loader per key and the names of slots |
| ModelMachine.ReachableKeeps | server/secure_llm_server/models/manager.py:202-252 | in every reachable state at most `max_loaded` slots are resident, under every interleaving at await points |
| ModelBooks.StepBooks | server/secure_llm_server/models/manager.py:396-413 | with default contexts a step keeps the account of backends if and only if it does not end an unload of a slot already closed |
| ModelBooks.RunBooks | server/secure_llm_server/models/manager.py:396-413 | over any interleaved run every backend is resident or closed once if and only if no unload ends on a closed slot |
| ModelBooks.GuardedRunBooks | server/secure_llm_server/models/manager.py:424-428 | if no unload begins on a slot whose unload has begun, which is what the idle timer tests, the account holds over the whole run |
| ModelBooks.QuietRunBooks | server/secure_llm_server/models/manager.py:396-428 | for runs that cancel nothing and end with no unload under way, the account holds if and only if no unload began on a slot already unloading |
| ModelBooks.EvictedTwice | server/secure_llm_server/models/manager.py:239-242 | on a full map any two calls for different missing keys close the oldest backend twice |
| ModelBooks.StaleUnloadLeaks | server/secure_llm_server/models/manager.py:409-410 | an unload of a closed slot whose key was loaded again drops the new slot unclosed, because it pops by key |
| ModelBooks.ForcedUnloadLeaks | server/secure_llm_server/models/manager.py:303-311 | a forced unload of two slots overtaken by an idle unload and a reload ends with a backend that is neither resident nor closed |
| ModelBooks.LeakFromStart | server/secure_llm_server/models/manager.py:303-311 | such a run exists from the start for any two slots of one model under different keys |
| ModelBooks.OverwrittenFromStart | server/secure_llm_server/models/manager.py:219-251 | from the start, a second call with a larger context leaves the first backend neither resident nor closed |
| ModelBooks.UndisturbedCallIsEnsure | server/secure_llm_server/models/manager.py:202-252 | the steps of one undisturbed call have the effect of the completed call of the LRU model |
| ModelBooks.LoadedOnce | server/secure_llm_server/models/manager.py:232-252 | two calls for one missing key on a full map evict one slot and load one backend, which both get |
| ModelBooks.FailedLoadEnds | server/secure_llm_server/models/manager.py:243-252 | a load that fails leaves the map and every other call as they were |
| ModelStranded.NoneStranded | server/secure_llm_server/models/manager.py:396-413 | in runs with default contexts that cancel nothing and keep the account, no resident slot is marked as unloading without an unload of it under way |
| ModelStranded.CancelStrands | server/secure_llm_server/models/manager.py:396-410 | cancelling a call inside the unload of a resident slot leaves it so exactly when no other call is unloading it |
| ModelStranded.StrandedStays | server/secure_llm_server/models/manager.py:424-428 | a stranded slot stays resident until a new eviction, forced unload or shutdown begins on it or an unload of an older slot with its key ends; the idle timer never begins one |
| ModelStranded.StrandedHandsOut | server/secure_llm_server/models/manager.py:218-222 | meanwhile every call for its key with the default context gets it at once |
| ModelStranded.StrandedFromStart | server/secure_llm_server/models/manager.py:303-311 | load, begin a forced unload, cancel it: no call is left and the slot is stranded |
| ModelStuck.CancelSticks | server/secure_llm_server/models/manager.py:403-408 | cancelling a call inside an unload takes the slot's worker with it exactly when the call is past its stop signal and the worker has neither returned nor died, and then the slot is stuck |
| ModelStuck.StuckForever | server/secure_llm_server/models/manager.py:396-428 | no later run of default-context calls, unloads, cancellations and time limits closes a stuck slot or takes it from the map; with a cap of one no model is ever loaded again |
| ModelStuck.StuckHandsOut | server/secure_llm_server/models/manager.py:218-222 | every default-context call for its key gets it, and no job of theirs is ever run or answered |
| ModelStuck.StuckFromStart | server/secure_llm_server/models/manager.py:303-311 | load, begin a forced unload, cancel it: the slot is stuck |
| Worker.WorkerSettles | server/secure_llm_server/models/manager.py:450-499 | the worker returns only at the stop signal; the jobs ahead of it have run in the order they were queued and each is settled once unless its caller had cancelled: with the backend's own value if it is an embedding or not streamed, with a handle on the generator's chunks if it is, or with the backend's own error; jobs behind it are untouched; settled futures never change |
| Worker.LastErrorReported | server/secure_llm_server/models/manager.py:481-499 | the error a slot reports is that of the last job that left one, cut to 200 characters, and none if none did |
| Worker.CancelledStays | server/secure_llm_server/models/manager.py:446-499 | a caller that cancels before the worker comes is never answered and gets no stream |
| Worker.PumpedCarries | server/secure_llm_server/models/manager.py:482-495 | a stream holds the generator's chunks in order, all with its error or exactly those before the cancellation, and one end |
| Worker.ServedIffAhead | server/secure_llm_server/models/manager.py:403-455 | a submitted job is never run if the stop signal was queued before it; otherwise it is answered by the time the worker returns |
| ModelService.RunKeeps | server/secure_llm_server/models/manager.py:396-455 | over every run of the map with all its workers each slot's queue, futures and order stay sound, and an unload past its stop signal has put it into its own slot's queue |
| ModelService.AskedJob | server/secure_llm_server/models/manager.py:218-222 | a request that finds room in the queue of its slot is accepted; if the slot had its stop signal the job is never run or answered, whatever follows; if it had none it is answered by the time the worker takes the stop signal |
| ModelService.LateJobFromStart | server/secure_llm_server/models/manager.py:303-311 | load, begin a forced unload, ask: that request is never answered |
| Worker.ServeGood | server/secure_llm_server/models/manager.py:456-499 | serving the next job keeps all of that, whether the backend returns, raises or streams |
| Worker.SubmitRefusedIffFull | server/secure_llm_server/models/manager.py:430-448 | a submission is refused exactly when the bounded queue is full, and then changes nothing |
| Worker.ModelSlot.WorkerLoop | server/secure_llm_server/models/manager.py:450-499 | the loop with its queue, futures and exception paths computes the specified run; every caller whose job ran, and who had not cancelled, has the backend's own value, error or stream |
| Worker.ModelSlot.Pump | server/secure_llm_server/models/manager.py:482-495 | the chunks up to the cancellation, or all of them and the generator's error, always followed by one end item |
| Streaming.SealChunk | server/secure_llm_server/llm/streaming.py:51-70 | a chunk is sealed under the session's next counter and present keys and framed as one event |
| Streaming.StreamChatEnvelopes | server/secure_llm_server/llm/streaming.py:100-166 | the loop emits the specified messages, in every schedule of timeouts, chunks, cancellation and a close of the session, and the marker exactly when it ends; if every chunk validates that is the next chunk for each wake-up by one and a keepalive for each timeout, up to the place where it must stop |
| Streaming.EncoderSends | server/secure_llm_server/llm/streaming.py:136-166 | up to a cancellation or the wake-up behind the last chunk the encoder sends exactly one keepalive for each timeout and the next chunk for each other wake-up, under exactly the counters its turns have reached; there it ends, or raises if the generator had |
| Streaming.ChunksSent | server/secure_llm_server/llm/streaming.py:136-166 | without a cancellation it sends as many chunks as there were wake-ups, up to all of them |
| Streaming.EmitFaithful | server/secure_llm_server/llm/streaming.py:136-158 | whatever times out, the chunks emitted are those of the stream in order; the ending says how many and why |
| Streaming.EmitKeys | server/secure_llm_server/llm/streaming.py:61-69 | messages are sealed under the session's keys until it is closed, and under the zeroed ones ever after |
| Streaming.LiveBeforeClose | server/secure_llm_server/llm/streaming.py:100-166 | the messages under the session's keys are exactly those emitted before the first close |
| StreamClient.StreamRequest | client/secure_llm_client/transport.py:248-270 | the reader yields the specified messages and stops for the specified reason, keeping its replay memory |
| StreamClient.EmissionRead | client/secure_llm_client/transport.py:248-270 | the client yields exactly the messages sealed before the session was closed; it ends unauthenticated at the first after that, and otherwise complete if and only if the marker was sent |
| StreamClient.MarkerOnce | server/secure_llm_server/llm/streaming.py:166 | the end marker appears once, last, and only when the encoder ended |
| StreamClient.WholeStream | server/secure_llm_server/models/manager.py:475-495 | through worker, handle, encoder and client, what the client yields without keepalives is a prefix of the generator's chunks in order, those sealed before any close; it is all of them, with no error, if it completes and nothing was cancelled; and if nothing is cancelled or closed and every chunk is awaited and one more, all of them arrive and it completes exactly if the generator did not raise |
| StreamClient.StreamAlone | server/secure_llm_server/llm/streaming.py:61-69 | a stream of a session whose counters were used and seen only up to its start meets the hypotheses of `WholeStream` by itself |
| StreamClient.ClosedUnderZeroKey | server/secure_llm_server/session/manager.py:154-170 | once a session was closed every later message of its stream is under the all-zero key |
| StreamClient.YieldedWasSealed | client/secure_llm_client/transport.py:248-270 | over arbitrary lines every message yielded was sealed for that session, method and path under the counter of its own envelope, and two share a counter only if 2048 larger ones were accepted before the second |
| StreamClient.SealedLine | client/secure_llm_client/transport.py:250-270 | a line that carries what was sealed for the session yields its message, an empty one for an empty body, or ends the stream for want of JSON; with a counter seen before it ends as a replay |
| StreamClient.UnsealedLine | client/secure_llm_client/transport.py:256-261 | a line that is no base64, or was never sealed, ends the stream with that error and leaves the replay memory as it is |
| StreamClient.CommentsIgnored | client/secure_llm_client/transport.py:250-255 | blank lines, comments and other fields change nothing wherever they stand |
| StreamClient.AnyChoiceReads | client/secure_llm_client/transport.py:256-257 | any choice of a session's frames for one method and path, in any order and cut off anywhere, reads as a complete stream |
| SharedReplay.NextLine | client/secure_llm_client/transport.py:250-270 | a stream's reader checks each line against the memory the transport has at that moment |
| SharedReplay.RefusedLine | client/secure_llm_client/transport.py:262-269 | a line ends its stream as a replay exactly when it is authentic and its counter is in the memory, whichever session brought it |
| SharedReplay.MemoryOf | client/secure_llm_client/transport.py:135-141 | after any run of handshakes, lines and answers of any sessions the memory stands for exactly the counters of the authentic envelopes since the last handshake, and holds all of them up to 4096 |
| SharedReplay.FirstArrivalRefused | client/secure_llm_client/transport.py:262-269 | an authentic reply that comes first since the handshake is refused only if a reply of another session brought its counter since, and exactly then while 4096 counters came at most |
| SharedReplay.RepeatRefused | client/secure_llm_client/transport.py:59-67 | a repeat since the handshake is refused unless 2048 larger counters were accepted since |
| SharedReplay.HandshakeForgets | client/secure_llm_client/transport.py:135-141 | after a handshake any envelope read before it is accepted once more on its old stream |
| SharedReplay.OldStreamRefusesReply | client/secure_llm_client/transport.py:262-269 | a message of an old stream read after a handshake makes the client refuse the new session's own reply with that counter, both authentic |

## Left out

- Channel.AuthenticAtMostOnce: methods and paths of a delivery are only equal as bar-joined text when a method holds a bar, because the associated data does not separate them.
- Channel.RunKeeps: responses are sealed with any counter rather than the session's next one, which allows more runs; `Responses` has the exact counters.
- Failover.OrderlyRuns: assumes one owner at a time and writes landing in order; network failures of the broker and concurrent cold hydrations of one session are not modelled.
- RedisStore.RedisSessionStore.HydrateFromBroker: the cache holds session values, not references, so an object held by a request after its entry was dropped is not captured.
- RateLimit.RateLimiter.Allow: buckets are map values rather than objects, tokens and time are reals; the 429 answer is not modelled.
- ModelLru.ClosedOnce: stated for default contexts; `EnsureAccounted` has the exact condition for explicit ones.
- ModelBooks.RunBooks: stated for runs whose calls use the default context, because an overwritten slot may be closed later by a stale unload and so the account can recover.
- ModelMachine.ReachableKeeps: a cap of at least one is required; with zero the eviction loop asks an empty map for its first entry and raises.
- ModelCache.ModelManager.EnsureLoaded: registry and adapter lookups are inputs; decryption to tmpfs, the backend constructor and the metrics are not modelled.
- Worker.WorkerSettles: liveness is not claimed; a consumer that never drains its stream queue blocks the worker.
- Reaping.MemReapingUnobservable: the counter of a reply is compared while its session is live; a request that outlives its session seals on an object that is in no store.
- Streaming.EmitFaithful: for the stream handles the chat route passes; plain iterables, which lose a chunk when a keepalive abandons a pending read, are only used without a worker and are not modelled. A chunk's normalisation is a partial function given as input.
- StreamClient.StreamRequest: it reads only, the sealing of its request is that of `Transport.Client.SealNext`; splitting the response into lines is not modelled, nor is the decoding of a response with another status than 200, which `Transport.Client.DecodeResponse` covers.
- StreamClient.WholeStream: what other requests do to the client's replay memory while a stream is read is a hypothesis, that no other reply takes one of the stream's counters; `StreamAlone` meets it for a stream that is the only sender, and `SharedReplay` follows the memory line by line.
- ModelService.AskedJob: a worker that is cancelled in the middle of a job leaves that job in the queue here, unanswered in either case; what it does to the stream of that job is not modelled.
- ModelStuck.StuckForever: stated for default contexts, since a larger context overwrites the slot; a worker is cancelled at once, while the code lets it reach its next await first.
- ModelBooks.QuietRunBooks: runs that cancel a call are outside the equivalence, since a cancelled unload may be begun again without closing twice.
- Clusters.WindowsSimulate: the session stays live at every request for it.
- Transport.Client.Request: one request at a time; the lock between threads, `reset_session` and HTTP failures are not modelled.
- Handshake.Agreement: attestation is absent on both sides; low-order points, which the exchange may refuse, are outside the assumed laws.
- Sessions.SessionManager.LookupAsync: over the in-memory store, `RedisStore.RedisSessionStore.LookupAsync` is over the other; the lock of `create` and `terminate` is never contended in memory because nothing suspends inside it.
- Adapters.FingerprintIff: a scale is an integer of ten-thousandths, as it prints; a negative zero, which prints with its sign, is not modelled.
- Lifetimes.KeptCached: the instance has the session cached; a hydrated one starts there.
- The insides of X25519, Ed25519, ChaCha20-Poly1305, HMAC and SHA-256, key fingerprints, and wiping of key memory.
- Latency floors on refused requests, timing, and every other real-time matter.
- HTTP routing, scopes and roles, audit logs, metrics, configuration, the command-line tools, downloads and encryption at rest.
- The registries of models and adapters, allowlist files, known hosts, body-size limits, ring logs and error trackers: sound but simpler than what is here.
