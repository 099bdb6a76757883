# Verified model of the AOS operator

This project models the stateful and arithmetic core of the AOS operator in Dafny and proves what
that core is for. It has five parts.

1. **Vector clock** (`OrdinaryClock`, `ClockRun`, `ClockDigest`). A clock is a finite map from u64
   ids to u32 counters. A run is a sequence of events, each made by `update` from the process's own
   last clock (or a genesis clock) and received clocks. `partial_cmp` decides Lamport's happens-before,
   defined independently by paths of own-predecessor and receive edges, in exactly the runs in which
   no process has 2^32 events; there `reduce` is the size of the causal past in u32 arithmetic. The
   digest preimage of a clock is injective and prefix-free.
2. **Websocket correlation** (`WsProtocol`, `WsRuns`, `WsConnection`). Requests, the receive loop,
   timeouts, cancellation and the two halves of `close` are atomic steps that interleave freely. A
   request may clone the core before a close and register after it. The invariant says where every
   unused oneshot sender is; the run theorems follow from it. `WsConnection` is the shared object,
   updated in place, each method proved to be one step of a ghost copy of the protocol state;
   `RequestTimeout` and `ReceiveResponses` put the steps together.
3. **ECVRF and sortition** (`Curve`, `Ecvrf`, `EcvrfTranscript`, `VrfUniqueness`, `Hex`, `Sortition`,
   `VrfRange`, `VrfReply`). The curve is a record of functions with the laws of a commutative group in which
   every point is killed by 8·L and the base point by L. Scalar multiplication is repeated addition
   and its laws are proved. The cofactor is kept: gamma may have a component of small order.
   `ScalarGroup` shows that the laws can be met.
4. **Signature codec** (`Rlp`, `Signature`). EIP-155 `v` arithmetic in u64 and the canonical RLP
   integers of Appendix B of the Ethereum Yellow Paper.
5. **Job pipeline** (`RedisStream`, `Dispatch`, `Redelivery`, `DispatchLoop`, `Rendezvous`, `HubStall`,
   `HubServer`, `JobResult`). An at-least-once queue with any number of dispatch loops and crashes, when
   a message can be taken up again, the callback rendezvous under the hub's read-write lock, when a
   timed-out question can still return, and the result of one job.

`Wrappers`, `MachineInts`, `FiniteSets`, `Arithmetic`, `Bytes` and `Decimal` hold stock datatypes,
integer widths, set sizes, remainders, byte-string integers and decimal strings.

## Conventions

- Integer arithmetic wraps, as in the release build the repository's README asks for. Where the
  wrapping could matter the condition under which it does not is part of the theorem.
- A panic, or a loop that never ends, is the result `None` (or `Diverges` for `verify`).
- A state machine is a state, an `Enabled` predicate and an `Apply` function. A run is a sequence of
  states from `Init`, each following by an enabled action. Some actions are allowed more often than
  the program performs them (a timeout although a reply is there, a `close` at any moment), so the
  theorems cover more interleavings than occur.
- Loops and objects that the source updates in place are methods and classes here, each proved
  against the function the lemmas are about.

## Results that differ from the source's own description

- `msg_queue.rs:49` says a message gets a unique id. The id is the current millisecond, so a second
  message of the same millisecond is refused; `Dispatch.AcceptedIffAboveAll` states exactly when.
  The refusal is ignored by the caller, which still replies 200.
- A queued job may start more than once. In every reachable state a message can be taken up (again) if
  and only if it is still in the stream or a loop has fetched and not yet parsed it
  (`Redelivery.TakenUpAgainIffNotOutOfReach`); a single loop that never crashes and whose
  acknowledgements all delete takes up each message once (`DispatchLoop.SingleWorkerIsExactlyOnceInOrder`).
- A timed-out TEE question is meant to clean up and return. It can, without some callback being cut
  off from outside, if and only if every timed-out TEE handler has at most one callback in its slot or
  holding the lock for it (`HubStall.ReturnsIffNoneStalled`); with two, one of them holds the lock that
  the clean-up needs.
- The result of an executed job carries the empty default VRF reply, which reads "not selected"
  (`JobResult.ResultOfJob`).
- The clock of a result lies above the dispatched clock exactly when the entries that were not
  chosen are zero (`JobResult.ResultAboveDispatched`).
- `reduce` respects the order below a clock if and only if the clock's sum fits a u32
  (`OrdinaryClock.ReduceIsMonotoneIffSumFits`), and the order decides happens-before if and only if no
  process of the run has 2^32 events (`ClockRun.OrderIsExactIffNoOverflow`).
- The adjusted range never underflows for start ≤ end, but the default range is the contract's only
  after a round trip through f64 (`VrfRange.DefaultUnderflow`).

## Model

| member | source | states |
|---|---|---|
| OrdinaryClock.Update | crates/common/src/ordinary_clock.rs:58-62 | the loop over the received clocks and the in-place increment give the fold of `merge` with the own entry one further |
| OrdinaryClock.FoldMergeIsMaximum | crates/common/src/ordinary_clock.rs:41-59 | every entry of the fold is the maximum over the own clock and all received ones, and its keys are all their keys |
| OrdinaryClock.MergeIsLeastUpperBound | crates/common/src/ordinary_clock.rs:41-56 | `merge` is the least upper bound of the order, with the union of the keys |
| OrdinaryClock.UpdateSetOnly | crates/common/src/ordinary_clock.rs:58-62 | the result depends only on the set of received clocks, not on their order or repetition |
| OrdinaryClock.UpdateEntry | crates/common/src/ordinary_clock.rs:58-62 | entry by entry: every other entry is the largest one seen, the own entry that plus one in u32 arithmetic, and the keys are all keys seen and the own id |
| OrdinaryClock.UpdateIsStrictlyAbove | crates/common/src/ordinary_clock.rs:58-62 | the result is strictly above the own clock and every received clock if and only if the merged own counter is not u32::MAX |
| OrdinaryClock.Ge | crates/common/src/ordinary_clock.rs:77-90 | the early-returning loop decides the entrywise order in which a missing entry counts as zero |
| OrdinaryClock.PartialCmp | crates/common/src/ordinary_clock.rs:75-98 | the four cases of `partial_cmp` are the comparison induced by that order |
| OrdinaryClock.PartialCmpIsPreorder | crates/common/src/ordinary_clock.rs:75-98 | reflexive, transitive and antisymmetric up to zero entries: Equal exactly for clocks that agree after dropping them |
| OrdinaryClock.GenesisIsBottom | crates/common/src/ordinary_clock.rs:37-39 | `is_genesis` holds exactly for the bottom elements of the order |
| OrdinaryClock.ReduceIsStrictlyMonotone | crates/common/src/ordinary_clock.rs:115-119 | along the order the sum grows strictly whatever the key sets, and equivalent clocks reduce alike |
| OrdinaryClock.ReduceWraps | crates/common/src/ordinary_clock.rs:115-119 | below every clock whose sum exceeds a u32 there is a strictly smaller one that does not reduce to less |
| OrdinaryClock.ReduceIsMonotoneIffSumFits | crates/common/src/ordinary_clock.rs:115-119 | `reduce` is smaller for everything below a clock if and only if the clock's sum fits a u32 |
| ClockRun.PastIsHappensBefore | crates/common/src/ordinary_clock.rs:58-62 | the recursive causal past of an event is the reflexive closure of happens-before, the existence of a path of own-predecessor and receive edges |
| ClockRun.EveryClockCounts | crates/common/src/ordinary_clock.rs:58-62 | as long as no process has 2^32 events, the own entry counts the own events and no entry runs ahead of its process |
| ClockRun.EveryClockTracks | crates/common/src/ordinary_clock.rs:58-62 | then an event is in the past of another exactly when its number is within that clock's entry for its process |
| ClockRun.EntryCountsPast | crates/common/src/ordinary_clock.rs:58-62 | entry p of an event's clock is the number of p's events in its causal past |
| ClockRun.ReduceCountsPast | crates/common/src/ordinary_clock.rs:115-119 | the counters of an event's clock sum to the cardinality of its causal past, the event included, and `reduce` is that number modulo 2^32 |
| ClockRun.ClockOrderIsHappensBefore | crates/common/src/ordinary_clock.rs:75-98 | Less, Greater, Equal and None mean exactly happens-before, happens-after, same event and concurrent |
| OrdinaryClock.DepCmpByEntry | crates/common/src/ordinary_clock.rs:100-113 | `dep_cmp` orders by one entry, a missing one before every present one |
| ClockRun.DepCmpRefinesPartialCmp | crates/common/src/ordinary_clock.rs:100-113 | the one-entry test at the first event's id agrees with the full comparison and compares how many of that process's events the two pasts hold |
| ClockRun.OrderIsExactIffNoOverflow | crates/common/src/ordinary_clock.rs:58-98 | in any run at all, clock order is happens-before for every pair of events if and only if no process has 2^32 events |
| ClockRun.OverflowBreaksOrder | crates/common/src/ordinary_clock.rs:58-62 | the 2^32nd event of a process wraps its entry to zero and its clock is not above its own predecessor's |
| ClockRun.LamportClockCondition | crates/common/src/ordinary_clock.rs:115-119 | an event that happens before another has the smaller past, and the smaller `reduce` if the later past is below 2^32 |
| ClockDigest.DigestBuffer.HashClock | crates/common/src/crypto/core.rs:40-93 | hashing a clock appends its length as u64 and its entries in key order as u64 and u32, all little-endian |
| ClockDigest.PreimageLayout | crates/common/src/crypto/core.rs:40-93 | the preimage byte by byte: the count in eight bytes, then key and counter of each entry at its rank, all low byte first |
| ClockDigest.PreimageIsInjective | crates/common/src/crypto/core.rs:40-93 | distinct clocks never share a preimage, even with arbitrary bytes after it |
| WsProtocol.WireIdsCollide | crates/websocket/src/lib.rs:78-84 | two requests print the same id if and only if 2^64 divides the distance of their allocations |
| WsProtocol.WireIdCounts | crates/websocket/src/lib.rs:78-84 | the id is a decimal number, counted from one in u64 arithmetic |
| WsRuns.FreshUnlessWrapped | crates/websocket/src/lib.rs:78-84 | the hypothesis of the run theorems, distinct ids within the connection, holds if and only if no two of its requests lie a multiple of 2^64 allocations apart |
| WsProtocol.StepKeepsInv | crates/websocket/src/lib.rs:216-265 | every atomic step keeps the invariant: each unused sender is in exactly one place, each map entry belongs to a registered request, each reply is the first matching response |
| WsRuns.InvAlways | crates/websocket/src/lib.rs:216-265 | the invariant holds in every state of every interleaving whose requests print distinct ids |
| WsRuns.InsertNeverOverwrites | crates/websocket/src/lib.rs:425-427 | registration never finds a live entry under its id |
| WsRuns.CallbacksBelongToGuardHolders | crates/websocket/src/lib.rs:227-256 | every key in the map belongs to a request that still holds its drop guard, also when registration races with close; the map is empty when no guard is held |
| WsRuns.SenderFiresAtMostOnce | crates/websocket/src/lib.rs:374-381 | every step that sends through or drops a sender (a delivery, a close, a gone core, a removed entry) finds its channel unused and is the only such step; no other step changes the channel |
| WsRuns.ClosedIsPermanent | crates/websocket/src/lib.rs:437-446 | a taken core never comes back and a closed connection stays closed |
| WsRuns.CloseCompletesEveryRegistered | crates/websocket/src/lib.rs:416-446 | a close leaves the map empty, sends ConnectionClosed for good to every sender it finds registered, and touches no other request but the closing one |
| WsRuns.OkAnswersOwnRequest | crates/websocket/src/lib.rs:258-264 | a request that returns Ok(v) was answered by the first response with the id it registered that was received after that, and that response carried v |
| WsRuns.ErrorsAreReported | crates/websocket/src/lib.rs:258-264 | ConnectionClosed is returned only after a close that found the request registered, ChannelError only after a response with its id and no result |
| WsRuns.ReturnsWhatWasDecided | crates/websocket/src/lib.rs:247-264 | a request returns exactly what the step that ended it says: the reply sent, ChannelError for a dropped sender, ElapsedError for a timeout, the send error, or WebsocketClosed without a core |
| WsRuns.CloseIsReported | crates/websocket/src/lib.rs:258-264 | a waiting request that a close finds registered and that wakes returns ConnectionClosed |
| WsRuns.ResponsesAreDelivered | crates/websocket/src/lib.rs:373-381 | a response that finds its request registered stays in the receive loop's hand until the channel carries its result, for good |
| WsRuns.OneResponseAfterClose | crates/websocket/src/lib.rs:309-345 | once the core is taken at most one more response is ever received |
| WsRuns.OneLateRequestIsAnswered | crates/websocket/src/lib.rs:236-256 | of the requests that register after the core was taken at most one is ever answered |
| WsRuns.SendFailureCloses | crates/websocket/src/lib.rs:448-468 | a request whose send failed or timed out returns only after it has closed the connection itself or found it closed |
| WsRuns.ReceiveFailureCloses | crates/websocket/src/lib.rs:448-468 | a receive loop that failed does nothing more until the connection is closed |
| WsRuns.AnythingMayHappen | crates/websocket/src/lib.rs:216-468 | no step is scheduled away: in every state everything the tasks, the peer and the network can do next is allowed |
| WsConnection.Connection.StartRequest | crates/websocket/src/lib.rs:78-100 | takes the counter's value as printed id and advances the counter, wrapping, with a fresh pending channel |
| WsConnection.Connection.CloneForRequest | crates/websocket/src/lib.rs:458-466 | clones an open core, or ends the request with WebsocketClosed and drops its sender |
| WsConnection.Connection.InsertCallback | crates/websocket/src/lib.rs:240-245 | files the sender under the request's id, replacing an entry already there |
| WsConnection.Connection.TakeReply | crates/websocket/src/lib.rs:258-264 | the outcome is what was sent on the channel, or a channel error when the sender was dropped |
| WsConnection.Connection.DropRequestGuard | crates/websocket/src/lib.rs:227-234 | removes the entry under the request's own id and lets the request return or close |
| WsConnection.Connection.TakeCore | crates/websocket/src/lib.rs:438-439 | the first half of close takes the core, or finds none and returns |
| WsConnection.FireAll | crates/websocket/src/lib.rs:417-423 | the drain loop, in any order of the entries, fires ConnectionClosed at every filed sender and nothing else |
| WsConnection.Connection.DrainCallbacks | crates/websocket/src/lib.rs:417-423 | the second half of close fires every filed sender and empties the map |
| WsConnection.Connection.TakeCallback | crates/websocket/src/lib.rs:374-375 | a received response removes the entry under its id before the sender is used |
| WsConnection.Connection.DeliverResponse | crates/websocket/src/lib.rs:375-381 | a result fires the sender, a response without one drops it |
| WsConnection.Connection.ReceiveResponses | crates/websocket/src/lib.rs:315-390 | the receive loop settles each registered request by the first response with its id, and touches no other |
| WsConnection.Connection.FailRequest | crates/websocket/src/lib.rs:247-256 | after a failed send the guard's entry is gone, the connection closed and the error the outcome |
| WsConnection.Connection.AwaitResponse | crates/websocket/src/lib.rs:258-264 | after a sent message the first response with the id answers, or the time runs out |
| WsConnection.Connection.RequestTimeout | crates/websocket/src/lib.rs:216-265 | the whole request beside the receive loop: on a closed connection nothing happens; otherwise the reply by send error and first response, its entry gone afterwards |
| Ecvrf.ExpandKey | crates/vrf/src/ecvrf.rs:256-277 | the in-place expansion yields the reduced clamped lower half and the upper half of the hash |
| Ecvrf.ClampedInteger | crates/vrf/src/ecvrf.rs:269-271 | a clamped key is a multiple of the cofactor with bit 254 highest |
| Ecvrf.ClampInIntegers | crates/vrf/src/ecvrf.rs:269-271 | clamping keeps bits 3 to 253 of the little-endian integer, clears the others and sets bit 254 |
| EcvrfTranscript.KeyExpansion | crates/vrf/src/ecvrf.rs:256-277 | secret scalar, public key and nonce from the two halves of the hashed private key |
| Ecvrf.TryAndIncrement | crates/vrf/src/ecvrf.rs:222-244 | the loop computes the cofactor multiple of the first candidate that decodes, `None` standing for the loop that never ends |
| Ecvrf.LeastCandidate | crates/vrf/src/ecvrf.rs:222-244 | the point comes from the least counter whose candidate decodes |
| EcvrfTranscript.CandidatePreimage | crates/vrf/src/ecvrf.rs:222-244 | a candidate decodes the first 32 bytes of the hash of 3, 1, key, input and counter, slice by slice |
| Ecvrf.HashPoints | crates/vrf/src/ecvrf.rs:357-365 | the loop hashes suite, domain byte and the compressed points and keeps the first 16 bytes as a little-endian scalar |
| EcvrfTranscript.ChallengePreimage | crates/vrf/src/ecvrf.rs:357-365 | the challenge is the first 16 digest bytes, little-endian, of 3, 2 and the compressed points, 32 bytes each in order |
| EcvrfTranscript.PreimageDeterminesPoints | crates/vrf/src/ecvrf.rs:357-365 | no other list of points has that preimage |
| EcvrfTranscript.NoncePreimage | crates/vrf/src/ecvrf.rs:346-355 | the nonce scalar is the whole hash of the nonce and the compressed point |
| EcvrfTranscript.OutputPreimage | crates/vrf/src/ecvrf.rs:333-344 | the output is the hash of 3, 3 and eight times gamma |
| Ecvrf.ChallengeFits | crates/vrf/src/ecvrf.rs:357-365 | a challenge is below 2^128 |
| Ecvrf.PublicKeyDecodes | crates/vrf/src/ecvrf.rs:247-254 | the public key made from the unreduced secret decodes to the reduced scalar times the base point |
| Ecvrf.CommitmentOpens | crates/vrf/src/ecvrf.rs:208-213 | s·P − c·(x·P) = k·P for s = k + c·x modulo L on every point killed by L |
| Ecvrf.ProofsVerify | crates/vrf/src/ecvrf.rs:98-220 | for every key and input `verify` accepts what `prove` returns, and `prove` returns unless no candidate decodes |
| EcvrfTranscript.AcceptedTranscript | crates/vrf/src/ecvrf.rs:202-220 | `verify` accepts exactly when the challenge hashes H, gamma, U and V with U + c·Y = s·B and V + c·gamma = s·H |
| EcvrfTranscript.ProvedTranscript | crates/vrf/src/ecvrf.rs:98-115 | `prove` returns gamma = x·H, the challenge over H, gamma, k·B, k·H for the nonce scalar k of H, and s = k + c·x |
| Ecvrf.ProofToBytes | crates/vrf/src/ecvrf.rs:294-300 | the three copies fill 80 bytes with gamma, the low half of c, and s |
| Ecvrf.ProofFromBytes | crates/vrf/src/ecvrf.rs:303-320 | reads them back, panicking exactly on a wrong length or an undecodable point |
| EcvrfTranscript.ProofLayout | crates/vrf/src/ecvrf.rs:294-300 | gamma, the challenge modulo 2^128 and s stand in bytes 0-31, 32-47 and 48-79 |
| EcvrfTranscript.DecodedLayout | crates/vrf/src/ecvrf.rs:303-320 | decoding reads the same places and refuses only a wrong length or no point |
| Ecvrf.ProofRoundTrip | crates/vrf/src/ecvrf.rs:294-320 | decoding the encoding of a proof gives the proof back if and only if its challenge is below 2^128 |
| Ecvrf.DecodedProofReencodes | crates/vrf/src/ecvrf.rs:294-320 | a decoded proof re-encodes to the same bytes if and only if point and s were canonical |
| Ecvrf.TransportedProofsVerify | crates/vrf/src/ecvrf.rs:294-320 | a proof made by `prove` survives its 80 bytes, still verifies and has the same output |
| VrfUniqueness.ExtractScalar | crates/vrf/src/ecvrf.rs:202-220 | two transcripts with the same U and V and different challenges give one scalar for key over base point and gamma over H, up to the cofactor |
| VrfUniqueness.OutputIsUnique | crates/vrf/src/ecvrf.rs:333-344 | such transcripts for one key and input have one output whatever their gammas, even gammas that differ by a point of small order |
| VrfUniqueness.OutputIsTheProvers | crates/vrf/src/ecvrf.rs:333-344 | that output is the honest prover's |
| Sortition.SelectionIsModular | operator/runer/src/api/vrf_key.rs:46-54 | selects exactly when the big-endian output modulo 16^precision is below the threshold, and panics exactly for precision 0 or above 128 |
| Sortition.SelectionProbability | operator/runer/src/api/vrf_key.rs:46-54 | exactly min(threshold, 16^p)·16^(128−p) of the 64-byte outputs are selected |
| Sortition.SelectionIsMonotone | crates/vrf/src/sample.rs:27-29 | a larger threshold keeps every selected output selected |
| VrfReply.RepliesCheck | operator/runer/src/api/vrf_key.rs:38-62 | every reply names the prompt asked and the caller's own key, its decoded proof verifies on that prompt, and random value and decision are the proof's |
| VrfRange.AdjustedByTag | operator/runer/src/api/msg_handler.rs:401-432 | tag by tag: 0.03, 0.1 or nothing of the maximum range at both ends, each float operation rounded once, then truncated and saturated, or a refused position |
| VrfRange.AdjustedInIntegers | operator/runer/src/api/msg_handler.rs:415-429 | without rounding: ⌊(100·start − 3·max)/100⌋ and ⌊(100·end + 3·max)/100⌋, or 10, cut at zero and the largest u64 |
| VrfRange.TagsNest | operator/runer/src/api/msg_handler.rs:415-440 | for start ≤ end and any rounding: default inside suspicion, which is malicious/after, inside malicious/before, thresholds likewise |
| VrfRange.ThresholdIsLength | operator/runer/src/api/msg_handler.rs:440 | the threshold is end − start in u64 arithmetic |
| VrfRange.RangesNest | operator/runer/src/api/msg_handler.rs:401-440 | for start ≤ end and any float rounding no tag underflows, and a larger margin gives the enclosing range and the larger threshold |
| VrfRange.DefaultUnderflow | operator/runer/src/api/msg_handler.rs:401-440 | for the default tag the subtraction is exact if and only if the rounded ends are in order, and the range is the contract's own if and only if both ends are not rounded down or to the next integer |
| VrfRange.WiderTagKeepsSelection | operator/runer/src/api/msg_handler.rs:415-451 | an operator selected under a narrower tag stays selected under a wider one |
| Rlp.IntRoundTrip | crates/alloy-wrapper/src/signature.rs:71-73 | an encoded integer followed by any bytes reads back, leaving those bytes, exactly at the widths it fits |
| Rlp.IntIsCanonical | crates/alloy-wrapper/src/signature.rs:101-103 | whatever decodes as an integer is the canonical encoding of it |
| Rlp.EncodedLength | crates/alloy-wrapper/src/signature.rs:44-46 | the announced length of an integer is the length of its encoding |
| Rlp.IntLayout | crates/alloy-wrapper/src/signature.rs:71-73 | 128 for zero, the byte itself below 128, else 128 plus length and the shortest big-endian form |
| Signature.OutBuffer.PutSignatureEip155 | crates/alloy-wrapper/src/signature.rs:66-74 | appends v, r and s, as many bytes as `payload_len_with_eip155_chain_id` says |
| Signature.OutBuffer.PutSignature | crates/alloy-wrapper/src/signature.rs:129-133 | appends parity, r and s, as many bytes as `payload_len` says |
| Signature.Cursor.TakeSignatureEip155 | crates/alloy-wrapper/src/signature.rs:98-121 | advances the slice over v, r and s or reports the first error |
| Signature.Cursor.TakeSignature | crates/alloy-wrapper/src/signature.rs:136-142 | advances the slice over parity, r and s or reports the first error |
| Signature.EncodedLengths | crates/alloy-wrapper/src/signature.rs:44-46 | both encodings have exactly their announced payload lengths |
| Signature.Eip155Layout | crates/alloy-wrapper/src/signature.rs:66-74 | the three integers on the wire are v, r and s in this order, v being 27, 28 or parity + 2·id + 35 |
| Signature.PlainLayout | crates/alloy-wrapper/src/signature.rs:129-133 | the three integers on the wire are the parity as 0 or 1, r and s |
| Signature.Eip155Verdict | crates/alloy-wrapper/src/signature.rs:98-121 | what three integers decode to: 27, 28 and everything from 35 are taken apart, any other v is refused |
| Signature.Eip155Malformed | crates/alloy-wrapper/src/signature.rs:98-121 | anything that does not start with three integers is malformed |
| Signature.PlainVerdict | crates/alloy-wrapper/src/signature.rs:136-142 | what three integers decode to: the first must be 0 or 1 |
| Signature.ExtractInvertsV | crates/alloy-wrapper/src/signature.rs:201-214 | parity and chain id are recovered from v if and only if parity + 2·id + 35 fits a u64 |
| Signature.Eip155RoundTrip | crates/alloy-wrapper/src/signature.rs:66-121 | decoding the encoding followed by any bytes gives signature, chain id and those bytes, under exactly that condition |
| Signature.Eip155IsCanonical | crates/alloy-wrapper/src/signature.rs:98-121 | any successful decode re-encodes to the bytes consumed |
| Signature.PlainRoundTrip | crates/alloy-wrapper/src/signature.rs:129-142 | the parity form reads back for every signature and any following bytes |
| Signature.PlainIsCanonical | crates/alloy-wrapper/src/signature.rs:136-142 | any successful parity-form decode re-encodes to the bytes consumed |
| Signature.FillBytes | crates/alloy-wrapper/src/signature.rs:177-184 | the in-place copies give r and s big-endian and 27 plus parity |
| Signature.BytesLayout | crates/alloy-wrapper/src/signature.rs:177-184 | r and s are the first two 32-byte words and the last byte is 27 or 28 |
| Signature.HexRoundTripOfSignature | crates/alloy-wrapper/src/signature.rs:48-62 | `from_hex_str` reads back the hexadecimal 65-byte form, with and without the leading 0x |
| Signature.HexParity | crates/alloy-wrapper/src/signature.rs:48-62 | what is read: at least 65 bytes of hexadecimal, r and s from the first two words, odd exactly for the last byte 1 or 28 |
| RedisStream.RedisQueue.Produce | operator/runer/src/queue/msg_queue.rs:86-93 | appends a message whose id is above every earlier one, and changes nothing otherwise |
| RedisStream.RedisQueue.Consume | operator/runer/src/queue/msg_queue.rs:96-122 | yields the message of least id, which stays in the stream |
| RedisStream.RedisQueue.Acknowledge | operator/runer/src/queue/msg_queue.rs:125-131 | removes exactly the message with that id |
| Dispatch.AcceptedIsKeptOrDeleted | operator/runer/src/api/msg_handler.rs:641-716 | with any number of workers and crashes the accepted messages are exactly those in the stream plus those deleted, in increasing id order |
| Dispatch.AcceptedIffAboveAll | operator/runer/src/queue/msg_queue.rs:49-60 | a message is accepted if and only if its id is above every accepted one, and a refused one leaves no trace |
| Dispatch.OnlyAcknowledgementsDelete | operator/runer/src/api/msg_handler.rs:651-708 | only an acknowledgement takes its message out, also when its reply is lost; a refused one and a crash leave the stream as it is |
| Dispatch.AnythingMayHappen | operator/runer/src/api/msg_handler.rs:641-716 | messages and loops come at any moment, any loop may die, and any acknowledgement may delete, be refused or lose its reply |
| Dispatch.DeletedOnlyAfterHandling | operator/runer/src/api/msg_handler.rs:646-708 | before a deletion some worker returned from the message's job, or found it unparsable if it is |
| Redelivery.TakenUpAgainIffNotOutOfReach | operator/runer/src/api/msg_handler.rs:641-716 | in every reachable state an accepted message, taken up before or not, can be taken up (again) if and only if it is in the stream or fetched by a loop that has not parsed it |
| Redelivery.TwoWorkersRunAJobTwice | operator/runer/src/api/msg_handler.rs:835-839 | two detached loops can start the same job twice |
| DispatchLoop.SingleWorkerIsExactlyOnceInOrder | operator/runer/src/api/msg_handler.rs:641-716 | with at most one loop, started at any moment, no crash and no refused acknowledgement, messages are taken up exactly once each in id order |
| DispatchLoop.DrainQueue | operator/runer/src/api/msg_handler.rs:641-716 | the loop empties the queue by steps of the one worker and logs, in order, start and return of a job for every message that parses and the failure of every other |
| Rendezvous.InvAlways | operator/verify_hub/src/tee/handler.rs:20-53 | in every interleaving each full slot and each answer comes from a callback with the handler's own id, after its registration, delivered to it |
| Rendezvous.AnswerIsOwnCallback | operator/verify_hub/src/tee/handler.rs:91-109 | an answer a handler returns came from a callback with its own request id that arrived after its channel was registered |
| Rendezvous.CallbackAnswersOnce | operator/verify_hub/src/tee/handler.rs:101-109 | one callback answers at most one handler |
| Rendezvous.OutcomeIsFinal | operator/verify_hub/src/tee/handler.rs:43-52 | a handler's outcome never changes, so it consumes at most one answer |
| Rendezvous.CallbacksAreRoutedToTheirJob | operator/verify_hub/src/opml/handler.rs:68-76 | with fresh ids a callback finds the channel of exactly the handler that asked, if it is filed, and is dropped otherwise |
| Rendezvous.ChannelsLeftBehind | operator/verify_hub/src/opml/handler.rs:42-49 | with fresh ids the maps hold exactly the channels ever registered, less those of timed-out TEE questions |
| Rendezvous.AnythingMayHappen | operator/verify_hub/src/tee/handler.rs:20-117 | questions and callbacks come whenever the lock allows, waits end by answer or time, and callbacks may be cut off |
| HubStall.ReturnsIffNoneStalled | operator/verify_hub/src/tee/handler.rs:43-51 | in every reachable state a timed-out TEE question can still return, no callback being cut off, if and only if every timed-out TEE handler has at most one callback in its slot or holding the lock for it |
| HubStall.StallLastsUntilAbort | operator/verify_hub/src/tee/handler.rs:45-51 | while two callbacks bear on a timed-out TEE handler and neither is cut off, no timed-out TEE question returns, no question starts and no channel is registered |
| HubStall.StallNeedsTwoCallbacks | operator/verify_hub/src/tee/handler.rs:97-109 | both callbacks carry the handler's own id and came after its registration |
| HubStall.StallIsReachable | operator/verify_hub/src/tee/handler.rs:45-51 | one question and two callbacks that enter before the handler asks for the lock reach it |
| HubServer.Server.OpenQuestion | operator/verify_hub/src/tee/handler.rs:26-33 | a new question gets an empty channel of its own |
| HubServer.Server.RegisterChannel | operator/verify_hub/src/tee/handler.rs:34-38 | files the handler's channel in the map of its kind |
| HubServer.Server.CleanUpChannel | operator/verify_hub/src/tee/handler.rs:45-51 | removes a timed-out TEE channel and leaves an OPML one |
| HubServer.Server.ReceiveAnswer | operator/verify_hub/src/tee/handler.rs:43-44 | empties the slot and returns its answer, that of a callback with the handler's own id |
| HubServer.Server.EnterCallback | operator/verify_hub/src/tee/handler.rs:97-101 | looks the request id up in the map of its kind and drops the callback if it is not there |
| HubServer.Server.SendAnswer | operator/verify_hub/src/tee/handler.rs:106-108 | fills the slot of a live handler, fails for one that has returned |
| HubServer.Server.HandleCallback | operator/verify_hub/src/tee/handler.rs:91-117 | a whole callback delivers to the channel filed under its key if a handler listens and the channel is empty, and changes nothing else |
| HubServer.Server.Ask | operator/verify_hub/src/opml/handler.rs:8-51 | a whole question beside callbacks: the first callback with its key answers it, or it times out; its channel stays filed unless a TEE question timed out; a failed OPML post files nothing |
| JobResult.AwaitOpmlWorker | operator/runer/src/api/msg_handler.rs:162-195 | stops at the first idle status among 600 polls, failed polls included in the count, or times out |
| JobResult.AwaitTeeWorker | operator/runer/src/api/msg_handler.rs:283-316 | stops at the first positive number of free tasks among 600 polls, or times out |
| JobResult.ResultClockOfEntry | operator/runer/src/api/msg_handler.rs:214-236 | the result's clock is the chosen entry of the dispatched clock incremented, or an overflow error at u32::MAX |
| JobResult.ResultClockCases | operator/runer/src/api/msg_handler.rs:214-236 | when the clock is missing, unparsable or overflows, and otherwise the chosen entry alone, one higher |
| Decimal.ParsesNumerals | operator/runer/src/api/msg_handler.rs:226-231 | what parses as a u32: a decimal numeral below 2^32, leading zeros and one plus sign allowed |
| JobResult.SingleEntryResultIsUpdate | operator/runer/src/api/msg_handler.rs:214-236 | for a one-entry clock it is the vector-clock update of that id |
| JobResult.ResultAboveDispatched | operator/runer/src/api/msg_handler.rs:214-236 | it lies strictly above the dispatched clock if and only if all other entries are zero |
| JobResult.JobAnswerIsOwnCallback | operator/runer/src/api/msg_handler.rs:197-239 | in every interleaving at the hub the text of an executed job is the answer of a callback with the job's own request id that arrived after its registration; a timed-out or unsent question makes the job fail |
| JobResult.ResultOfJob | operator/runer/src/api/msg_handler.rs:509-594 | no result has both a selected reply and a worker's answer: the reply is repeated, with the reason as text, exactly when no worker was asked; the clock is always the incremented entry |
| JobResult.FailureOfJob | operator/runer/src/api/msg_handler.rs:505-594 | why a job has no result, in the order of the checks |

## Left out

- Sockets, TLS, HTTP routing, Postgres, migrations, configuration and the command line: I/O plumbing.
- SHA-512, point compression and curve arithmetic: parameters with stated laws. That L is prime is a hypothesis of `VrfUniqueness`, not proved.
- secp256k1 recovery (`recover_signer`) and message signing: foreign calls.
- Debug builds, where the arithmetic panics instead of wrapping; there `hash_to_curve` also panics when only counter 255 decodes.
- The range contract: its source is not part of this model; only start ≤ end is used.
- The f64 format itself: rounding is any monotone, idempotent function that keeps zero. Overflow to infinity cannot occur on u64 inputs.
- `Sampler::calculate_threshold`: not used by `run_vrf`.
- The JSON error paths of building a request, the panic of `recv_inner` on a request that arrives after a close, and message contents other than id and result.
- Signature.Cursor.TakeSignatureEip155: one error stands for all malformed RLP, and after an error the position of the slice is not specified, because the RLP library is not part of this model.
- Signature.Cursor.TakeSignature: the same, for the same reason.
- `BigUint::from_str_radix` on signs and underscores: `run_vrf` only passes hexadecimal digits.
- Prompt hashes that are not hexadecimal strings: `compute_vrf` always passes one.
- Duplicate request ids (the hub's UUIDs): `Rendezvous.CallbacksAreRoutedToTheirJob` and `Rendezvous.ChannelsLeftBehind` assume fresh ones; the other rendezvous theorems do not.
- Liveness under a fair scheduler: only safety, and whether a timed-out question can return, are stated.
- The queue of waiters of the hub's lock: any enabled action may come next.
- The database write and the sending of a job's result, whose failures `do_job` ignores.
- ClockRun.ClockOrderIsHappensBefore: for runs in which no process has 2^32 events; `ClockRun.OrderIsExactIffNoOverflow` proves that it fails in all others.
- WsRuns.InvAlways: for runs whose requests print distinct ids; `WsRuns.FreshUnlessWrapped` says exactly when that is.
