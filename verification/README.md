# A verified model of the group-chat forwarding service

This project models, in Dafny 4.11, the parts of the Reticulum group-chat forwarder whose correctness is
hard to see by reading: the Resource transfer protocol, the outbound delivery queue, the per-recipient
id cache and field rewrite, the link handshake and lifecycle, the wire formats under them, and the roles
kept by the command dispatcher. `dafny verify dfyconfig.toml` checks all of it.

How it is laid out:

- `Octets.dfy`, `Hex.dfy`, `Token.dfy`, `Packet.dfy`, `Hdlc.dfy`: octets, hexadecimal text, PKCS#7
  padding (section 6.3 of RFC 5652) and the link token, the packet header, HDLC framing with the octets
  of section 4.2 of RFC 1662.
- `ResourceHash.dfy`, `ResourceWire.dfy`, `ResourceReceiver.dfy`, `ResourceSender.dfy`: slicing,
  fingerprints and the collision guard, the message codecs, and the two machines. Each machine is a class
  proved equal, step by step, to pure functions on its state.
- `ResourceAgreement.dfy`, `ResourceProtocol.dfy`: what the two machines agree on, and both of them with a
  network that loses, repeats and reorders every message, as one step relation over arbitrary schedules;
  then a receiver facing arbitrary injected packets. `ResourceOutcomes.dfy`: when the body can arrive, when
  the sender is cancelled, when the body is handed up twice and how many lost advertisements a transfer
  survives, each exactly. `ResourceLoops.dfy`: how a whole run of the receive loop ends, and that the system
  steps its receiver as that loop does. `ResourceTight.dfy`: a sender just past the collision guard's reach,
  and one just past the receiver's size cap. `ResourceExactlyOnce.dfy`: the same two machines when nothing is
  lost and no timer fires.
- `OutboundQueue.dfy`, `OutboundWorkers.dfy`: the queue as a class, and every interleaving of N workers'
  locked sections.
- `IdMap.dfy`, `IdMapEviction.dfy`, `Rewrite.dfy`, `Forward.dfy`: the LRU+TTL cache against its history of
  registrations, what it evicts, the rewrite of shared heap maps, and the fan-out that gives the cache its
  discipline.
- `Handshake.dfy`, `LinkData.dfy`, `LinkLifecycle.dfy`, `ResourceIndex.dfy`, `LinkWorld.dfy`,
  `LinkTrust.dfy`: LINKREQUEST/LRPROOF and key agreement, link DATA and its acknowledgement, the link classes
  and the index of transfers, every interleaving of the locked sections, and what signatures guarantee over it.
- `Roles.dfy`, `RoleRuns.dfy`: roster and dispatcher, and what runs of received commands can do to the set
  of admins.

Modelling choices:

- SHA-256, HMAC, AES-CBC, X25519, HKDF and Ed25519 are function values handed in. What a theorem needs of
  them is a hypothesis of that theorem: decryption undoes encryption, key exchange commutes for the two
  keys at hand, a signature made by a key validates. SHA-256 is never assumed injective, since no
  function onto 32 octets is: results say "equal, or here are two strings with one digest".
- Time, random values, send outcomes and the order of Go's map iteration are inputs or nondeterministic
  choices. A goroutine between two locked sections is a value in the state, so every interleaving of
  sections is a run.
- Go's `pending` messages and link objects have identities (a serial, an address), so that equal ids or
  hashes are possible and are dealt with.

Where the code and its comments differ, the code is followed:

- the HDLC decoder returns its truncated-escape error for any frame cut off by end of stream, not only
  after an escape octet;
- the queue's comments say messages are never looked up by id, but the in-flight marks are keyed by id.
  `OutboundWorkers.QueueSafe` holds even when ids repeat;
- the comment on accepting a LINKREQUEST says that signalling other than the initiator's breaks the
  proof's signature. The initiator rebuilds the signed octets from the proof's own signalling, so any
  choice of the responder is accepted (`Handshake.HandshakeAgreement`).

Properties that fail in general are proved exactly instead:

- Delivery. The sender checks only the number of parts, the receiver the size, and the sender's lookup by
  fingerprint is ambiguous for fingerprints far apart, as its comment warns. A body can arrive if and only if
  its blob is within the receiver's cap and the repeats are harmless
  (`ResourceOutcomes.ArrivesIffDeliverable`). Up to 225 parts the repeats always are
  (`ResourceAgreement.DistinctIsDeliverable`), and at 226 a sender the guard accepts can be undeliverable
  (`ResourceTight.GuardIsTight`); a sender of 2278 parts with a blob one octet over the cap is built and never
  answered (`ResourceTight.SizeCapIsTighter`).
- Cancels. An advertisement that finds the receiver registered makes it send a cancel, so a duplicate or
  the sender's own retry can end a transfer that was going well, as can parts that do not reassemble
  (`ResourceOutcomes.CancellableIffRefused`, witness `ResourceOutcomes.RetryCancels`); an advertisement that
  comes after completion opens a second receiver (`ResourceOutcomes.TwiceIffReopened`).
- The cache's index stays consistent under a registration if and only if that registration does not
  overwrite a still-indexed id (`IdMap.RecordKeepsIff`, witness `IdMap.OverwriteLeavesStaleId`), and the
  fan-out never does (`Forward.FanOutIsDisciplined`).
- Waiting sends and open links. A proof can still wake a send exactly while the send's channel waits in its
  link's table and the link is listed or an acknowledgement has already found it (`LinkWorld.WakeableIff`). A
  send that reuses the link and packet hash ends that, and so does closing the link or overwriting its entry
  (`LinkWorld.HiddenIff`); since SendOverLink closes the shared link when its own wait times out, a second
  send on it is lost with no hash reused (`LinkWorld.TimeoutLosesOtherSend`,
  `LinkWorld.ReusedHashHidesWaiter`). A link can be closed exactly while it is listed
  (`LinkWorld.ClosableIffListed`, witness `LinkWorld.RepeatedRequestUnlists`).
- Repeated LINKREQUESTs. The initiator keeps the keys of the answer whose proof it took, the responder lists
  its last answer: they agree if and only if both secrets derive to the same octets
  (`Handshake.RepeatedRequestAgreesIff`).
- Admins. A usable admin, one whose messages are not dropped for a ban, survives every run without /ban if
  and only if the config names one that is not banned (`RoleRuns.BanFreeSurvivalIff`); with /ban no config
  is enough (`RoleRuns.NoRoomIsBanProof`, witness `RoleRuns.ModBansConfigAdmin`), and which event takes the
  last one, the sweep that prunes the roster included, is said exactly (`RoleRuns.LastAdminLostIff`).

## Model

| member | source | states |
|---|---|---|
| `ResourceProtocol.ExactDelivery` | internal/rns/resource_receiver.go:391-588 | for every constructed sender, over the receiver's size cap or not, and any schedule of losses, repeats and reorderings of every message, advertisement and cancel included, with deadlines and link closings: a receiver is open only for a blob within the cap, filled slot i holds the part the sender's lookup serves for i, the known prefix is the sender's and whole segments, every body handed up is what those parts yield, the sender completes only after a hand-up and fails only for the listed reasons; with faithful fingerprints slots hold the sender's own parts and every body is the sender's |
| `ResourceProtocol.RoundAdvances` | internal/rns/resource_receiver.go:490-547 | from every reachable state with a registered receiver and a live sender, one loss-free round hands up the body or strictly lowers (n - known) + (n - received) |
| `ResourceProtocol.LossFreeRoundsComplete` | internal/rns/resource_receiver.go:251-385 | after that many loss-free rounds the registered receiver has handed up exactly one body more, nothing new cancels the sender, and it still listens |
| `ResourceLoops.OutcomeIff` | internal/rns/resource_receiver.go:272-375 | exactly how a run of the receive loop ends, whatever arrives: with a body and that body's proof iff every slot fills before any cancel or deadline and the parts reassemble to it; corrupt iff they fill and do not reassemble; cancelled or timed out iff that comes while a slot is unfilled; otherwise it still waits |
| `ResourceLoops.HonestRunDelivers` | internal/rns/resource_receiver.go:251-385 | fed a deliverable sender's packets in any order with any losses, repeats and timers, a run ends with the sender's body and the proof it waits for iff every slot fills before a cancel or deadline, and never corrupt |
| `ResourceLoops.SomeRunDelivers` | internal/rns/resource_receiver.go:251-385 | for every deliverable sender some of its packets end such a run so |
| `ResourceLoops.FoldIsLoop` | internal/rns/resource_receiver.go:251-385 | folding the system's receiver over any events gives the loop's state, its requests, its last word on the wire and its body, and nothing else |
| `ResourceLoops.ScheduleRunsLoop` | internal/rns/resource_receiver.go:251-385 | in any schedule of the whole system an open receiver is the loop run on the events that schedule lets it see |
| `ResourceOutcomes.ReachableStatesComplete` | internal/rns/resource_receiver.go:251-385 | for a deliverable sender, from every state any schedule can reach with it live and nothing refused, 2n loss-free rounds hand up the body with no cancel on the wire, and the proof completes the sender |
| `ResourceOutcomes.CancellableIffRefused` | internal/rns/resource_dispatch.go:66-85 | for every constructed sender: the peer can cancel it while live exactly when some acceptable advertisement was delivered while the receiver was registered or the link was full, or some part filled the last slot of a receiver whose parts do not reassemble |
| `ResourceOutcomes.CancelledOnlyIfRefused` | internal/rns/resource_dispatch.go:127-148 | for every constructed sender: it fails as cancelled only after one of these two refusals, or when its own link closes |
| `ResourceOutcomes.CancelEmittedIff` | internal/rns/resource_receiver.go:336-356 | in every reachable state a step puts a cancel on the wire exactly when it is one of these refusals |
| `ResourceOutcomes.FaithfulRefusesAdv` | internal/rns/resource_receiver.go:552-588 | when parts with one fingerprint are one part, only advertisements are refused |
| `ResourceOutcomes.RetryCancels` | internal/rns/resource_sender.go:336-354 | for every sender the receiver accepts, its own advertisement retry, the first request lost, is refused and cancels it |
| `ResourceOutcomes.HandedOnce` | internal/rns/resource_receiver.go:116-190 | unless an advertisement reopens a receiver after a hand-up, the body is handed up at most once |
| `ResourceOutcomes.TwiceIffReopened` | internal/rns/resource_receiver.go:351-375 | a run can go on, with no further advertisement, to hand the body up twice exactly when one has reopened the receiver after the first |
| `ResourceOutcomes.ReachesIffInHand` | internal/rns/resource_receiver.go:351-375 | aborted receivers included: n hand-ups can be reached with no further advertisement exactly when n is at most the bodies handed up, counting the one an open receiver may still hand up |
| `ResourceOutcomes.ArrivesIffDeliverable` | internal/rns/resource_sender.go:479-539 | for every constructed sender, some schedule hands up the body iff the blob is within the receiver's size cap, parts with one fingerprint are one part and every segment's last fingerprint occurs nowhere before it, short of a forged MAC |
| `ResourceOutcomes.UndeliverableNeverArrives` | internal/rns/resource_sender.go:525-539 | otherwise no schedule hands anything up or completes the sender |
| `ResourceOutcomes.OversizeNeverOpens` | internal/rns/resource_adv.go:166-169 | a blob over the cap: no schedule opens a receiver or puts anything but the advertisement on the wire, and the sender can only give up, expire or have its link closed |
| `ResourceOutcomes.LossesRecoverIff` | internal/rns/resource_sender.go:330-372 | a transfer whose first 1 + j advertisements are gone for good can still complete iff j is below the four retries |
| `ResourceOutcomes.LateRepeatCompletes` | internal/rns/resource_sender.go:342-354 | then the next repeat is all there is on the wire, and 2n loss-free rounds from it hand up the body and complete the sender |
| `ResourceTight.SizeCapIsTighter` | internal/rns/resource_sender.go:129-136 | such a sender is constructed: 2278 parts, a blob one octet over the cap, all fingerprints different, and every schedule ends so |
| `ResourceAgreement.DistinctIsDeliverable` | internal/rns/resource_hash.go:104-124 | with pairwise distinct fingerprints, or at most 225 parts, a body is deliverable iff its blob is within the size cap |
| `ResourceTight.GuardIsTight` | internal/rns/resource_sender.go:525-539 | a constructed sender of 226 whole parts, within the size cap, that the guard accepts, parts 0 and 225 different under one fingerprint: its lookup serves part 0 for slot 225 and every schedule ends without the body |
| `ResourceAgreement.AlwaysAsks` | internal/rns/resource_receiver.go:490-547 | a receiver with missing parts asks for its frontier slot first if its fingerprint is known, otherwise for the next segment and nothing else |
| `ResourceAgreement.FrontierPlaced` | internal/rns/resource_receiver.go:391-432 | the frontier part, delivered, is always placed in the frontier slot |
| `ResourceAgreement.ReplyHelps` | internal/rns/resource_sender.go:439-523 | when segment ends are first occurrences, the sender's answer begins with the frontier part, or is the next segment |
| `ResourceAgreement.PlaceExact` | internal/rns/resource_receiver.go:391-432 | a sent part is placed only in a slot of its own fingerprint, so one it is served for, or nowhere |
| `ResourceAgreement.PlacementUnambiguous` | internal/rns/resource_receiver.go:395-422 | the construction-time guard alone leaves at most one matching slot in the placement window, from any frontier |
| `ResourceAgreement.HmuAcceptedIffNext` | internal/rns/resource_receiver.go:456-481 | a served segment is accepted iff it is the next one; stale, repeated and early ones change nothing |
| `ResourceAgreement.HmuExact` | internal/rns/resource_receiver.go:456-481 | an accepted segment extends the prefix to min(n, known + 74) with the sender's own entries |
| `ResourceAgreement.NamedServedIff` | internal/rns/resource_sender.go:479-523 | a request naming the end of segment m is served segment m iff that fingerprint occurs nowhere before; otherwise it is refused off a boundary or answered with an earlier segment |
| `ResourceAgreement.FullIsServed` | internal/rns/resource_receiver.go:552-588 | with every slot filled the receiver holds exactly the served parts |
| `ResourceAgreement.FaithfulYields` | internal/rns/resource_receiver.go:552-588 | when parts with one fingerprint are one part, reassembly gives the sender's body |
| `ResourceAgreement.UnfaithfulYields` | internal/rns/resource_receiver.go:552-588 | when they are not, reassembly fails, or a second octet string passes the blob's MAC |
| `ResourceProtocol.ProofCompletesSender` | internal/rns/resource_sender.go:392-402 | delivering a completed receiver's proof completes a live sender |
| `ResourceProtocol.IntegrityAnyChannel` | internal/rns/resource_receiver.go:552-624 | for arbitrary injected parts and segments, a body handed up has the advertised hash and size, and the proof emitted is that body's |
| `ResourceProtocol.ReceiverHoldsBody` | internal/rns/resource_receiver.go:552-624 | against a sender's advertisement, on any channel, a completed receiver holds the sender's body and proof, or a SHA-256 collision is in hand |
| `ResourceProtocol.SenderCompletesOnBody` | internal/rns/resource_sender.go:392-402 | a proof made from a body completes the sender if the body is its own, and only then up to a collision |
| `ResourceExactlyOnce.RequestedOnceSentOnce` | internal/rns/resource_receiver.go:316-334 | without loss, repeats or timers, in any delivery order: the fingerprints requested are the sender's first ones, each once, no more parts are sent than requested, and when nothing is in flight exactly n were requested and n sent |
| `ResourceExactlyOnce.WindowAfterPrefix` | internal/rns/resource_receiver.go:490-547 | with exactly the first lo slots filled the request is for slots lo, lo+1, ... up to the window, or for the next segment |
| `ResourceExactlyOnce.ReceivingStep` | internal/rns/resource_receiver.go:440-444 | taking in an outstanding part opens a new window only when the last has drained |
| `ResourceReceiver.Receiver.constructor` | internal/rns/resource_receiver.go:116-190 | a receiver opened on a validated advertisement knows exactly its hashmap entries and has no part |
| `ResourceReceiver.Receiver.Place` | internal/rns/resource_receiver.go:391-432 | the loop's placement, duplicate or unknown verdict and new state are those of the window scan |
| `ResourceReceiver.Receiver.ExtendHashmap` | internal/rns/resource_receiver.go:456-481 | the hashmap update in place equals splicing the segment in, or the error leaves the state alone |
| `ResourceReceiver.Receiver.CollectWanted` | internal/rns/resource_receiver.go:490-520 | the request loop collects the fingerprints of the first ten known unfilled slots |
| `ResourceReceiver.Receiver.RequestNextWindow` | internal/rns/resource_receiver.go:490-547 | the request and the new target, or no request |
| `ResourceReceiver.Receiver.Reassemble` | internal/rns/resource_receiver.go:552-588 | joining the parts, decrypting, and checking sizes and hash |
| `ResourceReceiver.AssemblesIff` | internal/rns/resource_receiver.go:552-588 | reassembly gives a body iff the parts join to the advertised size and decrypt to four octets and that body, of the advertised size and hash |
| `ResourceReceiver.Receiver.Dispatch` | internal/rns/resource_receiver.go:272-340 | one pass of the select loop |
| `ResourceReceiver.Receiver.Run` | internal/rns/resource_receiver.go:251-385 | the first request, then the whole loop over the events it selects: requests emitted, final state and outcome |
| `ResourceReceiver.Wanted` | internal/rns/resource_receiver.go:490-520 | at most ten slots, known, unfilled, ascending, with nothing unfilled before the first, and all of them if fewer than ten |
| `ResourceReceiver.AnyEventKeepsValid` | internal/rns/resource_receiver.go:391-481 | whatever arrives, the prefix never shrinks or passes n, the count matches the flags, and no filled slot is emptied or rewritten |
| `ResourceReceiver.AnyEventKeepsMatched` | internal/rns/resource_receiver.go:391-432 | whatever arrives, every filled slot's part has that slot's fingerprint |
| `ResourceReceiver.RunKeepsInvariants` | internal/rns/resource_receiver.go:251-385 | both hold at the end of every run on any channel |
| `ResourceReceiver.ForeignHmuIgnored` | internal/rns/resource_receiver.go:456-481 | a segment for another resource, out of turn or too long changes nothing and asks for nothing |
| `ResourceSender.New` | internal/rns/resource_sender.go:87-215 | construction: the sender's blob, parts, hashmap, hash and proof belong together, and it fails for a collision iff all four random_hash candidates collide within the guard |
| `ResourceSender.Transmitter.Fulfil` | internal/rns/resource_sender.go:439-462 | one part per requested fingerprint the sender knows, in order |
| `ResourceSender.Transmitter.Dispatch` | internal/rns/resource_sender.go:299-411 | one pass of the sender's select loop, retransmits counted as deliveries |
| `ResourceSender.Transmitter.Run` | internal/rns/resource_sender.go:299-411 | the advertisement, then the loop until the transfer has ended: all that is sent, and the final state |
| `ResourceSender.SendLoopEnds` | internal/rns/resource_sender.go:299-411 | exactly how a run of the send loop ends: with the first proof, cancel, deadline, fifth unanswered timer, or request for another resource or an unservable segment, as that event says; until then its status tells whether a request has come and as many parts been sent as there are |
| `ResourceSender.CompletesOnlyOnProof` | internal/rns/resource_sender.go:392-402 | the sender completes exactly on its precomputed proof, and a finished sender answers nothing |
| `ResourceSender.AdvRetriesBounded` | internal/rns/resource_sender.go:330-372 | one pass repeats the advertisement only below four repeats and before any request has come in |
| `ResourceSender.RepeatsExact` | internal/rns/resource_sender.go:330-372 | over any run the advertisement is repeated exactly min(retries left, timer firings before anything else happens) times |
| `ResourceSender.AnswersExact` | internal/rns/resource_sender.go:439-462 | on distinct fingerprints, requested slots are answered by exactly their parts, in order |
| `ResourceSender.AnswersAreParts` | internal/rns/resource_sender.go:439-462 | whatever is requested, only the sender's own parts go out |
| `ResourceHash.ConstantsDerived` | internal/rns/resource.go:26-51 | 431, 464, 74 and 224 are the values of the constant expressions |
| `ResourceHash.SplitCorrect` | internal/rns/resource_hash.go:78-93 | slices join back to the blob, there are ceil(len/SDU) of them, none empty or over SDU, only the last short |
| `ResourceHash.SplitParts` | internal/rns/resource_hash.go:78-93 | the offset loop produces those slices |
| `ResourceHash.BuildHashmap` | internal/rns/resource_hash.go:104-124 | succeeds iff no two parts at most 224 apart share a fingerprint, and then returns every fingerprint in order |
| `ResourceHash.NearCollisionGrows` | internal/rns/resource_hash.go:104-124 | part n adds a near collision iff its fingerprint is on the sliding guard list |
| `ResourceHash.PrintsAgreeIff` | internal/rns/resource_hash.go:56-70 | two parts share a fingerprint iff their salted digests start with the same four octets |
| `ResourceHash.WindowHasOneMatch` | internal/rns/resource_receiver.go:395-422 | after the guard, any 224 consecutive slots hold a fingerprint at most once |
| `ResourceHash.GuardMakesDistinct` | internal/rns/resource_hash.go:104-124 | up to 225 parts the guard makes fingerprints globally distinct |
| `ResourceHash.FindInverse` | internal/rns/resource_sender.go:531-539 | on distinct fingerprints lookup is the inverse of indexing |
| `ResourceHash.FindInverseIff` | internal/rns/resource_sender.go:525-539 | and only then |
| `ResourceHash.FindPartByMapHash` | internal/rns/resource_sender.go:531-539 | the scan returns the first match over the whole hashmap, or -1 |
| `ResourceWire.ParseBuildReq` | internal/rns/resource_wire.go:42-113 | a built request parses back to itself, without a last_map_hash it did not use |
| `ResourceWire.BuildParseReq` | internal/rns/resource_wire.go:42-113 | every accepted request body is the encoding of what it parses to |
| `ResourceWire.ReqLayout` | internal/rns/resource_wire.go:42-70 | where the flag, the last_map_hash, the resource and each fingerprint lie in a request |
| `ResourceWire.BuildResourceReq` | internal/rns/resource_wire.go:42-70 | the append loop's encoding and its error cases |
| `ResourceWire.ParseResourceReq` | internal/rns/resource_wire.go:73-113 | the parse loop's result and its error cases |
| `ResourceWire.ProofRoundTrip` | internal/rns/resource_wire.go:231-256 | proof bodies build and parse as inverses, both ways |
| `ResourceWire.ProofEqualsConstantTime` | internal/rns/resource_wire.go:292-306 | the accumulating comparison is equality |
| `ResourceWire.AdvRoundTrip` | internal/rns/resource_adv.go:62-198 | packing cuts the hashmap to segment 0 and parsing accepts the rest unchanged |
| `ResourceWire.AdvAcceptedIff` | internal/rns/resource_adv.go:98-198 | a receiver takes on exactly whole, uncompressed, single-segment resources without metadata, within the caps, with well-formed fields and some fingerprints |
| `OutboundWorkers.QueueSafe` | internal/service/outbound.go:179-374 | for any number of workers, schedule, clock and outcomes: no message is held by two workers, none is sent more than maxAttempts times, every enqueued message is in exactly one of pending, delivered and failed, marks are exactly the workers', pending is in enqueue order |
| `OutboundWorkers.DrainBounded` | internal/service/outbound.go:240-374 | with no new enqueues the sends made and the attempts the queued messages then have left are no more than they had, whatever fails |
| `OutboundWorkers.DrainEmpties` | internal/service/outbound.go:240-374 | however any number of workers interleave and whatever every send returns: a run without enqueues has at most (3 * maxAttempts + 1) steps that do something per pending message, and as many as the messages have left leave nothing pending |
| `OutboundWorkers.CanMoveIffPending` | internal/service/outbound.go:240-301 | and once every wait is over some worker has such a step iff something is pending; with nobody at work any worker can pick |
| `OutboundWorkers.NoWorkIffEmpty` | internal/service/outbound.go:301-374 | in every reachable state the steps left are none iff nothing is pending, whoever holds what |
| `OutboundWorkers.NothingDueIffEmpty` | internal/service/outbound.go:267-301 | with nobody at work and every wait over, nothing is due iff nothing is pending |
| `OutboundWorkers.RetryWaits` | internal/service/outbound.go:327-354 | in every interleaving, from a failed attempt with attempts left until the message is sent again: no worker takes it before its wait is over, from then on it is due unless its id is being sent, and whoever is about to send it took it no sooner; the wait is the path wait iff the recipient was unknown and attempts exceed the pathless tries |
| `OutboundWorkers.FailureWaits` | internal/service/outbound.go:344-351 | such a failure leaves the message queued, nobody sending it, until exactly that time |
| `OutboundWorkers.EnqueuedIsDue` | internal/service/outbound.go:179-193 | a new message is queued last and due at once unless its id is being sent |
| `OutboundQueue.ChoiceIsArgmax` | internal/service/outbound.go:267-301 | the loop's choice is due, free, unbeaten by (known, last announce), and the earliest such; none only when none is due and free |
| `OutboundQueue.PickIsMostRecent` | internal/service/outbound.go:254-301 | told from announces alone: no due, free message has a recipient heard from more recently, one never heard from is picked only if no other is known, and every earlier message is strictly less recent |
| `OutboundQueue.ChoiceUnique` | internal/service/outbound.go:267-301 | there is only one such choice |
| `OutboundQueue.WithoutExact` | internal/service/outbound.go:357-364 | removal takes out exactly that message and keeps enqueue order |
| `OutboundQueue.DeliveryQueue.EnqueueBubble` | internal/service/outbound.go:179-193 | the message goes to the end with no attempts and no wait |
| `OutboundQueue.DeliveryQueue.PickDue` | internal/service/outbound.go:267-301 | returns the argmax choice and marks it in flight, or nothing |
| `OutboundQueue.DeliveryQueue.BeginAttempt` | internal/service/outbound.go:307-311 | the first locked section: the attempt is counted before the send |
| `OutboundQueue.DeliveryQueue.RemoveLocked` | internal/service/outbound.go:357-364 | splices the message out by identity, or changes nothing |
| `OutboundQueue.DeliveryQueue.Settle` | internal/service/outbound.go:330-354 | remove on delivery or exhaustion, otherwise reschedule by the right wait |
| `OutboundQueue.DeliveryQueue.FinishAttempt` | internal/service/outbound.go:327-354 | the second locked section, mark cleared whatever the outcome |
| `OutboundQueue.DeliveryQueue.ProcessOnce` | internal/service/outbound.go:240-251 | ends whatever the sends return, with nothing due left, within the attempts the queue had; and under a clock that only moves on, a message sent twice was sent again no sooner than the shorter wait after the first send ended |
| `OutboundQueue.DeliveryQueue.OnePass` | internal/service/outbound.go:240-354 | one pick, send and settle: every other message as it was, and this one gone, or put off by the wait it earned |
| `OutboundQueue.StandingClockSendsOnce` | internal/service/outbound.go:240-251 | so with positive waits a drain under a standing clock sends each message at most once |
| `OutboundQueue.SettleKeepsBudget` | internal/service/outbound.go:330-354 | settling never adds attempts and keeps every queued message under its limit |
| `OutboundQueue.PassSpendsBudget` | internal/service/outbound.go:240-251 | a whole pick, send and settle uses up at least one attempt |
| `IdMap.RefinesHistory` | internal/idmap/idmap.go:117-211 | for any operations: an indexed id maps to the bubble last registered for it, a lookup answers only with that bubble and never an expired one, and with the cap on at most maxSize ids are indexed |
| `IdMap.DisciplinedStaysConsistent` | internal/idmap/idmap.go:117-211 | when each bubble gives a recipient one id: every indexed id is a view of its bubble and every indexed bubble is in the LRU list exactly once, after every history |
| `IdMap.RecordKeepsIff` | internal/idmap/idmap.go:126-133 | a registration keeps the index consistent iff it does not overwrite an indexed id that is no other recipient's |
| `IdMap.OverwriteLeavesStaleId` | internal/idmap/idmap.go:126-133 | registering two ids for one recipient leaves the first pointing at a bubble it is no view of |
| `IdMap.UncappedIsHistory` | internal/idmap/idmap.go:117-158 | with no cap and nothing expiring, lookups answer exactly from history |
| `IdMap.RegisterCapped` | internal/idmap/idmap.go:188-199 | a registration ends within the cap, whatever was registered before |
| `IdMap.LookupsAgree` | internal/idmap/idmap.go:142-158 | if no id is a view of two bubbles, a lookup that drops an expired bubble changes no other lookup's answer |
| `IdMapEviction.ListByRecency` | internal/idmap/idmap.go:117-158 | after any operations the eviction list runs from the bubble registered or answered last to the one touched longest ago |
| `IdMapEviction.EvictedIsOldest` | internal/idmap/idmap.go:175-199 | whatever a registration drops, for expiry or the cap, was touched longer ago than everything it keeps |
| `IdMapEviction.EvictsExpired` | internal/idmap/idmap.go:175-184 | expiry drops exactly the bubbles past the first, from the old end, that has not expired |
| `IdMapEviction.CapDropsLeast` | internal/idmap/idmap.go:188-199 | the cap drops as few bubbles from the old end as bring the ids within it, or all |
| `IdMapEviction.RegisteredFoundIff` | internal/idmap/idmap.go:117-158 | when no id is registered for two bubbles: a registration's own id is found afterwards iff its bubble has not expired and the bubble's indexed ids, this one among them, fit the cap |
| `IdMapEviction.TouchedOutlives` | internal/idmap/idmap.go:142-158 | a bubble touched since another was, as by a lookup, is listed as long as that other is, whatever is registered and looked up meanwhile, short of its own expiry |
| `IdMap.Cache.constructor` | internal/idmap/idmap.go:98-109 | an empty cache; a negative cap means none |
| `IdMap.Cache.RegisterView` | internal/idmap/idmap.go:117-136 | evict, record, move to front, cap, in that order; an empty id does nothing |
| `IdMap.Cache.Lookup` | internal/idmap/idmap.go:142-158 | drop an expired bubble, otherwise move it to the front |
| `IdMap.Cache.EvictExpiredLocked` | internal/idmap/idmap.go:175-184 | drops from the old end up to the first survivor |
| `IdMap.Cache.EnforceCapLocked` | internal/idmap/idmap.go:188-199 | drops from the old end until within the cap or empty |
| `IdMap.Cache.RemoveBubbleLocked` | internal/idmap/idmap.go:203-211 | every view's key goes, and the list entry |
| `Rewrite.RewriteFor` | internal/service/rewrite.go:215-241 | writes no object that existed before; with unambiguous keys, skips iff an annotated cached bubble has no view for the recipient, and otherwise returns a new map that is the recipient's copy |
| `Rewrite.CopyFollowsCache` | internal/service/rewrite.go:164-241 | told by the cache alone: a field with a cached target is the same field aimed at the recipient's own view, every other field is untouched |
| `Rewrite.SkippedFollowsCache` | internal/service/rewrite.go:215-226 | a recipient is skipped iff a cached reaction, comment or continuation target is one it has no view of |
| `Rewrite.BindsToOwnCopy` | internal/service/rewrite.go:164-241 | with the cache's history: the replacement is the id registered for that very recipient under the bubble last registered for the original target |
| `Rewrite.BuildRewrite` | internal/service/rewrite.go:164-213 | in any iteration order, looking up in the real cache, the scan plans exactly the fields whose targets the cache had when it began, if no id is a view of two bubbles; none gives no plan |
| `Rewrite.DictBubbleIff` | internal/service/rewrite.go:275-289 | a reaction, comment or continuation points at a bubble iff its target is a non-empty id the cache answers with it |
| `Rewrite.TextKeyReads` | internal/service/attachments.go:58-95 | a text key reads as the number its decimal digits make iff that is within 64 bits, sign included |
| `Rewrite.HashReads` | internal/service/rewrite.go:291-314 | a message id reads the same from its octets and from 64 hex digits |
| `Rewrite.ExtractDictTarget` | internal/service/rewrite.go:275-289 | the hex of the inner target's octets, or empty |
| `Rewrite.CloneFields` | internal/service/rewrite.go:258-264 | a new object with the same entries |
| `Rewrite.SubstituteDictTarget` | internal/service/rewrite.go:338-377 | replaces one inner target in a rebuilt nested map, reports a missing view, or finds nothing |
| `Rewrite.SubstituteReplyHash` | internal/service/rewrite.go:382-403 | replaces field 0x30, reports a missing view, or finds nothing |
| `Rewrite.StripReplyHash` | internal/service/rewrite.go:409-418 | removes every key that reads as 0x30 and nothing else |
| `Forward.ForwardToRoster` | internal/service/forward.go:49-78 | one job per served member and no other, none to the sender, each with its own copy still intact when the loop ends, no shared map changed, and the count of jobs |
| `Forward.FanOutIsDisciplined` | internal/service/forward.go:49-78 | the sender's pre-registered view and one per delivered job register pairwise different recipients |
| `Forward.FanOutsKeepCacheConsistent` | internal/service/inbox.go:171-187 | so after any history of fan-outs and lookups the cache's index is consistent |
| `Hex.EncodeDecode` | internal/roster/roster.go:526-531 | lower-case keys and octets name each other one to one |
| `Hex.EncodeAt` | internal/roster/roster.go:526-531 | two lower-case digits an octet, high half first |
| `Handshake.HandshakeAgreement` | internal/rns/link_state.go:424-588 | for every request, signalled or not, however relays rewrote the headers, mirrored or overridden signalling: the responder accepts, both hold one link_id, and the initiator accepts the proof and derives the responder's keys |
| `Handshake.RepeatedRequestAgreesIff` | internal/rns/link_state.go:543-588 | for every number of copies of one request and every copy whose proof the initiator takes: all are accepted under one link_id, the initiator holds that answer's keys, and these are the keys of the link the responder lists in the end iff both answers' secrets derive to the same octets |
| `Handshake.RequestArrives` | internal/rns/link.go:147-200 | the responder reads the initiator's keys, and the link_id depends on keys and destination alone |
| `Handshake.ProofArrives` | internal/rns/link.go:245-346 | the octets the initiator rebuilds are the octets the responder signed |
| `Handshake.CompletesIffSigned` | internal/rns/link.go:289-346 | on the packet's own octets: a proof completes a pending link iff it is an LRPROOF for that link of 96 or 99 octets whose first 64 are a signature the responder's key accepts over link_id, X25519 key, that key and signalling, and the exchange succeeds; the keys are those of the signed X25519 key |
| `Handshake.AcceptsIff` | internal/rns/link_state.go:543-570 | the responder answers exactly a LINKREQUEST of 64 or 67 octets that packs, when the exchange with its X25519 key succeeds |
| `Handshake.RequestWire` | internal/rns/link.go:105-140 | the octets of a LINKREQUEST, built iff the lengths are right |
| `Handshake.ProofWire` | internal/rns/link.go:245-280 | the octets of an LRPROOF and what its signature covers |
| `Handshake.DecodeEncode` | internal/rns/link.go:83-100 | decoding gives back signalling iff it fits its 21 and 3 bits |
| `Handshake.EncodeDecode` | internal/rns/link.go:83-100 | any three octets are the encoding of their decoding |
| `Handshake.SignedDataCovers` | internal/rns/link.go:336-346 | two proofs sign one string iff link, key, signer and signalling octets agree |
| `Handshake.RoutedArrives` | internal/rns/transport.go:1190-1197 | promotion to HEADER_2 and any hop count is a rewriting the handshake withstands |
| `LinkData.DataIsAcknowledged` | internal/rns/link_data.go:25-149 | link DATA arrives as its plaintext and the proof sent back names exactly the packet hash its sender waits on, whatever headers relays gave either |
| `LinkData.AcknowledgesIff` | internal/rns/link_data.go:121-150 | an acknowledgement is accepted iff it is a 96-octet link proof whose last 64 octets the peer's key accepts as a signature of the first 32, the packet hash |
| `LinkData.LinkPacketWire` | internal/rns/link_data.go:22-45 | the octets of a packet on a link |
| `LinkData.DataFitsIff` | internal/rns/resource.go:26-43 | a link DATA packet plus the IFAC octet fits the MTU iff its plaintext is at most LinkMDU |
| `LinkData.PartsFit` | internal/rns/resource_hash.go:78-93 | every part fits the MTU even as HEADER_2 |
| `LinkLifecycle.Link.Activate` | internal/rns/link_state.go:496-517 | only a pending link with derivable keys becomes active |
| `LinkLifecycle.Link.TakeWaiter` | internal/rns/link_state.go:201-206 | hands out the hash's channel and forgets it |
| `LinkLifecycle.LinkManager.StartLinkAsInitiator` | internal/rns/link_state.go:424-473 | a pending link under the request's own link_id |
| `LinkLifecycle.LinkManager.AcceptIncomingLinkRequest` | internal/rns/link_state.go:543-588 | an active link with the handshake's keys, replacing any entry with that id |
| `LinkLifecycle.LinkManager.HandleLRProof` | internal/rns/link_state.go:480-525 | succeeds iff the link listed under the packet's destination is pending, the packet is signed by the responder's key over its own octets, and the exchange succeeds; only that link changes, to active with the handshake's keys |
| `LinkLifecycle.LinkManager.CloseLink` | internal/rns/link_state.go:630-645 | the link is closed, its keys gone and its entry removed, exactly its transfers are dropped and cancelled; every other link and transfer is untouched |
| `ResourceIndex.PrefixIffLink` | internal/rns/link_state.go:257-264 | the key prefix of a link picks out exactly that link's transfers, whatever lengths ids have |
| `ResourceIndex.KeyIffTransfer` | internal/rns/link_state.go:257-264 | two transfers share a key iff they are the same link and resource |
| `ResourceIndex.Transfers.RegisterReceiver` | internal/rns/link_state.go:286-298 | accepted iff no receiver has that link and resource; a refused one leaves the first in place |
| `ResourceIndex.Transfers.CountReceiversForLink` | internal/rns/link_state.go:337-348 | the number of entries with the link's prefix |
| `ResourceIndex.Transfers.CloseForLink` | internal/rns/link_state.go:353-381 | exactly the link's entries go and exactly their machines are cancelled |
| `ResourceIndex.OthersExact` | internal/rns/link_state.go:353-381 | a transfer survives the closing of a link iff it is another link's |
| `LinkLifecycle.LinkManager.ActiveTo` | internal/rns/link_state.go:400-413 | some active link with that destination as its peer, or none exists |
| `LinkWorld.RunsAreSafe` | internal/rns/link_state.go:173-216 | in every reachable state of any interleaving: keys exactly while active, no closed link listed, each activation channel closed at most once, each proof channel sent on at most once |
| `LinkTrust.ActiveOnlyBySignature` | internal/rns/link_state.go:480-525 | in every reachable state of any interleaving, an active link was answered by this end, or a packet arrived for its id signed by the key held as its peer's, whose exchange with the private key the link was started with, to its destination, gives the link's keys |
| `LinkTrust.WokenOnlyBySignature` | internal/rns/transport.go:1143-1175 | in every reachable state a send that has been signalled was acknowledged by an arrived packet for its link, signed over its packet hash by the link's peer |
| `LinkWorld.RunsMoveForward` | internal/rns/link_state.go:480-525 | over any run a link only moves pending, active, closed, and closed stays |
| `LinkWorld.StepMovesForward` | internal/rns/link_state.go:480-525 | only a proof's locked section activates a link |
| `LinkWorld.ProofWakesItsWaiter` | internal/rns/transport.go:1097-1175 | a verified proof that finds its send waiting, alone with its packet hash, takes out that send's channel, and whatever other goroutines do meanwhile the signal fills that channel and no other |
| `LinkWorld.NoSignalDropped` | internal/rns/link_state.go:201-216 | the non-blocking send always finds the channel empty |
| `LinkWorld.WakeableIff` | internal/rns/transport.go:1143-1175 | in every reachable state some continuation signals an unsignalled send iff its channel waits in its link's table and either the manager lists the link and some 64 octets are the peer's signature of the hash, or a valid acknowledgement for the hash has already found the link |
| `LinkWorld.HiddenIff` | internal/rns/transport.go:1061-1083 | a reachable unsignalled send stops being reachable, unsignalled, exactly by these steps: a send with its link and hash registers or clears; or its link is closed or its entry overwritten before a valid acknowledgement for its hash has found the link |
| `LinkWorld.ReusedHashHidesWaiter` | internal/rns/link_state.go:179-188 | a run from the start, the link opened and activated, in which two sends with one hash leave the first waiting where no continuation wakes it |
| `LinkWorld.TimeoutLosesOtherSend` | internal/rns/transport.go:1077-1083 | a run from the start in which two sends with different hashes share an active link, one times out and closes it, and no continuation wakes the other, its waiter still in place |
| `LinkWorld.ClosableIffListed` | internal/rns/link_state.go:630-645 | in every reachable state an open link can still be closed iff the table lists it |
| `LinkWorld.RepeatedRequestUnlists` | internal/rns/link_state.go:543-588 | a run from the start in which a LINKREQUEST answered twice, each time with new keys and a new private key, leaves the first link open and unlisted |
| `LinkWorld.UnlistedStaysOpen` | internal/rns/link_state.go:543-588 | such a link is never listed or closed again |
| `Packet.ParsePackExact` | internal/rns/packet.go:92-171 | parsing undoes packing exactly on packets whose fields fit the header |
| `Packet.PackParse` | internal/rns/packet.go:92-171 | every accepted byte string is the packing of what it parses to |
| `Packet.HashableIdentity` | internal/rns/packet.go:178-196 | two packets hash over the same octets iff they agree on destination type, packet type, dest_hash, context and data |
| `Packet.RoutingKeepsHash` | internal/rns/transport.go:1190-1197 | promotion, any hop count and a parse leave the hashed octets alone |
| `Packet.RoutingPromotes` | internal/rns/transport.go:1190-1197 | with a 16-octet transport_id a HEADER_1 packet goes out as HEADER_2 for the network, the transport_id in octets 2 to 17 and all that followed the hops unchanged after it; otherwise as it was |
| `Hdlc.StreamFraming` | internal/rns/hdlc.go:20-91 | any payloads with any idle flags decode to exactly the non-empty payloads in order, then end of stream |
| `Hdlc.NextReadsFrame` | internal/rns/hdlc.go:20-91 | one encoded frame is read back and the rest of the stream is left alone |
| `Hdlc.EncodeHdlc` | internal/rns/hdlc.go:20-35 | the append loop stuffs each octet between two flags |
| `Hdlc.Decoder.NextFrame` | internal/rns/hdlc.go:52-91 | the reader's loops return the next frame and consume exactly it |
| `Token.UnpadPad` | internal/rns/token.go:196-220 | unpadding undoes padding |
| `Token.PadUnpad` | internal/rns/token.go:196-220 | whatever unpadding accepts is the padding of what it returns |
| `Token.PadShape` | internal/rns/token.go:196-204 | one to a block of octets are added, each of them their number, up to a whole number of blocks |
| `Token.Pkcs7Pad` | internal/rns/token.go:196-204 | the fill loop pads to the next whole block |
| `Token.Pkcs7Unpad` | internal/rns/token.go:206-220 | the scan accepts exactly well-padded data |
| `Token.LinkEncryptLength` | internal/rns/link_token.go:44-59 | a token's length is 48 plus the padded length |
| `Token.LinkDecryptEncrypt` | internal/rns/link_token.go:44-89 | decryption with the same keys returns the plaintext |
| `Token.DecryptsIff` | internal/rns/link_token.go:61-89 | a token decrypts to a plaintext iff its last 32 octets are the MAC of all before them and the rest decrypts to that plaintext, well padded |
| `Roles.EffectiveIsMax` | internal/commands/handlers.go:153-173 | the effective role is the larger of config and grant, so never below the config's |
| `Roles.OnlyUserModeGrants` | internal/commands/handlers.go:572-624 | a grant rises only by an admin's /usermode, and only its target's |
| `Roles.NonAdminsMakeNoAdmins` | internal/commands/handlers.go:103-151 | one command from a non-admin makes no new admin |
| `Roles.UserModeKeepsCaller` | internal/commands/handlers.go:572-624 | an admin who uses /usermode is still an admin |
| `RoleRuns.StripsIff` | internal/commands/handlers.go:572-670 | an event ends a usable admin's standing exactly under listed guards: a heard mod or admin bans it; or, if only a grant made it admin, it leaves, is kicked, is swept as inactive, or another admin lowers it |
| `RoleRuns.LastAdminLostIff` | internal/commands/handlers.go:397-670 | an event, command or sweep, leaves no usable admin iff it strips every one there is |
| `RoleRuns.AdminSurvivesIff` | internal/commands/handlers.go:103-151 | over a run of commands and sweeps there is a usable admin at every point iff no event strips all of them |
| `RoleRuns.BanFreeSurvivalIff` | internal/commands/handlers.go:153-173 | a usable admin survives every run of commands and sweeps without /ban iff the config names one that is not banned |
| `RoleRuns.NoRoomIsBanProof` | internal/commands/handlers.go:651-670 | with /ban, whatever the config, from every sound room some run leaves no usable admin |
| `RoleRuns.ModBansConfigAdmin` | internal/commands/handlers.go:651-670 | one such run: a mod bans the only config admin |
| `RoleRuns.LoneAdminGoes` | internal/roster/roster.go:239-257 | others: a lone runtime admin leaves, or a sweep removes it |
| `RoleRuns.UserModeNeverLocksOut` | internal/commands/handlers.go:572-624 | any run of /usermode commands from a room with a usable admin leaves one |
| `RoleRuns.NonAdminRunsMakeNoAdmins` | internal/commands/handlers.go:103-151 | however long others than heard admins go on, with sweeps between, every admin at the end was one at the start |
| `RoleRuns.BannedHasNoSay` | internal/service/inbox.go:37-40 | until some ban is lifted, a banned hash stays banned and out, and the run is as if it had sent nothing |
| `RoleRuns.RunKeepsSound` | internal/commands/handlers.go:358-395 | no run of commands and sweeps misfiles an entry, makes a banned hash a member or outgrows the member cap |
| `RoleRuns.MemberAfterIff` | internal/commands/handlers.go:358-670 | who is a member after an event: a member that did not leave, was not swept, and was not kicked or banned by a heard mod or admin; or a heard stranger that joined a room with a place |
| `RoleRuns.BannedAfterIff` | internal/commands/handlers.go:651-712 | who is banned after an event: whoever a heard mod or admin bans, and the banned whose ban none of them lifts by name or by a prefix only it has |
| `RoleRuns.EntryAfter` | internal/commands/handlers.go:407-624 | what a member that stays is filed as: a nickname or grant it was given, a flag it set for itself, everything else as it was |
| `RoleRuns.NewcomerAfter` | internal/commands/handlers.go:358-395 | a newcomer is filed under its hash with the announced name, unmuted, without a grant |
| `RoleRuns.Inbox.OnCommand` | internal/service/inbox.go:37-80 | a banned sender's command changes nothing; any other is dispatched |
| `Roles.Roster.Resolve` | internal/roster/roster.go:427-463 | the one member with the nickname, or failing any the one with the hex prefix of four or more |
| `Roles.ResolvesIff` | internal/roster/roster.go:427-463 | a query names a member iff it is the only one with that nickname, or nobody has it and it is the only one whose hash starts with these four or more hex digits |
| `Roles.NickOkIff` | internal/commands/handlers.go:466-466 | 1 to 24 ASCII letters, digits, underscores and hyphens |
| `Roles.Roster.Prune` | internal/roster/roster.go:239-257 | removes exactly the inactive members, whatever their role, and returns them |
| `Roles.Dispatcher.HandleJoin` | internal/commands/handlers.go:358-395 | joins unless member, malformed, banned or full |
| `Roles.Dispatcher.HandleUserMode` | internal/commands/handlers.go:572-624 | sets the target's grant unless the caller is no admin or would lock itself out |
| `Roles.Dispatcher.HandleKick` | internal/commands/handlers.go:626-649 | a mod or admin removes the one member named |
| `Roles.Dispatcher.HandleBan` | internal/commands/handlers.go:651-670 | a mod or admin removes and bans the one member named |
| `Roles.Dispatcher.HandleUnban` | internal/commands/handlers.go:672-712 | lifts the exact entry, else the only one with that prefix |
| `Roles.Dispatcher.HandleNick` | internal/commands/handlers.go:519-563 | own nickname, or as mod another's |
| `Roles.Dispatcher.Dispatch` | internal/commands/handlers.go:103-151 | the roster after any command is that of the specification |

## Left out

- AES, HMAC, HKDF, X25519, Ed25519 and SHA-256 themselves: they are function values, with hypotheses where a theorem needs one.
- msgpack and JSON octets: advertisements, segments and field maps are values; only their checks and cuts are modelled.
- The opportunistic (non-link) token in internal/rns/token.go, keepalive, RTT and identify packets, and link idle timers: no harder property rests on them.
- Sockets, reconnection, Broadcast failures and the retransmission of LRPROOF and DATA proofs: a failed or repeated send is a lost or repeated message of the network.
- Machine channels that drop a packet when full count as loss; the octets of cancel packets are not modelled, nor is the initiator's cancel, which nothing sends.
- The lengths of timeouts and deadlines: they are events that may come at any moment.
- Compression, metadata and multi-segment resources: the code only rejects them.
- Persistence, crash and restart, and loading of saved state: claims are about one process lifetime, and persistence errors do not occur.
- Text of replies, help, lists, history and replay, sanitising of announced names (the sanitised name is an input), attachment policy, and the reactor stamp on relayed reactions.
- Which members a sweep finds inactive: join, message and announce times are not kept, so a sweep may remove any set.
- Nicknames adopted from announces: they only fill an empty nickname.
- Concurrent commands: commands are taken one at a time, since /join checks and adds without one lock.
- ResourceReceiver.Receiver.constructor: the refusals before it (inactive link, full link, receiver already registered) are in ResourceProtocol.AdvStep and ResourceIndex.Transfers.RegisterReceiver, not here.
- ResourceSender.AdvRetriesBounded: one pass of the loop; the count over a whole run is ResourceSender.RepeatsExact.
- ResourceOutcomes.TwiceIffReopened: runs with an aborted receiver are in ResourceOutcomes.ReachesIffInHand; a sender that has ended answers no request, so whether its receiver still fills then depends on what is in flight and is not stated.
- ResourceOutcomes.ArrivesIffDeliverable: says nothing of a sender whose mixed-up parts happen to pass the blob's MAC, since no property of the MAC is assumed.
- ResourceSender.Transmitter.Dispatch: the delivered count includes retransmitted parts as in the code, so awaiting the proof does not mean every distinct part was sent.
- Rewrite.BuildRewrite: exact only when no id is a view of two bubbles, and with one time for all lookups of a scan.
- Rewrite.RewriteFor: says exactly what the copy is only for field maps in which no two keys read as the same annotation number and no annotation has two targets; isolation holds for every map.
- OutboundQueue.DeliveryQueue.EnqueueBubble: the message's body, fields and bubble are not carried, since the queue never reads them.
- Forward.FanOutIsDisciplined: assumes lower-case roster keys, as the roster writes them, and that a delivered message is registered once, as the queue does.
- Roles.Roster.Resolve: lower-casing is that of ASCII letters, and arguments have no surrounding blanks, as the command parser splits them.
- OutboundQueue.DeliveryQueue.Settle: the path request sent along with a path wait is not modelled, only the wait.
- Roles.Roster.AddOrUpdate: join, message and announce times are not modelled.
