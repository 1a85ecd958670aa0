/** The sending half of a Resource transfer: construction, part serving, hashmap segments, proof check. */
module ResourceSender {
  import opened Octets
  import opened ResourceHash
  import opened ResourceWire
  import Token

  const MAX_ADV_RETRIES := 4

  /** Everything fixed at construction. */
  datatype Sender = Sender(
    prim: Primitives, signing: Bytes, encryption: Bytes,
    body: Bytes, prefix: Bytes, random: Bytes, wire: Bytes,
    parts: seq<Bytes>, hashmap: Bytes, hash: Bytes, proof: Bytes)

  datatype SendError = EmptyBody | LinkNotActive | EncryptFailed | BodyTooLarge | CollisionGuardError | WrongResource
                     | NoLastMapHash | UnknownLastMapHash | NotSegmentBoundary | PastEnd
                     | ProofMismatch | Cancelled | Expired | AdvTimeout

  /** What construction guarantees: the parts are the slices of one encryption of prefix || body,
      the hashmap holds their fingerprints with no near collision, and the two hashes are of the body. */
  ghost predicate Built(s: Sender) {
    && |s.body| > 0 && |s.prefix| == RANDOM_LEN && |s.random| == RANDOM_LEN
    && (exists iv :: Token.LinkEncrypt(s.prim, s.prefix + s.body, s.signing, s.encryption, iv) == Ok(s.wire))
    && s.parts == Split(s.wire) && 0 < |s.parts| <= MAX_PARTS
    && s.hashmap == HashmapOf(s.prim, s.parts, s.random)
    && !NearCollision(s.prim, s.parts, s.random)
    && s.hash == Hash(s.prim, s.body, s.random)
    && s.proof == ExpectedProof(s.prim, s.body, s.hash)
  }

  /** The advertisement the sender packs. */
  function FullAdv(s: Sender): Adv {
    Adv(|s.wire|, |s.body|, |s.parts|, s.hash, s.random, s.hash, 1, 1, None, 1, s.hashmap)
  }

  /** NewResourceSender, with the link state, the body prefix, the IV and the random_hash candidates
      supplied by the caller. It fails for want of a candidate iff all of the first four collide. */
  method New(prim: Primitives, linkActive: bool, signing: Bytes, encryption: Bytes, body: Bytes,
             prefix: Bytes, iv: Bytes, candidates: seq<Bytes>) returns (r: Result<Sender, SendError>)
    requires |prefix| == RANDOM_LEN && |iv| == 16 && |candidates| == MAX_COLLISION_RETRIES
    requires forall k :: 0 <= k < |candidates| ==> |candidates[k]| == RANDOM_LEN
    ensures body == [] ==> r == Err(EmptyBody)
    ensures body != [] && !linkActive ==> r == Err(LinkNotActive)
    ensures r.Ok? ==> Built(r.value) && r.value.body == body && r.value.prefix == prefix && r.value.random in candidates
                      && r.value.prim == prim && r.value.signing == signing && r.value.encryption == encryption
    ensures body != [] && linkActive ==>
      match Token.LinkEncrypt(prim, prefix + body, signing, encryption, iv)
      case Err(_) => r == Err(EncryptFailed)
      case Ok(wire) =>
        if |Split(wire)| > MAX_PARTS then r == Err(BodyTooLarge)
        else (r == Err(CollisionGuardError) <==>
              forall k :: 0 <= k < |candidates| ==> NearCollision(prim, Split(wire), candidates[k]))
             && (r.Ok? || r == Err(CollisionGuardError))
  {
    if body == [] { return Err(EmptyBody); }
    if !linkActive { return Err(LinkNotActive); }
    var wireR := Token.LinkEncrypt(prim, prefix + body, signing, encryption, iv);
    if wireR.Err? { return Err(EncryptFailed); }
    var wire := wireR.value;
    var parts := SplitParts(wire);
    SplitCorrect(wire);
    assert |wire| >= 48;
    if |parts| > MAX_PARTS { return Err(BodyTooLarge); }
    for retry := 0 to MAX_COLLISION_RETRIES
      invariant forall k :: 0 <= k < retry ==> NearCollision(prim, parts, candidates[k])
    {
      var hm := BuildHashmap(prim, parts, candidates[retry]);
      if hm.Ok? {
        var random := candidates[retry];
        var hash := Hash(prim, body, random);
        return Ok(Sender(prim, signing, encryption, body, prefix, random, wire, parts, hm.value, hash,
                         ExpectedProof(prim, body, hash)));
      }
    }
    return Err(CollisionGuardError);
  }

  // ---- serving ----

  /** The parts answering a list of requested fingerprints; unknown fingerprints are skipped. */
  function Answers(s: Sender, requested: seq<Bytes>): seq<Bytes>
    requires |s.hashmap| == 4 * |s.parts|
  {
    if requested == [] then []
    else
      var k := FindFrom(s.hashmap, |s.parts|, requested[0], 0);
      (if k < 0 then [] else [s.parts[k]]) + Answers(s, requested[1..])
  }

  function ServeHmu(s: Sender, q: Request): Result<ParsedHmu, SendError>
    requires |s.hashmap| == 4 * |s.parts| && |s.hash| == 32
  {
    if |q.lastMapHash| != MAP_HASH_LEN then Err(NoLastMapHash)
    else
      var k := FindFrom(s.hashmap, |s.parts|, q.lastMapHash, 0);
      if k < 0 then Err(UnknownLastMapHash)
      else if (k + 1) % SEGMENT != 0 then Err(NotSegmentBoundary)
      else
        var start := k + 1;
        var end := if start + SEGMENT > |s.parts| then |s.parts| else start + SEGMENT;
        if start >= end then Err(PastEnd)
        else Ok(Hmu(s.hash, start / SEGMENT, s.hashmap[4 * start..4 * end]))
  }

  // ---- the send loop ----

  datatype Status = Queued | Advertised | Transferring | AwaitingProof | Complete | Failed(error: SendError)

  datatype Tx = Tx(status: Status, gotFirstReq: bool, advRetries: int, delivered: int)

  datatype Event = Deadline | CancelIn | AdvTimer | ReqIn(req: Request) | PrfIn(proof: Proof)

  predicate Ended(t: Tx) { t.status.Complete? || t.status.Failed? }

  function PartMsgs(parts: seq<Bytes>): seq<Msg> {
    seq(|parts|, i requires 0 <= i < |parts| => PartMsg(parts[i]))
  }

  function Start(): Tx { Tx(Advertised, false, 0, 0) }

  /** One pass of the sender's select. */
  function Handle(s: Sender, t: Tx, adv: Adv, e: Event): (Tx, seq<Msg>)
    requires |s.hashmap| == 4 * |s.parts| && |s.hash| == 32
  {
    if Ended(t) then (t, [])
    else match e
      case Deadline => (t.(status := Failed(Expired)), [])
      case CancelIn => (t.(status := Failed(Cancelled)), [])
      case AdvTimer =>
        if t.gotFirstReq then (t, [])
        else if t.advRetries + 1 > MAX_ADV_RETRIES then
          (t.(advRetries := t.advRetries + 1, status := Failed(AdvTimeout)), [])
        else (t.(advRetries := t.advRetries + 1), [AdvMsg(adv)])
      case ReqIn(q) =>
        var t1 := if t.gotFirstReq then t else t.(gotFirstReq := true, status := Transferring);
        if q.resourceHash != s.hash then (t1.(status := Failed(WrongResource)), [])
        else
          var parts := Answers(s, q.requested);
          var t2 := t1.(delivered := t1.delivered + |parts|);
          if q.exhausted then
            match ServeHmu(s, q)
            case Err(err) => (t2.(status := Failed(err)), PartMsgs(parts))
            case Ok(h) => (AfterDelivery(s, t2), PartMsgs(parts) + [HmuMsg(h)])
          else (AfterDelivery(s, t2), PartMsgs(parts))
      case PrfIn(p) =>
        if p.fullProof != s.proof then (t.(status := Failed(ProofMismatch)), [])
        else (t.(status := Complete), [])
  }

  function AfterDelivery(s: Sender, t: Tx): Tx {
    if t.delivered >= |s.parts| then t.(status := AwaitingProof) else t
  }

  class Transmitter {
    const s: Sender
    const adv: Adv
    var t: Tx

    ghost predicate Ready() {
      |s.hashmap| == 4 * |s.parts| && |s.hash| == 32
    }

    constructor (sender: Sender, wireAdv: Adv)
      ensures s == sender && adv == wireAdv && t == Start()
    {
      s, adv, t := sender, wireAdv, Start();
    }

    /** fulfillRequest: one part packet per requested fingerprint the sender knows. */
    method Fulfil(requested: seq<Bytes>) returns (parts: seq<Bytes>)
      requires Ready()
      ensures parts == Answers(s, requested)
    {
      parts := [];
      for i := 0 to |requested|
        invariant parts + Answers(s, requested[i..]) == Answers(s, requested)
      {
        assert requested[i..][0] == requested[i] && requested[i..][1..] == requested[i + 1..];
        var k := FindPartByMapHash(s.hashmap, |s.parts|, requested[i]);
        if k >= 0 { parts := parts + [s.parts[k]]; }
      }
    }

    method Dispatch(e: Event) returns (out: seq<Msg>)
      requires Ready()
      modifies this
      ensures (t, out) == Handle(s, old(t), adv, e)
    {
      out := [];
      if Ended(t) { return; }
      match e {
        case Deadline => t := t.(status := Failed(Expired));
        case CancelIn => t := t.(status := Failed(Cancelled));
        case AdvTimer =>
          if t.gotFirstReq { return; }
          t := t.(advRetries := t.advRetries + 1);
          if t.advRetries > MAX_ADV_RETRIES { t := t.(status := Failed(AdvTimeout)); return; }
          out := [AdvMsg(adv)];
        case ReqIn(q) =>
          if !t.gotFirstReq { t := t.(gotFirstReq := true, status := Transferring); }
          if q.resourceHash != s.hash { t := t.(status := Failed(WrongResource)); return; }
          var parts := Fulfil(q.requested);
          t := t.(delivered := t.delivered + |parts|);
          out := PartMsgs(parts);
          if q.exhausted {
            var h := ServeHmu(s, q);
            if h.Err? { t := t.(status := Failed(h.error)); return; }
            out := out + [HmuMsg(h.value)];
          }
          if t.delivered >= |s.parts| { t := t.(status := AwaitingProof); }
        case PrfIn(p) =>
          var same := ProofEqualsConstantTime(p.fullProof, s.proof);
          t := t.(status := if same then Complete else Failed(ProofMismatch));
      }
    }

    /** Run: broadcast the advertisement, then select until the transfer has ended. */
    method Run(events: seq<Event>) returns (out: seq<Msg>)
      requires Ready() && t == Start()
      modifies this
      ensures t == Fed(s, adv, events) && out == [AdvMsg(adv)] + Spoken(s, adv, events)
    {
      out := [AdvMsg(adv)];
      for k := 0 to |events|
        invariant t == Fed(s, adv, events[..k]) && out == [AdvMsg(adv)] + Spoken(s, adv, events[..k])
      {
        assert events[..k + 1][..k] == events[..k];
        if Ended(t) {
          EndedForGood(s, adv, events, k);
          return;
        }
        var more := Dispatch(events[k]);
        out := out + more;
      }
      assert events[..|events|] == events;
    }
  }

  lemma {:induction false} EndedForGood(s: Sender, adv: Adv, events: seq<Event>, k: nat)
    requires |s.hashmap| == 4 * |s.parts| && |s.hash| == 32 && k <= |events| && Ended(Fed(s, adv, events[..k]))
    ensures Fed(s, adv, events) == Fed(s, adv, events[..k]) && Spoken(s, adv, events) == Spoken(s, adv, events[..k])
    decreases |events|
  {
    if k == |events| {
      assert events[..k] == events;
    } else {
      var front := events[..|events| - 1];
      assert front[..k] == events[..k];
      EndedForGood(s, adv, front, k);
    }
  }

  /** The sender reaches Complete only on the proof it computed at construction, and never leaves it. */
  lemma CompletesOnlyOnProof(s: Sender, t: Tx, adv: Adv, e: Event)
    requires |s.hashmap| == 4 * |s.parts| && |s.hash| == 32
    ensures Handle(s, t, adv, e).0.status.Complete? <==>
            t.status.Complete? || (!Ended(t) && e.PrfIn? && e.proof.fullProof == s.proof)
    ensures Ended(t) ==> Handle(s, t, adv, e) == (t, [])
  {}

  /** What a live sender says to a request for its resource: the parts, then the segment if asked for. */
  function ReplyTo(s: Sender, q: Request): seq<Msg>
    requires |s.hashmap| == 4 * |s.parts| && |s.hash| == 32
  {
    PartMsgs(Answers(s, q.requested)) +
    (if q.exhausted && ServeHmu(s, q).Ok? then [HmuMsg(ServeHmu(s, q).value)] else [])
  }

  lemma LiveReply(s: Sender, t: Tx, adv: Adv, q: Request)
    requires |s.hashmap| == 4 * |s.parts| && |s.hash| == 32 && !Ended(t) && q.resourceHash == s.hash
    ensures Handle(s, t, adv, ReqIn(q)).1 == ReplyTo(s, q)
    ensures Handle(s, t, adv, ReqIn(q)).0.delivered == t.delivered + |Answers(s, q.requested)|
    ensures Ended(Handle(s, t, adv, ReqIn(q)).0) <==> q.exhausted && ServeHmu(s, q).Err?
  {}

  /** At most MAX_ADV_RETRIES advertisements are repeated, and none once a request has come in. */
  lemma AdvRetriesBounded(s: Sender, t: Tx, adv: Adv, e: Event)
    requires |s.hashmap| == 4 * |s.parts| && |s.hash| == 32
    requires 0 <= t.advRetries <= MAX_ADV_RETRIES || t.status.Failed?
    ensures var (t1, out) := Handle(s, t, adv, e);
      && (0 <= t1.advRetries <= MAX_ADV_RETRIES || t1.status.Failed?)
      && (AdvMsg(adv) in out ==> !t.gotFirstReq && t1.advRetries == t.advRetries + 1 <= MAX_ADV_RETRIES)
      && (t.gotFirstReq ==> t1.gotFirstReq)
  {}

  /** How often a run of the send loop repeats the advertisement. */
  function Repeats(s: Sender, t: Tx, adv: Adv, events: seq<Event>): nat
    requires |s.hashmap| == 4 * |s.parts| && |s.hash| == 32
    decreases |events|
  {
    if events == [] then 0
    else
      var (t1, out) := Handle(s, t, adv, events[0]);
      (if AdvMsg(adv) in out then 1 else 0) + Repeats(s, t1, adv, events[1..])
  }

  /** How often the timer fires before anything else happens. */
  function Unanswered(events: seq<Event>): nat {
    if events == [] || !events[0].AdvTimer? then 0 else 1 + Unanswered(events[1..])
  }

  function Least(a: int, b: int): int { if a < b then a else b }

  /** Over any run the advertisement is repeated exactly once for each firing of the timer before the first
      request, proof, cancel or deadline, as long as retries are left; and never after. */
  lemma {:induction false} RepeatsExact(s: Sender, t: Tx, adv: Adv, events: seq<Event>)
    requires |s.hashmap| == 4 * |s.parts| && |s.hash| == 32
    requires 0 <= t.advRetries <= MAX_ADV_RETRIES || t.status.Failed?
    ensures Repeats(s, t, adv, events) ==
      if t.gotFirstReq || Ended(t) then 0 else Least(MAX_ADV_RETRIES - t.advRetries, Unanswered(events))
    decreases |events|
  {
    if events != [] {
      AdvRetriesBounded(s, t, adv, events[0]);
      RepeatsExact(s, Handle(s, t, adv, events[0]).0, adv, events[1..]);
    }
  }

  // ---- how a run of the send loop ends ----

  /** The state after these events. */
  function Fed(s: Sender, adv: Adv, events: seq<Event>): Tx
    requires |s.hashmap| == 4 * |s.parts| && |s.hash| == 32
  {
    if events == [] then Start() else Handle(s, Fed(s, adv, events[..|events| - 1]), adv, events[|events| - 1]).0
  }

  /** What it sends in answer to these events, after the advertisement. */
  function Spoken(s: Sender, adv: Adv, events: seq<Event>): seq<Msg>
    requires |s.hashmap| == 4 * |s.parts| && |s.hash| == 32
  {
    if events == [] then []
    else
      var front := events[..|events| - 1];
      Spoken(s, adv, front) + Handle(s, Fed(s, adv, front), adv, events[|events| - 1]).1
  }

  predicate Asks(e: Event) { e.ReqIn? }

  /** The i-th event is one that ends a run nothing has ended before: the timer does when it fires for the
      fifth time and no request has come, a request when it names another resource or a segment that cannot
      be served, and a proof, a cancel or the deadline always. */
  predicate Kills(s: Sender, events: seq<Event>, i: nat)
    requires |s.hashmap| == 4 * |s.parts| && |s.hash| == 32 && i < |events|
  {
    match events[i]
    case AdvTimer => i == MAX_ADV_RETRIES && forall j :: 0 <= j < i ==> !Asks(events[j])
    case ReqIn(q) => q.resourceHash != s.hash || (q.exhausted && ServeHmu(s, q).Err?)
    case _ => true
  }

  /** What it ends as. */
  function Verdict(s: Sender, e: Event): Status
    requires |s.hashmap| == 4 * |s.parts| && |s.hash| == 32
  {
    match e
    case Deadline => Failed(Expired)
    case CancelIn => Failed(Cancelled)
    case AdvTimer => Failed(AdvTimeout)
    case ReqIn(q) =>
      if q.resourceHash != s.hash then Failed(WrongResource)
      else if ServeHmu(s, q).Err? then Failed(ServeHmu(s, q).error) else Transferring
    case PrfIn(p) => if p.fullProof == s.proof then Complete else Failed(ProofMismatch)
  }

  /** The first event that ends the run. */
  ghost predicate EndsRun(s: Sender, events: seq<Event>, i: nat)
    requires |s.hashmap| == 4 * |s.parts| && |s.hash| == 32
  {
    i < |events| && Kills(s, events, i) && forall j :: 0 <= j < i ==> !Kills(s, events, j)
  }

  /** Parts sent in answer to these events, repeats included. */
  function Served(s: Sender, events: seq<Event>): nat
    requires |s.hashmap| == 4 * |s.parts|
  {
    if events == [] then 0
    else
      var e := events[|events| - 1];
      Served(s, events[..|events| - 1]) + if e.ReqIn? then |Answers(s, e.req.requested)| else 0
  }

  /** A transfer that goes on awaits the proof once as many parts have been sent as there are. */
  function LiveStatus(s: Sender, t: Tx): Status {
    if !t.gotFirstReq then Advertised else if t.delivered >= |s.parts| then AwaitingProof else Transferring
  }

  /** Exactly how a run of the send loop ends: with the first event that ends it, as that event says; and
      while there is none it goes on, having counted every unanswered timer and every part sent. */
  lemma {:induction false} SendLoopEnds(s: Sender, adv: Adv, events: seq<Event>)
    requires |s.hashmap| == 4 * |s.parts| && |s.hash| == 32
    ensures var t := Fed(s, adv, events);
      && (Ended(t) <==> exists i: nat :: EndsRun(s, events, i))
      && (forall i: nat :: EndsRun(s, events, i) ==> t.status == Verdict(s, events[i]))
      && (!Ended(t) ==> (t.gotFirstReq <==> exists j :: 0 <= j < |events| && Asks(events[j])))
      && (!Ended(t) && !t.gotFirstReq ==> t.advRetries == |events| <= MAX_ADV_RETRIES)
      && (!Ended(t) ==> t.status == LiveStatus(s, t) && t.delivered == Served(s, events))
  {
    if events != [] {
      var front, n := events[..|events| - 1], |events| - 1;
      SendLoopEnds(s, adv, front);
      if i: nat :| EndsRun(s, front, i) {
        EndsFront(s, events, i);
      } else {
        NoneEnds(s, events, front);
        SendStep(s, Fed(s, adv, front), adv, events);
        if Kills(s, events, n) { assert EndsRun(s, events, n); }
      }
    }
  }

  /** What ended the run before the last event ended it. */
  lemma EndsFront(s: Sender, events: seq<Event>, i: nat)
    requires |s.hashmap| == 4 * |s.parts| && |s.hash| == 32 && events != []
    requires EndsRun(s, events[..|events| - 1], i)
    ensures EndsRun(s, events, i) && forall j: nat :: EndsRun(s, events, j) ==> j == i
  {
    forall j: nat | j <= i ensures Kills(s, events[..|events| - 1], j) <==> Kills(s, events, j) {
      KillsFront(s, events, j);
    }
  }

  lemma NoneEnds(s: Sender, events: seq<Event>, front: seq<Event>)
    requires |s.hashmap| == 4 * |s.parts| && |s.hash| == 32 && events != [] && front == events[..|events| - 1]
    requires forall i: nat :: !EndsRun(s, front, i)
    ensures forall i: nat :: i < |front| ==> !Kills(s, events, i)
    ensures (exists j :: 0 <= j < |front| && Asks(front[j])) <==> exists j :: 0 <= j < |front| && Asks(events[j])
  {
    forall i: nat | i < |front| ensures !Kills(s, events, i) {
      KillsFront(s, events, i);
      if Kills(s, front, i) { var k := LeastKill(s, front, i); }
    }
    assert forall j :: 0 <= j < |front| ==> front[j] == events[j];
  }

  lemma KillsFront(s: Sender, events: seq<Event>, i: nat)
    requires |s.hashmap| == 4 * |s.parts| && |s.hash| == 32 && i < |events| - 1
    ensures Kills(s, events[..|events| - 1], i) <==> Kills(s, events, i)
  {
    var front := events[..|events| - 1];
    assert forall j :: 0 <= j <= i ==> front[j] == events[j];
  }

  lemma {:induction false} LeastKill(s: Sender, events: seq<Event>, i: nat) returns (k: nat)
    requires |s.hashmap| == 4 * |s.parts| && |s.hash| == 32 && i < |events| && Kills(s, events, i)
    ensures EndsRun(s, events, k)
    decreases i
  {
    if j: nat :| j < i && Kills(s, events, j) { k := LeastKill(s, events, j); } else { k := i; }
  }

  lemma SendStep(s: Sender, t: Tx, adv: Adv, events: seq<Event>)
    requires |s.hashmap| == 4 * |s.parts| && |s.hash| == 32 && events != [] && !Ended(t)
    requires forall i: nat :: i < |events| - 1 ==> !Kills(s, events, i)
    requires t.gotFirstReq <==> exists j :: 0 <= j < |events| - 1 && Asks(events[j])
    requires !t.gotFirstReq ==> t.advRetries == |events| - 1 <= MAX_ADV_RETRIES
    requires t.status == LiveStatus(s, t)
    ensures var t1, i := Handle(s, t, adv, events[|events| - 1]).0, |events| - 1;
      && (Ended(t1) <==> Kills(s, events, i)) && (Ended(t1) ==> t1.status == Verdict(s, events[i]))
      && (!Ended(t1) ==> (t1.gotFirstReq <==> exists j :: 0 <= j < |events| && Asks(events[j])))
      && (!Ended(t1) && !t1.gotFirstReq ==> t1.advRetries == |events| <= MAX_ADV_RETRIES)
      && (!Ended(t1) ==> t1.status == LiveStatus(s, t1))
      && (!Ended(t1) ==>
        t1.delivered == t.delivered + if events[i].ReqIn? then |Answers(s, events[i].req.requested)| else 0)
  {
    var i := |events| - 1;
    assert Asks(events[i]) <==> events[i].ReqIn?;
  }

  /** On distinct fingerprints the answer to requested slots is exactly those parts, in order. */
  lemma {:induction false} AnswersExact(s: Sender, slots: seq<int>, requested: seq<Bytes>)
    requires |s.hashmap| == 4 * |s.parts| && Distinct(s.hashmap, |s.parts|)
    requires |requested| == |slots|
    requires forall i :: 0 <= i < |slots| ==> 0 <= slots[i] < |s.parts| && requested[i] == Entry(s.hashmap, slots[i])
    ensures |Answers(s, requested)| == |slots|
    ensures forall i :: 0 <= i < |slots| ==> Answers(s, requested)[i] == s.parts[slots[i]]
  {
    if slots != [] {
      FindInverse(s.hashmap, |s.parts|, slots[0]);
      AnswersExact(s, slots[1..], requested[1..]);
      forall i | 0 <= i < |slots| ensures Answers(s, requested)[i] == s.parts[slots[i]] {
        if i > 0 { assert Answers(s, requested[1..])[i - 1] == s.parts[slots[1..][i - 1]]; }
      }
    }
  }

  /** Whatever is requested, only the sender's own parts go out. */
  lemma {:induction false} AnswersAreParts(s: Sender, requested: seq<Bytes>)
    requires |s.hashmap| == 4 * |s.parts|
    ensures forall p :: p in Answers(s, requested) ==> p in s.parts
  {
    if requested != [] { AnswersAreParts(s, requested[1..]); }
  }
}
