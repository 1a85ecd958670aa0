/** Whole runs of the receive loop: how each ends, exactly, and that the system of both machines steps
    the receiver as the loop does. */
module ResourceLoops {
  import opened Octets
  import opened ResourceHash
  import opened ResourceWire
  import opened ResourceAgreement
  import opened ResourceProtocol
  import opened ResourceOutcomes
  import R = ResourceReceiver
  import S = ResourceSender

  // ---- how a run ends ----

  predicate Stops(e: R.Event) { e.CancelIn? || e.Deadline? }

  /** The receiver after handling all of these. */
  function Fed(t: R.Session, x: R.Rx, events: seq<R.Event>): (x1: R.Rx)
    requires R.Shape(x)
    ensures R.Shape(x1) && |x1.parts| == |x.parts|
  {
    if events == [] then x else R.Handle(t, Fed(t, x, events[..|events| - 1]), events[|events| - 1]).0
  }

  predicate AllFilled(x: R.Rx)
    requires R.Shape(x)
  {
    forall i :: 0 <= i < |x.parts| ==> x.flags[i]
  }

  /** Before the i-th event nothing has stopped the run and some slot was always unfilled. */
  predicate Reaches(t: R.Session, x: R.Rx, events: seq<R.Event>, i: nat)
    requires R.Shape(x)
  {
    i <= |events| && forall j :: 0 <= j < i ==> !Stops(events[j]) && !AllFilled(Fed(t, x, events[..j]))
  }

  /** The i-th event finds every slot filled, and no earlier one did or stopped the run. */
  predicate FillsAt(t: R.Session, x: R.Rx, events: seq<R.Event>, i: nat)
    requires R.Shape(x)
  {
    Reaches(t, x, events, i) && AllFilled(Fed(t, x, events[..i]))
  }

  /** The i-th event stops a run that has slots to fill. */
  predicate StopsAt(t: R.Session, x: R.Rx, events: seq<R.Event>, i: nat)
    requires R.Shape(x)
  {
    Reaches(t, x, events, i) && !AllFilled(Fed(t, x, events[..i])) && i < |events| && Stops(events[i])
  }

  lemma {:induction false} FedCons(t: R.Session, x: R.Rx, e: R.Event, rest: seq<R.Event>)
    requires R.Shape(x)
    ensures Fed(t, x, [e] + rest) == Fed(t, R.Handle(t, x, e).0, rest)
  {
    var all := [e] + rest;
    if rest == [] {
      assert all[..0] == [];
    } else {
      assert all[..|all| - 1] == [e] + rest[..|rest| - 1];
      FedCons(t, x, e, rest[..|rest| - 1]);
    }
  }

  lemma FedTail(t: R.Session, x: R.Rx, events: seq<R.Event>, i: nat)
    requires R.Shape(x) && i < |events|
    ensures Fed(t, x, events[..i + 1]) == Fed(t, R.Handle(t, x, events[0]).0, events[1..][..i])
  {
    assert events[..i + 1] == [events[0]] + events[1..][..i];
    FedCons(t, x, events[0], events[1..][..i]);
  }

  lemma ReachesCons(t: R.Session, x: R.Rx, events: seq<R.Event>, i: nat)
    requires R.Shape(x) && events != [] && !Stops(events[0]) && !AllFilled(x) && i < |events|
    requires Reaches(t, R.Handle(t, x, events[0]).0, events[1..], i)
    ensures Reaches(t, x, events, i + 1)
    ensures Fed(t, x, events[..i + 1]) == Fed(t, R.Handle(t, x, events[0]).0, events[1..][..i])
  {
    FedTail(t, x, events, i);
    forall j | 0 <= j < i + 1 ensures !Stops(events[j]) && !AllFilled(Fed(t, x, events[..j])) {
      if j == 0 { assert Fed(t, x, events[..0]) == x; } else { LaterGoesOn(t, x, events, i, j); }
    }
  }

  lemma LaterGoesOn(t: R.Session, x: R.Rx, events: seq<R.Event>, i: nat, j: nat)
    requires R.Shape(x) && events != [] && 1 <= j <= i < |events|
    requires Reaches(t, R.Handle(t, x, events[0]).0, events[1..], i)
    ensures !Stops(events[j]) && !AllFilled(Fed(t, x, events[..j]))
  {
    FedTail(t, x, events, j - 1);
    assert events[j] == events[1..][j - 1];
  }

  /** The loop ends at the i-th event, and there as that event and the slots say. */
  ghost predicate LoopEndsAt(t: R.Session, x: R.Rx, events: seq<R.Event>, i: nat)
    requires R.Shape(x)
  {
    && Reaches(t, x, events, i)
    && (AllFilled(Fed(t, x, events[..i])) || i == |events| || Stops(events[i]))
    && var r, x1 := R.RunLoop(t, x, events), Fed(t, x, events[..i]);
       && r.rx == x1
       && r.outcome ==
         if AllFilled(x1) then EndOf(t, x1) else if i == |events| then R.Waiting
         else if events[i].CancelIn? then R.Cancelled else R.TimedOut
  }

  lemma {:induction false} LoopEnds(t: R.Session, x: R.Rx, events: seq<R.Event>) returns (i: nat)
    requires R.Valid(x)
    ensures LoopEndsAt(t, x, events, i)
    decreases |events|
  {
    R.CountFull(x.flags);
    assert AllFilled(x) <==> x.count >= |x.parts|;
    if AllFilled(x) || events == [] || Stops(events[0]) {
      i := 0;
      assert Fed(t, x, events[..0]) == x;
    } else {
      R.AnyEventKeepsValid(t, x, events[0]);
      var k := LoopEnds(t, R.Handle(t, x, events[0]).0, events[1..]);
      i := k + 1;
      EndsLater(t, x, events, k);
    }
  }

  lemma EndsLater(t: R.Session, x: R.Rx, events: seq<R.Event>, k: nat)
    requires R.Shape(x) && x.count < |x.parts| && !AllFilled(x) && events != [] && !Stops(events[0]) && k < |events|
    requires LoopEndsAt(t, R.Handle(t, x, events[0]).0, events[1..], k)
    ensures LoopEndsAt(t, x, events, k + 1)
  {
    ReachesCons(t, x, events, k);
    LoopCons(t, x, events);
    if k + 1 < |events| { assert events[k + 1] == events[1..][k]; }
  }

  /** What joining, decrypting and checking the parts comes to. */
  function EndOf(t: R.Session, x: R.Rx): R.Outcome {
    match R.Assemble(t, x)
    case Err(_) => R.Corrupt
    case Ok(body) => R.Complete(body, Proof(t.hash, ExpectedProof(t.prim, body, t.hash)))
  }

  /** Exactly how a run ends, whatever arrives: with a body iff every slot fills before any cancel or
      deadline and the parts reassemble to it, and its proof is that body's; corrupt iff they fill and do
      not reassemble; cancelled or timed out iff that comes while a slot is unfilled; otherwise it waits. */
  lemma OutcomeIff(t: R.Session, x: R.Rx, events: seq<R.Event>, body: Bytes, proof: Proof)
    requires R.Valid(x)
    ensures var o := R.RunLoop(t, x, events).outcome;
      && (o == R.Complete(body, proof) <==>
          && proof == Proof(t.hash, ExpectedProof(t.prim, body, t.hash))
          && exists i: nat :: FillsAt(t, x, events, i) && R.Assemble(t, Fed(t, x, events[..i])) == Ok(body))
      && (o == R.Corrupt <==> exists i: nat :: FillsAt(t, x, events, i) && R.Assemble(t, Fed(t, x, events[..i])).Err?)
      && (o == R.Cancelled <==> exists i: nat :: StopsAt(t, x, events, i) && events[i].CancelIn?)
      && (o == R.TimedOut <==> exists i: nat :: StopsAt(t, x, events, i) && events[i].Deadline?)
      && (o == R.Waiting <==> Reaches(t, x, events, |events|) && !AllFilled(Fed(t, x, events)))
  {
    var i := LoopEnds(t, x, events);
    assert events[..|events|] == events;
    assert i == |events| || FillsAt(t, x, events, i) || StopsAt(t, x, events, i);
    forall j: nat | FillsAt(t, x, events, j) || StopsAt(t, x, events, j) ensures j == i { OneEnd(t, x, events, i, j); }
  }

  lemma OneEnd(t: R.Session, x: R.Rx, events: seq<R.Event>, i: nat, j: nat)
    requires R.Shape(x) && (FillsAt(t, x, events, j) || StopsAt(t, x, events, j))
    requires FillsAt(t, x, events, i) || StopsAt(t, x, events, i) || (i == |events| && Reaches(t, x, events, i))
    requires i == |events| || FillsAt(t, x, events, i) || StopsAt(t, x, events, i)
    ensures j == i
  {
  }

  // ---- an honest sender's packets ----

  /** Parts that lookups serve, and segments an honest sender serves. */
  ghost predicate AllHonest(s: S.Sender, events: seq<R.Event>)
    requires Honest(s)
  {
    forall i :: 0 <= i < |events| ==>
      && (events[i].PartIn? ==> events[i].part in Served(s))
      && (events[i].HmuIn? ==> HonestMsg(s, HmuMsg(events[i].hmu)))
  }

  lemma {:induction false} FedKeeps(s: S.Sender, x: R.Rx, events: seq<R.Event>)
    requires Honest(s) && RxInv(s, x) && AllHonest(s, events)
    ensures RxInv(s, Fed(SessionOf(s), x, events))
  {
    if events != [] {
      FedKeeps(s, x, events[..|events| - 1]);
      RxHandleKeeps(s, Fed(SessionOf(s), x, events[..|events| - 1]), events[|events| - 1]);
    }
  }

  /** The receiver opened on the sender's advertisement, with its first request out. */
  ghost function Opened(s: S.Sender): (x: R.Rx)
    requires Honest(s) && Fits(s)
    ensures R.Shape(x)
  {
    R.RequestNext(SessionOf(s), R.Open(WireAdv(s))).0
  }

  lemma OpenedInv(s: S.Sender)
    requires Honest(s) && Fits(s)
    ensures RxInv(s, Opened(s)) && R.Valid(Opened(s)) && Opened(s).count == 0
  {
    OpenInv(s);
    TargetKeepsRxInv(s, R.Open(WireAdv(s)));
  }

  /** Fed a deliverable sender's packets, in any order, with any losses, repeats and timers: the run ends with
      the sender's body and the very proof it waits for exactly when every slot fills before a cancel or
      deadline, and never corrupt. */
  lemma HonestRunDelivers(s: S.Sender, events: seq<R.Event>)
    requires Honest(s) && Deliverable(s) && AllHonest(s, events)
    ensures var o := R.Receive(SessionOf(s), R.Open(WireAdv(s)), events).outcome;
      && o != R.Corrupt && (o.Complete? ==> o == R.Complete(s.body, Proof(s.hash, s.proof)))
      && (o.Complete? <==> exists i: nat :: FillsAt(SessionOf(s), Opened(s), events, i))
  {
    var t, x := SessionOf(s), Opened(s);
    assert RxInv(s, x) && R.Valid(x) by { OpenedInv(s); }
    var o := R.RunLoop(t, x, events).outcome;
    if i: nat :| FillsAt(t, x, events, i) {
      FillYields(s, x, events, i);
      OutcomeIff(t, x, events, s.body, TheirProof(s));
    } else {
      OutcomeIff(t, x, events, if o.Complete? then o.body else [], if o.Complete? then o.proof else TheirProof(s));
    }
  }

  lemma FillYields(s: S.Sender, x: R.Rx, events: seq<R.Event>, i: nat)
    requires Honest(s) && Deliverable(s) && RxInv(s, x) && AllHonest(s, events) && i <= |events|
    requires AllFilled(Fed(SessionOf(s), x, events[..i]))
    ensures EndOf(SessionOf(s), Fed(SessionOf(s), x, events[..i])) == R.Complete(s.body, TheirProof(s))
  {
    FedKeeps(s, x, events[..i]);
    FilledYields(s, Fed(SessionOf(s), x, events[..i]));
  }

  function TheirProof(s: S.Sender): Proof { Proof(s.hash, s.proof) }

  lemma FilledYields(s: S.Sender, x: R.Rx)
    requires Honest(s) && Faithful(s) && RxInv(s, x) && AllFilled(x)
    ensures EndOf(SessionOf(s), x) == R.Complete(s.body, TheirProof(s))
  {
    R.CountFull(x.flags);
    FullIsServed(s, x);
    FaithfulYields(s);
  }

  // ---- the system's receiver is the loop ----

  /** One event of the receiver as a step of the system. */
  function EventStep(s: S.Sender, y: Sys, e: R.Event): Sys
    requires Shaped(y)
  {
    if Stops(e) then y.(rx := None) else RxStep(s, y, e)
  }

  function Fold(s: S.Sender, y: Sys, events: seq<R.Event>): (y1: Sys)
    requires Shaped(y)
    ensures Shaped(y1)
  {
    if events == [] then y else EventStep(s, Fold(s, y, events[..|events| - 1]), events[|events| - 1])
  }

  /** What a run of the loop leaves in the system: the receiver while it waits, its requests and last word
      on the wire, and the body handed up. */
  function Left(s: S.Sender, y: Sys, r: R.Trace): Sys {
    Sys(if r.outcome.Waiting? then Some(r.rx) else None, y.tx,
        y.net + (set q | q in r.requests :: ReqMsg(q)) + LastWord(s, r.outcome),
        y.handed + if r.outcome.Complete? then [r.outcome.body] else [])
  }

  function LastWord(s: S.Sender, o: R.Outcome): set<Msg> {
    if o.Complete? then {PrfMsg(o.proof)} else if o.Corrupt? then {RclMsg(s.hash)} else {}
  }

  lemma LoopCons(t: R.Session, x: R.Rx, events: seq<R.Event>)
    requires R.Shape(x) && x.count < |x.parts| && events != [] && !Stops(events[0])
    ensures var (x1, out) := R.Handle(t, x, events[0]);
      R.RunLoop(t, x, events) == R.Prefixed(R.Emitted(out), R.RunLoop(t, x1, events[1..]))
  {
  }

  /** A run that still waits goes on with one more event; one that has ended stays as it is. */
  lemma {:induction false} LoopSnoc(t: R.Session, x: R.Rx, events: seq<R.Event>, e: R.Event)
    requires R.Shape(x)
    ensures var r := R.RunLoop(t, x, events);
      R.RunLoop(t, x, events + [e]) ==
        if r.outcome.Waiting? then R.Prefixed(r.requests, R.RunLoop(t, r.rx, [e])) else r
    decreases |events|
  {
    var all := events + [e];
    if x.count < |x.parts| && events != [] && !Stops(events[0]) {
      var (x1, out) := R.Handle(t, x, events[0]);
      assert all[0] == events[0] && all[1..] == events[1..] + [e];
      LoopSnoc(t, x1, events[1..], e);
      LoopCons(t, x, events);
      LoopCons(t, x, all);
      var r1 := R.RunLoop(t, x1, events[1..]);
      R.PrefixedTwice(R.Emitted(out), r1.requests, R.RunLoop(t, r1.rx, [e]));
    } else if events == [] {
      assert all == [e];
      assert [] + R.RunLoop(t, x, [e]).requests == R.RunLoop(t, x, [e]).requests;
    }
  }

  lemma SettleIsLoop(s: S.Sender, y: Sys, x: R.Rx)
    requires R.Shape(x)
    ensures Settle(s, y, x) == Left(s, y, R.RunLoop(SessionOf(s), x, []))
  {
    assert (set q | q in R.RunLoop(SessionOf(s), x, []).requests :: ReqMsg(q)) == {};
  }

  lemma LeftSent(s: S.Sender, y: Sys, out: Option<Request>, r: R.Trace)
    ensures Left(s, y.(net := y.net + Sent(out)), r) == Left(s, y, R.Prefixed(R.Emitted(out), r))
  {
    assert (set q | q in R.Emitted(out) + r.requests :: ReqMsg(q)) ==
      Sent(out) + (set q | q in r.requests :: ReqMsg(q));
  }

  /** What one event does to the system is what it does in the loop. */
  lemma OneEvent(s: S.Sender, y: Sys, e: R.Event)
    requires Shaped(y) && y.rx.Some? && y.rx.value.count < |y.rx.value.parts|
    ensures EventStep(s, y, e) == Left(s, y, R.RunLoop(SessionOf(s), y.rx.value, [e]))
  {
    var t, x := SessionOf(s), y.rx.value;
    if Stops(e) {
      assert (set q | q in R.RunLoop(t, x, [e]).requests :: ReqMsg(q)) == {};
    } else {
      var (x1, out) := R.Handle(t, x, e);
      LoopCons(t, x, [e]);
      assert [e][1..] == [];
      SettleIsLoop(s, y.(net := y.net + Sent(out)), x1);
      LeftSent(s, y, out, R.RunLoop(t, x1, []));
    }
  }

  lemma LeftTwice(s: S.Sender, y: Sys, r: R.Trace, r1: R.Trace)
    requires r.outcome.Waiting?
    ensures Left(s, Left(s, y, r), r1) == Left(s, y, R.Prefixed(r.requests, r1))
  {
    assert (set q | q in r.requests + r1.requests :: ReqMsg(q)) ==
      (set q | q in r.requests :: ReqMsg(q)) + (set q | q in r1.requests :: ReqMsg(q));
  }

  /** Folding the system's receiver over any events gives the loop's state, its requests, its last word and
      its body, and nothing else. */
  lemma {:induction false} FoldIsLoop(s: S.Sender, y: Sys, events: seq<R.Event>)
    requires Shaped(y) && y.rx.Some? && y.rx.value.count < |y.rx.value.parts|
    ensures Fold(s, y, events) == Left(s, y, R.RunLoop(SessionOf(s), y.rx.value, events))
  {
    var t, x := SessionOf(s), y.rx.value;
    if events == [] {
      assert (set q | q in R.RunLoop(t, x, events).requests :: ReqMsg(q)) == {};
    } else {
      var front, e := events[..|events| - 1], events[|events| - 1];
      assert events == front + [e];
      FoldIsLoop(s, y, front);
      LoopSnoc(t, x, front, e);
      var r := R.RunLoop(t, x, front);
      if r.outcome.Waiting? {
        OneEvent(s, Fold(s, y, front), e);
        LeftTwice(s, y, r, R.RunLoop(t, r.rx, [e]));
      }
    }
  }

  // ---- a receiver inside a whole run ----

  /** What the receiver's select sees of one action. */
  function SeenIn(y: Sys, a: Action): seq<R.Event> {
    match a
    case RxTimer => [R.Timer]
    case DeliverPart(p) => if PartMsg(p) in y.net then [R.PartIn(p)] else []
    case DeliverHmu(h) => if HmuMsg(h) in y.net then [R.HmuIn(h)] else []
    case RxAbort => [R.CancelIn]
    case _ => []
  }

  ghost function Seen(s: S.Sender, y: Sys, acts: seq<Action>): seq<R.Event>
    requires Honest(s) && Shaped(y)
  {
    if acts == [] then []
    else
      var front := acts[..|acts| - 1];
      Seen(s, y, front) + SeenIn(Exec(s, y, front), acts[|acts| - 1])
  }

  /** No advertisement opens another receiver. */
  ghost predicate NoOther(s: S.Sender, y: Sys, acts: seq<Action>)
    requires Honest(s) && Shaped(y)
  {
    forall i :: 0 <= i < |acts| && acts[i] == DeliverAdv(false) && Fits(s) ==> Exec(s, y, acts[..i]).rx.Some?
  }

  /** The receiver and the bodies are as the loop leaves them, and its requests and last word are on the wire. */
  ghost predicate AsLeft(s: S.Sender, y: Sys, r: R.Trace, y1: Sys) {
    var left := Left(s, y, r);
    y1.rx == left.rx && y1.handed == left.handed && left.net <= y1.net
  }

  /** Any schedule of the whole system runs its receiver as the loop, on the events that schedule lets it see:
      the sender, the wire and refused advertisements change nothing about it. */
  lemma {:induction false} ScheduleRunsLoop(s: S.Sender, y: Sys, acts: seq<Action>)
    requires Honest(s) && Shaped(y) && y.rx.Some? && y.rx.value.count < |y.rx.value.parts| && NoOther(s, y, acts)
    ensures AsLeft(s, y, R.RunLoop(SessionOf(s), y.rx.value, Seen(s, y, acts)), Exec(s, y, acts))
  {
    var t, x := SessionOf(s), y.rx.value;
    if acts == [] {
      assert (set q | q in R.RunLoop(t, x, []).requests :: ReqMsg(q)) == {};
    } else {
      var front, a := acts[..|acts| - 1], acts[|acts| - 1];
      assert NoOther(s, y, front) by { NoOtherFront(s, y, acts); }
      ScheduleRunsLoop(s, y, front);
      var y1, events := Exec(s, y, front), Seen(s, y, front);
      var seen := SeenIn(y1, a);
      assert acts[..|front|] == front;
      ActionRunsLoop(s, y, y1, a, R.RunLoop(t, x, events));
      assert Seen(s, y, acts) == events + seen;
      LoopSees(t, x, events, seen);
    }
  }

  lemma LoopSees(t: R.Session, x: R.Rx, events: seq<R.Event>, seen: seq<R.Event>)
    requires R.Shape(x) && |seen| <= 1
    ensures var r := R.RunLoop(t, x, events);
      R.RunLoop(t, x, events + seen) ==
        if seen != [] && r.outcome.Waiting? then R.Prefixed(r.requests, R.RunLoop(t, r.rx, seen)) else r
  {
    if seen == [] {
      assert events + seen == events;
    } else {
      assert seen == [seen[0]];
      LoopSnoc(t, x, events, seen[0]);
    }
  }

  lemma NoOtherFront(s: S.Sender, y: Sys, acts: seq<Action>)
    requires Honest(s) && Shaped(y) && acts != [] && NoOther(s, y, acts)
    ensures NoOther(s, y, acts[..|acts| - 1])
  {
    var front := acts[..|acts| - 1];
    forall i | 0 <= i < |front| && front[i] == DeliverAdv(false) && Fits(s) ensures Exec(s, y, front[..i]).rx.Some? {
      assert front[..i] == acts[..i] && acts[i] == front[i];
    }
  }

  lemma ActionRunsLoop(s: S.Sender, y: Sys, y1: Sys, a: Action, r: R.Trace)
    requires Honest(s) && Shaped(y1) && AsLeft(s, y, r, y1) && (r.outcome.Waiting? ==> r.rx.count < |r.rx.parts|)
    requires a == DeliverAdv(false) && Fits(s) ==> y1.rx.Some?
    ensures var seen := SeenIn(y1, a);
      AsLeft(s, y, if seen != [] && r.outcome.Waiting? then R.Prefixed(r.requests, R.RunLoop(SessionOf(s), r.rx, seen))
        else r, Step(s, y1, a))
  {
    var seen, y2 := SeenIn(y1, a), Step(s, y1, a);
    if seen == [] {
      UnseenSpares(s, y1, a);
    } else {
      assert y2 == EventStep(s, y1, seen[0]);
      if r.outcome.Waiting? {
        assert seen == [seen[0]];
        OneEvent(s, y1, seen[0]);
        LeftTwice(s, y, r, R.RunLoop(SessionOf(s), r.rx, seen));
      }
    }
  }

  /** An action the receiver does not see leaves it and the bodies alone. */
  lemma UnseenSpares(s: S.Sender, y: Sys, a: Action)
    requires Honest(s) && Shaped(y) && SeenIn(y, a) == [] && (a == DeliverAdv(false) && Fits(s) ==> y.rx.Some?)
    ensures var y1 := Step(s, y, a); y1.rx == y.rx && y1.handed == y.handed && y.net <= y1.net
  {
  }

  lemma {:induction false} SeenIsHonest(s: S.Sender, y: Sys, acts: seq<Action>)
    requires Honest(s) && Inv(s, y)
    ensures AllHonest(s, Seen(s, y, acts))
  {
    if acts != [] {
      var front, a := acts[..|acts| - 1], acts[|acts| - 1];
      var y1 := Exec(s, y, front);
      SeenIsHonest(s, y, front);
      assert NetOk(s, y1.net) by { ExecKeeps(s, y, front); }
      OneSeenIsHonest(s, y1, a);
    }
  }

  lemma OneSeenIsHonest(s: S.Sender, y: Sys, a: Action)
    requires Honest(s) && NetOk(s, y.net)
    ensures AllHonest(s, SeenIn(y, a))
  {
    if a.DeliverPart? && PartMsg(a.part) in y.net { assert HonestMsg(s, PartMsg(a.part)); }
    if a.DeliverHmu? && HmuMsg(a.hmu) in y.net { assert HonestMsg(s, HmuMsg(a.hmu)); }
  }

  /** The loop does deliver: for every deliverable sender some of its packets, fed to a receiver opened on its
      advertisement, end the run with the body and the proof that completes the sender. */
  lemma SomeRunDelivers(s: S.Sender) returns (events: seq<R.Event>)
    requires Honest(s) && Deliverable(s)
    ensures AllHonest(s, events)
    ensures R.Receive(SessionOf(s), R.Open(WireAdv(s)), events).outcome ==
      R.Complete(s.body, Proof(s.hash, s.proof))
  {
    var open := [DeliverAdv(false)];
    var y := After(s, open);
    AfterSnoc(s, [], DeliverAdv(false));
    assert [] + open == open;
    assert y.rx == Some(Opened(s)) && y.handed == [];
    var rest := CanHandUp(s, open);
    ExecAppend(s, Init(s), open, rest);
    AfterInv(s, open);
    events := Seen(s, y, rest);
    SeenIsHonest(s, y, rest);
    assert NoOther(s, y, rest) by { assert forall i :: 0 <= i < |rest| ==> Quiet(rest[i]); }
    ScheduleRunsLoop(s, y, rest);
    HonestRunDelivers(s, events);
  }
}
