/** When a transfer can end with the body at all, when a repeated advertisement cancels the sender, and
    when it hands the body up twice: each exactly. */
module ResourceOutcomes {
  import opened Octets
  import opened ResourceHash
  import opened ResourceWire
  import opened ResourceAgreement
  import opened ResourceProtocol
  import R = ResourceReceiver
  import S = ResourceSender

  /** The state after a run from the start. */
  ghost function After(s: S.Sender, acts: seq<Action>): (y: Sys)
    requires Honest(s)
    ensures Shaped(y)
  {
    Exec(s, Init(s), acts)
  }

  lemma AfterInv(s: S.Sender, acts: seq<Action>)
    requires Honest(s)
    ensures Inv(s, After(s, acts))
  {
    InitInv(s);
    ExecKeeps(s, Init(s), acts);
  }

  lemma AfterSnoc(s: S.Sender, acts: seq<Action>, a: Action)
    requires Honest(s)
    ensures After(s, acts + [a]) == Step(s, After(s, acts), a)
  {
    assert (acts + [a])[..|acts|] == acts;
  }

  // ---- what the receiving end refuses ----

  /** An acceptable advertisement finds a receiver registered, or the link full. */
  predicate RefusesAdv(s: S.Sender, y: Sys, a: Action) {
    Fits(s) && a.DeliverAdv? && (a.full || y.rx.Some?)
  }

  /** A part fills the last slot, and what can be served does not reassemble. */
  ghost predicate RefusesBody(s: S.Sender, y: Sys, a: Action)
    requires Honest(s) && Shaped(y)
  {
    && a.DeliverPart? && PartMsg(a.part) in y.net && y.rx.Some? && Yield(s).Err?
    && R.Handle(SessionOf(s), y.rx.value, R.PartIn(a.part)).0.count >= |s.parts|
  }

  ghost predicate Refuses(s: S.Sender, y: Sys, a: Action)
    requires Honest(s) && Shaped(y)
  {
    RefusesAdv(s, y, a) || RefusesBody(s, y, a)
  }

  /** With faithful fingerprints only advertisements are refused. */
  lemma FaithfulRefusesAdv(s: S.Sender, y: Sys, a: Action)
    requires Honest(s) && Shaped(y) && Faithful(s)
    ensures Refuses(s, y, a) <==> RefusesAdv(s, y, a)
  {
    FaithfulYields(s);
  }

  ghost predicate Refused(s: S.Sender, acts: seq<Action>)
    requires Honest(s)
  {
    exists i :: 0 <= i < |acts| && Refuses(s, After(s, acts[..i]), acts[i])
  }

  lemma RefusedSnoc(s: S.Sender, acts: seq<Action>, a: Action)
    requires Honest(s)
    ensures Refused(s, acts + [a]) <==> Refused(s, acts) || Refuses(s, After(s, acts), a)
  {
    var all := acts + [a];
    assert all[..|acts|] == acts;
    forall i | 0 <= i < |acts| ensures all[..i] == acts[..i] && all[i] == acts[i] {}
    if Refused(s, acts) {
      var i :| 0 <= i < |acts| && Refuses(s, After(s, acts[..i]), acts[i]);
      assert Refuses(s, After(s, all[..i]), all[i]);
    }
    if Refuses(s, After(s, acts), a) { assert Refuses(s, After(s, all[..|acts|]), all[|acts|]); }
  }

  lemma SenderEmitsNoCancel(s: S.Sender, y: Sys, e: S.Event)
    requires Honest(s) && !e.ReqIn?
    ensures RclMsg(s.hash) in TxStep(s, y, WireAdv(s), e).net <==> RclMsg(s.hash) in y.net
  {
  }

  /** Of the receiver's events only a part can fill the last slot. */
  lemma OnlyPartsFill(s: S.Sender, x: R.Rx, e: R.Event)
    requires R.Shape(x) && !e.PartIn?
    ensures R.Handle(SessionOf(s), x, e).0.count == x.count
  {
  }

  lemma SettleCancels(s: S.Sender, y: Sys, x: R.Rx)
    requires Honest(s) && RxInv(s, x)
    ensures RclMsg(s.hash) in Settle(s, y, x).net <==>
      RclMsg(s.hash) in y.net || (x.count >= |s.parts| && Yield(s).Err?)
  {
    if x.count >= |x.parts| { FullIsServed(s, x); }
  }

  lemma RxStepCancels(s: S.Sender, y: Sys, e: R.Event)
    requires Honest(s) && Inv(s, y) && y.rx.Some?
    requires e.PartIn? ==> e.part in Served(s)
    requires e.HmuIn? ==> HonestMsg(s, HmuMsg(e.hmu))
    ensures RclMsg(s.hash) in RxStep(s, y, e).net <==>
      || RclMsg(s.hash) in y.net
      || (R.Handle(SessionOf(s), y.rx.value, e).0.count >= |s.parts| && Yield(s).Err?)
  {
    var (x, out) := R.Handle(SessionOf(s), y.rx.value, e);
    assert RxInv(s, x) by { RxHandleKeeps(s, y.rx.value, e); }
    SettleCancels(s, y.(net := y.net + Sent(out)), x);
  }

  lemma PartCancels(s: S.Sender, y: Sys, a: Action)
    requires Honest(s) && Inv(s, y) && a.DeliverPart?
    ensures RclMsg(s.hash) in Step(s, y, a).net <==> RclMsg(s.hash) in y.net || Refuses(s, y, a)
  {
    if PartMsg(a.part) in y.net && y.rx.Some? {
      assert HonestMsg(s, PartMsg(a.part));
      RxStepCancels(s, y, R.PartIn(a.part));
    }
  }

  lemma HmuCancels(s: S.Sender, y: Sys, a: Action)
    requires Honest(s) && Inv(s, y) && a.DeliverHmu?
    ensures RclMsg(s.hash) in Step(s, y, a).net <==> RclMsg(s.hash) in y.net
  {
    if HmuMsg(a.hmu) in y.net && y.rx.Some? {
      assert HonestMsg(s, HmuMsg(a.hmu));
      RxStepCancels(s, y, R.HmuIn(a.hmu));
      OnlyPartsFill(s, y.rx.value, R.HmuIn(a.hmu));
    }
  }

  lemma TimerCancels(s: S.Sender, y: Sys)
    requires Honest(s) && Inv(s, y)
    ensures RclMsg(s.hash) in Step(s, y, RxTimer).net <==> RclMsg(s.hash) in y.net
  {
    if y.rx.Some? {
      RxStepCancels(s, y, R.Timer);
      OnlyPartsFill(s, y.rx.value, R.Timer);
    }
  }

  lemma ReqCancels(s: S.Sender, y: Sys, a: Action)
    requires Honest(s) && Inv(s, y) && a.DeliverReq?
    ensures RclMsg(s.hash) in Step(s, y, a).net <==> RclMsg(s.hash) in y.net
  {
    if ReqMsg(a.req) in y.net { ReqStepOnward(s, y, a.req); }
  }

  /** A step puts a cancel on the wire iff it refuses an advertisement or a body. */
  lemma CancelEmittedIff(s: S.Sender, y: Sys, a: Action)
    requires Honest(s) && Inv(s, y)
    ensures RclMsg(s.hash) in Step(s, y, a).net <==> RclMsg(s.hash) in y.net || Refuses(s, y, a)
  {
    match a
    case DeliverAdv(_) =>
    case RxAbort =>
    case RxTimer => TimerCancels(s, y);
    case DeliverPart(_) => PartCancels(s, y, a);
    case DeliverHmu(_) => HmuCancels(s, y, a);
    case DeliverReq(_) => ReqCancels(s, y, a);
    case AdvTimer => SenderEmitsNoCancel(s, y, S.AdvTimer);
    case DeliverPrf(p) => SenderEmitsNoCancel(s, y, S.PrfIn(p));
    case DeliverRcl => SenderEmitsNoCancel(s, y, S.CancelIn);
    case TxDeadline => SenderEmitsNoCancel(s, y, S.Deadline);
    case TxCancel => SenderEmitsNoCancel(s, y, S.CancelIn);
  }

  lemma {:induction false} CancelOnWireIff(s: S.Sender, acts: seq<Action>)
    requires Honest(s)
    ensures RclMsg(s.hash) in After(s, acts).net <==> Refused(s, acts)
  {
    if acts != [] {
      var front, a := acts[..|acts| - 1], acts[|acts| - 1];
      assert acts == front + [a];
      CancelOnWireIff(s, front);
      AfterSnoc(s, front, a);
      RefusedSnoc(s, front, a);
      AfterInv(s, front);
      CancelEmittedIff(s, After(s, front), a);
    }
  }

  /** The peer can cancel a live sender exactly when it has refused something: an advertisement delivered
      while the receiver was registered or the link was full, or parts that do not reassemble. */
  lemma CancellableIffRefused(s: S.Sender, acts: seq<Action>)
    requires Honest(s) && !S.Ended(After(s, acts).tx)
    ensures After(s, acts + [DeliverRcl]).tx.status == S.Failed(S.Cancelled) <==> Refused(s, acts)
  {
    CancelOnWireIff(s, acts);
    AfterSnoc(s, acts, DeliverRcl);
  }

  /** A cancelled sender was cancelled by its own link's closing or after a refusal. */
  lemma {:induction false} CancelledOnlyIfRefused(s: S.Sender, acts: seq<Action>)
    requires Honest(s) && TxCancel !in acts && After(s, acts).tx.status == S.Failed(S.Cancelled)
    ensures Refused(s, acts)
  {
    if acts != [] {
      var front, a := acts[..|acts| - 1], acts[|acts| - 1];
      assert acts == front + [a];
      AfterSnoc(s, front, a);
      RefusedSnoc(s, front, a);
      var y := After(s, front);
      if y.tx.status == S.Failed(S.Cancelled) {
        CancelledOnlyIfRefused(s, front);
      } else {
        CancelOnWireIff(s, front);
        CancelledBy(s, y, a);
      }
    }
  }

  lemma CancelledBy(s: S.Sender, y: Sys, a: Action)
    requires Honest(s) && Shaped(y) && y.tx.status != S.Failed(S.Cancelled)
    requires Step(s, y, a).tx.status == S.Failed(S.Cancelled)
    ensures a.TxCancel? || (a.DeliverRcl? && RclMsg(s.hash) in y.net)
  {
  }

  /** A repeated advertisement does cancel a transfer that was going well: here the sender's own retry,
      its first request lost. */
  lemma RetryCancels(s: S.Sender)
    requires Honest(s) && Fits(s)
    ensures var acts := [DeliverAdv(false)] + [AdvTimer] + [DeliverAdv(false)] + [DeliverRcl];
      After(s, acts).tx.status == S.Failed(S.Cancelled)
  {
    var open := DeliverAdv(false);
    var y1, y2, y3 := After(s, [open]), After(s, [open] + [AdvTimer]), After(s, [open] + [AdvTimer] + [open]);
    assert y1.rx.Some? && y1.tx == S.Start() && AdvMsg(WireAdv(s)) in y1.net by {
      AfterSnoc(s, [], open);
      assert [] + [open] == [open];
    }
    assert y2.rx.Some? && !S.Ended(y2.tx) && AdvMsg(WireAdv(s)) in y2.net by { AfterSnoc(s, [open], AdvTimer); }
    assert !S.Ended(y3.tx) && RclMsg(s.hash) in y3.net by { AfterSnoc(s, [open] + [AdvTimer], open); }
    AfterSnoc(s, [open] + [AdvTimer] + [open], DeliverRcl);
  }

  // ---- completion from every reachable state ----

  /** The state from which loss-free rounds count: an advertisement is delivered if no receiver was ever open. */
  ghost function Started(s: S.Sender, y: Sys): (y1: Sys)
    requires Honest(s) && Shaped(y)
    ensures Shaped(y1)
  {
    if y.rx.None? && y.handed == [] then Step(s, y, DeliverAdv(false)) else y
  }

  lemma StartedOpens(s: S.Sender, y: Sys)
    requires Honest(s) && Fits(s) && Inv(s, y)
    ensures var y1 := Started(s, y);
      && Inv(s, y1) && (y1.rx.Some? || y1.handed != []) && y1.tx == y.tx && y1.handed == y.handed
      && (RclMsg(s.hash) in y1.net <==> RclMsg(s.hash) in y.net)
  {
    StepKeeps(s, y, DeliverAdv(false));
  }

  /** From every state any schedule can reach with the sender live and nothing refused, 2n
      loss-free rounds hand up the body with no cancel on the wire, and the proof completes the sender.
      With one refused, the cancel on the wire ends it instead (CancellableIffRefused). */
  lemma ReachableStatesComplete(s: S.Sender, acts: seq<Action>, ys: seq<Sys>)
    requires Honest(s) && Deliverable(s) && !S.Ended(After(s, acts).tx) && !Refused(s, acts)
    requires Rounds(s, ys) && |ys| == 2 * |s.parts| + 1 && ys[0] == Started(s, After(s, acts))
    ensures var y := ys[2 * |s.parts|];
      && y.handed != [] && (forall b :: b in y.handed ==> b == s.body) && RclMsg(s.hash) !in y.net
      && Step(s, y, DeliverPrf(Proof(s.hash, s.proof))).tx.status == S.Complete
  {
    var y, k := After(s, acts), 2 * |s.parts|;
    AfterInv(s, acts);
    CancelOnWireIff(s, acts);
    StartedOpens(s, y);
    if ys[0].rx.Some? { MeasureBounds(s, ys[0]); }
    LossFreeRoundsComplete(s, ys, k);
    FaithfulState(s, ys[k]);
    ProofCompletesSender(s, ys[k]);
  }

  // ---- handing up twice ----

  /** An acceptable advertisement that opens a receiver after a body was handed up. */
  predicate Reopens(s: S.Sender, y: Sys, a: Action) {
    Fits(s) && a.DeliverAdv? && !a.full && y.rx.None? && y.handed != []
  }

  ghost predicate Reopened(s: S.Sender, acts: seq<Action>)
    requires Honest(s)
  {
    exists i :: 0 <= i < |acts| && Reopens(s, After(s, acts[..i]), acts[i])
  }

  lemma ReopenedSnoc(s: S.Sender, acts: seq<Action>, a: Action)
    requires Honest(s)
    ensures Reopened(s, acts + [a]) <==> Reopened(s, acts) || Reopens(s, After(s, acts), a)
  {
    var all := acts + [a];
    assert all[..|acts|] == acts;
    forall i | 0 <= i < |acts| ensures all[..i] == acts[..i] && all[i] == acts[i] {}
    if Reopened(s, acts) {
      var i :| 0 <= i < |acts| && Reopens(s, After(s, acts[..i]), acts[i]);
      assert Reopens(s, After(s, all[..i]), all[i]);
    }
    if Reopens(s, After(s, acts), a) { assert Reopens(s, After(s, all[..|acts|]), all[|acts|]); }
  }

  /** What one step does to the receiver and the bodies. */
  lemma BodiesStep(s: S.Sender, y: Sys, a: Action)
    requires Honest(s) && Faithful(s) && Inv(s, y)
    ensures var y1 := Step(s, y, a);
      if y.rx.None? then y1.handed == y.handed && (y1.rx.Some? <==> Fits(s) && a == DeliverAdv(false))
      else if y1.rx.Some? then y1.handed == y.handed
      else |y1.handed| == |y.handed| + if a.RxAbort? then 0 else 1
  {
    if Quiet(a) { QuietOnward(s, y, a); }
  }

  /** Without a reopening the body is handed up at most once. */
  lemma {:induction false} HandedOnce(s: S.Sender, acts: seq<Action>)
    requires Honest(s) && Faithful(s) && !Reopened(s, acts)
    ensures var y := After(s, acts); |y.handed| <= 1 && (y.rx.Some? ==> y.handed == [])
  {
    if acts != [] {
      var front, a := acts[..|acts| - 1], acts[|acts| - 1];
      assert acts == front + [a];
      ReopenedSnoc(s, front, a);
      HandedOnce(s, front);
      AfterSnoc(s, front, a);
      AfterInv(s, front);
      BodiesStep(s, After(s, front), a);
    }
  }

  /** After a reopening that was not aborted, a second body is in hand or on its way. */
  lemma {:induction false} ReopenedLeads(s: S.Sender, acts: seq<Action>)
    requires Honest(s) && Faithful(s) && Reopened(s, acts) && RxAbort !in acts
    ensures var y := After(s, acts); |y.handed| >= 2 || (|y.handed| == 1 && y.rx.Some?)
  {
    var front, a := acts[..|acts| - 1], acts[|acts| - 1];
    assert acts == front + [a];
    if Reopened(s, front) { ReopenedLeads(s, front); }
    ReopenedSnoc(s, front, a);
    AfterSnoc(s, front, a);
    assert Inv(s, After(s, front)) by { AfterInv(s, front); }
    BodiesStep(s, After(s, front), a);
  }

  ghost predicate NoAdv(acts: seq<Action>) {
    forall i :: 0 <= i < |acts| ==> !acts[i].DeliverAdv?
  }

  lemma {:induction false} NoAdvNoReopening(s: S.Sender, acts: seq<Action>, rest: seq<Action>)
    requires Honest(s) && NoAdv(rest) && !Reopened(s, acts)
    ensures !Reopened(s, acts + rest)
  {
    if rest == [] {
      assert acts + rest == acts;
    } else {
      var front, a := rest[..|rest| - 1], rest[|rest| - 1];
      NoAdvNoReopening(s, acts, front);
      assert acts + rest == (acts + front) + [a];
      ReopenedSnoc(s, acts + front, a);
    }
  }

  /** A registered receiver with a live sender can be brought to hand up, with no further advertisement. */
  lemma CanHandUp(s: S.Sender, acts: seq<Action>) returns (rest: seq<Action>)
    requires Honest(s) && Deliverable(s) && After(s, acts).rx.Some? && !S.Ended(After(s, acts).tx)
    ensures AllQuiet(rest) && |After(s, acts + rest).handed| == |After(s, acts).handed| + 1
  {
    var y, k := After(s, acts), 2 * |s.parts|;
    AfterInv(s, acts);
    var ys;
    ys, rest := RoundsExist(s, y, k);
    MeasureBounds(s, y);
    LossFreeRoundsComplete(s, ys, k);
    ExecAppend(s, Init(s), acts, rest);
  }

  /** The body can come to be handed up twice without a further advertisement exactly when one has
      reopened the receiver after it was handed up. */
  lemma TwiceIffReopened(s: S.Sender, acts: seq<Action>)
    requires Honest(s) && Deliverable(s) && RxAbort !in acts && !S.Ended(After(s, acts).tx)
    ensures (exists rest :: NoAdv(rest) && |After(s, acts + rest).handed| >= 2) <==> Reopened(s, acts)
  {
    if Reopened(s, acts) {
      ReopenedLeads(s, acts);
      if |After(s, acts).handed| >= 2 {
        assert acts + [] == acts;
      } else {
        var rest := CanHandUp(s, acts);
        assert forall i :: 0 <= i < |rest| ==> Quiet(rest[i]);
      }
    } else {
      forall rest | NoAdv(rest) ensures |After(s, acts + rest).handed| <= 1 {
        NoAdvNoReopening(s, acts, rest);
        HandedOnce(s, acts + rest);
      }
    }
  }

  /** Bodies handed up, and the one an open receiver may still hand up. */
  ghost function InHand(y: Sys): nat {
    |y.handed| + if y.rx.Some? then 1 else 0
  }

  lemma {:induction false} NoAdvAddsNone(s: S.Sender, acts: seq<Action>, rest: seq<Action>)
    requires Honest(s) && Faithful(s) && NoAdv(rest)
    ensures InHand(After(s, acts + rest)) <= InHand(After(s, acts))
  {
    if rest == [] {
      assert acts + rest == acts;
    } else {
      var front, a := rest[..|rest| - 1], rest[|rest| - 1];
      NoAdvAddsNone(s, acts, front);
      assert acts + rest == (acts + front) + [a];
      AfterSnoc(s, acts + front, a);
      AfterInv(s, acts + front);
      BodiesStep(s, After(s, acts + front), a);
    }
  }

  /** The same for every run, aborted receivers included: n bodies can still be reached without a further
      advertisement exactly when that many are handed up, counting an open receiver's. */
  lemma ReachesIffInHand(s: S.Sender, acts: seq<Action>, n: nat)
    requires Honest(s) && Deliverable(s) && !S.Ended(After(s, acts).tx)
    ensures (exists rest :: NoAdv(rest) && |After(s, acts + rest).handed| >= n) <==> InHand(After(s, acts)) >= n
  {
    if InHand(After(s, acts)) >= n {
      if |After(s, acts).handed| >= n {
        assert acts + [] == acts;
      } else {
        var rest := CanHandUp(s, acts);
        assert forall i :: 0 <= i < |rest| ==> Quiet(rest[i]);
      }
    } else {
      forall rest | NoAdv(rest) ensures |After(s, acts + rest).handed| < n { NoAdvAddsNone(s, acts, rest); }
    }
  }

  // ---- whether the body can arrive at all ----

  /** Still advertising, or ended by giving up, by its deadline or with its link. */
  predicate Unheard(tx: S.Tx) {
    || tx.status == S.Advertised
    || tx.status in {S.Failed(S.AdvTimeout), S.Failed(S.Expired), S.Failed(S.Cancelled)}
  }

  lemma OversizeStep(s: S.Sender, y: Sys, a: Action)
    requires Honest(s) && !Fits(s) && y.rx.None? && y.net == {AdvMsg(WireAdv(s))} && Unheard(y.tx) && !y.tx.gotFirstReq
    ensures var y1 := Step(s, y, a);
      && y1.rx.None? && y1.net == y.net && y1.handed == y.handed && Unheard(y1.tx) && !y1.tx.gotFirstReq
  {
  }

  /** A sender whose blob is over the receiver's cap: its advertisement is dropped in silence every time, so
      no receiver opens, nothing is handed up, and it ends by giving up, by its deadline or with its link. */
  lemma {:induction false} OversizeNeverOpens(s: S.Sender, acts: seq<Action>)
    requires Honest(s) && !Fits(s)
    ensures var y := After(s, acts);
      && y.rx.None? && y.handed == [] && y.net == {AdvMsg(WireAdv(s))} && Unheard(y.tx) && !y.tx.gotFirstReq
  {
    if acts != [] {
      var front, a := acts[..|acts| - 1], acts[|acts| - 1];
      assert acts == front + [a];
      OversizeNeverOpens(s, front);
      AfterSnoc(s, front, a);
      OversizeStep(s, After(s, front), a);
    }
  }

  /** A blob over the cap, and fingerprints that repeat on different parts or at the end of a segment, let
      no schedule hand anything up, short of a forged MAC. */
  lemma UndeliverableNeverArrives(s: S.Sender, acts: seq<Action>)
    requires Honest(s) && !Deliverable(s) && !Forged(s)
    ensures var y := After(s, acts); y.handed == [] && !y.tx.status.Complete?
  {
    AfterInv(s, acts);
    if !Faithful(s) && Yield(s).Ok? { UnfaithfulYields(s); }
  }

  lemma DeliverableArrives(s: S.Sender) returns (acts: seq<Action>)
    requires Honest(s) && Deliverable(s)
    ensures s.body in After(s, acts).handed
  {
    var open := [DeliverAdv(false)];
    AfterSnoc(s, [], DeliverAdv(false));
    assert [] + open == open;
    var rest := CanHandUp(s, open);
    acts := open + rest;
    AfterInv(s, acts);
    FaithfulState(s, After(s, acts));
    var y := After(s, acts);
    assert y.handed[0] in y.handed;
  }

  /** Exactly which senders can be served: some schedule hands up the body iff the blob is within the
      receiver's cap, parts with one fingerprint are one part, and every segment's last fingerprint occurs
      nowhere before it. */
  lemma ArrivesIffDeliverable(s: S.Sender)
    requires Honest(s) && !Forged(s)
    ensures (exists acts :: s.body in After(s, acts).handed) <==> Deliverable(s)
  {
    if Deliverable(s) {
      var acts := DeliverableArrives(s);
    } else {
      forall acts ensures s.body !in After(s, acts).handed { UndeliverableNeverArrives(s, acts); }
    }
  }

  // ---- lost advertisements ----

  /** The first advertisement and j repeats are gone for good, each before anything could receive it. */
  ghost function AfterLosses(s: S.Sender, j: nat): (y: Sys)
    requires Honest(s)
    ensures Shaped(y)
  {
    (if j == 0 then Init(s) else Step(s, AfterLosses(s, j - 1), AdvTimer)).(net := {})
  }

  /** Nothing is left of them but the sender's count; one loss too many and it has given up. */
  lemma {:induction false} LossesLeave(s: S.Sender, j: nat)
    requires Honest(s)
    ensures var y := AfterLosses(s, j);
      && y.rx.None? && y.net == {} && y.handed == []
      && if j <= S.MAX_ADV_RETRIES then y.tx == S.Tx(S.Advertised, false, j, 0)
         else y.tx.status == S.Failed(S.AdvTimeout)
  {
    if j > 0 { LossesLeave(s, j - 1); }
  }

  lemma RepeatGoesOut(s: S.Sender, j: nat)
    requires Honest(s) && j < S.MAX_ADV_RETRIES
    ensures var y := Step(s, AfterLosses(s, j), AdvTimer);
      y == Sys(None, S.Tx(S.Advertised, false, j + 1, 0), {AdvMsg(WireAdv(s))}, []) && Inv(s, y)
  {
    LossesLeave(s, j);
  }

  /** One more repeat is all there is on the wire, and from it the transfer completes: 2n loss-free rounds
      hand up the body and the proof completes the sender. */
  lemma LateRepeatCompletes(s: S.Sender, j: nat, ys: seq<Sys>)
    requires Honest(s) && Deliverable(s) && j < S.MAX_ADV_RETRIES
    requires Rounds(s, ys) && |ys| == 2 * |s.parts| + 1 && ys[0] == Started(s, Step(s, AfterLosses(s, j), AdvTimer))
    ensures Step(s, AfterLosses(s, j), AdvTimer).net == {AdvMsg(WireAdv(s))}
    ensures var y := ys[2 * |s.parts|];
      && y.handed == [s.body] && RclMsg(s.hash) !in y.net
      && Step(s, y, DeliverPrf(Proof(s.hash, s.proof))).tx.status == S.Complete
  {
    var y, k := Step(s, AfterLosses(s, j), AdvTimer), 2 * |s.parts|;
    RepeatGoesOut(s, j);
    StartedOpens(s, y);
    MeasureBounds(s, ys[0]);
    LossFreeRoundsComplete(s, ys, k);
    FaithfulState(s, ys[k]);
    assert ys[k].handed[0] in ys[k].handed;
    ProofCompletesSender(s, ys[k]);
  }

  /** Without an advertisement on the wire or a retry left nothing more can happen. */
  lemma {:induction false} NoRetryNothing(s: S.Sender, j: nat, acts: seq<Action>)
    requires Honest(s) && j >= S.MAX_ADV_RETRIES
    ensures var y := Exec(s, AfterLosses(s, j), acts);
      && y.rx.None? && y.net == {} && y.handed == [] && !y.tx.status.Complete?
      && (S.Ended(y.tx) || (!y.tx.gotFirstReq && y.tx.advRetries >= S.MAX_ADV_RETRIES))
  {
    if acts == [] {
      LossesLeave(s, j);
    } else {
      NoRetryNothing(s, j, acts[..|acts| - 1]);
    }
  }

  ghost predicate CompletesAfter(s: S.Sender, j: nat, acts: seq<Action>)
    requires Honest(s)
  {
    Exec(s, AfterLosses(s, j), acts).tx.status.Complete?
  }

  /** A transfer whose first 1 + j advertisements are lost can still complete exactly while a retry is left. */
  lemma LossesRecoverIff(s: S.Sender, j: nat)
    requires Honest(s) && Deliverable(s)
    ensures (exists acts :: CompletesAfter(s, j, acts)) <==> j < S.MAX_ADV_RETRIES
  {
    if j < S.MAX_ADV_RETRIES {
      var acts := RecoveringRun(s, j);
    } else {
      forall acts ensures !CompletesAfter(s, j, acts) { NoRetryNothing(s, j, acts); }
    }
  }

  lemma RecoveringRun(s: S.Sender, j: nat) returns (acts: seq<Action>)
    requires Honest(s) && Deliverable(s) && j < S.MAX_ADV_RETRIES
    ensures CompletesAfter(s, j, acts)
  {
    var y0, open, last := AfterLosses(s, j), [AdvTimer, DeliverAdv(false)], DeliverPrf(Proof(s.hash, s.proof));
    var y1 := Exec(s, y0, open);
    assert y1 == Started(s, Step(s, y0, AdvTimer)) by {
      ExecTwo(s, y0, AdvTimer, DeliverAdv(false));
      RepeatGoesOut(s, j);
    }
    var ys, rest := RoundsExist(s, y1, 2 * |s.parts|);
    LateRepeatCompletes(s, j, ys);
    ExecAppend(s, y0, open, rest);
    ExecAppend(s, y0, open + rest, [last]);
    ExecOne(s, ys[2 * |s.parts|], last);
    acts := open + rest + [last];
  }
}
