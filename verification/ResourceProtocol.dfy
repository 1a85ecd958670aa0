/** Both machines and a channel that loses, repeats and reorders every message, the advertisement
    included: what every run keeps, progress to completion, and integrity on a channel that injects. */
module ResourceProtocol {
  import opened Octets
  import opened ResourceHash
  import opened ResourceWire
  import opened ResourceAgreement
  import R = ResourceReceiver
  import S = ResourceSender

  // ---- the system ----

  /** `rx` is the receiver registered for the resource, if one is; `net` holds every message ever
      emitted, any of which may be delivered late, again, or never; `handed` the bodies handed up. */
  datatype Sys = Sys(rx: Option<R.Rx>, tx: S.Tx, net: set<Msg>, handed: seq<Bytes>)

  /** A delivery, a timer, a deadline, or a cancel because an end closed its link. `full` says that the
      link already has as many inbound transfers as it may. */
  datatype Action =
    | DeliverAdv(full: bool)
    | RxTimer
    | DeliverPart(part: Bytes)
    | DeliverHmu(hmu: ParsedHmu)
    | RxAbort
    | AdvTimer
    | DeliverReq(req: Request)
    | DeliverPrf(proof: Proof)
    | DeliverRcl
    | TxDeadline
    | TxCancel

  ghost predicate Shaped(y: Sys) {
    y.rx.Some? ==> R.Shape(y.rx.value)
  }

  function Sent(out: Option<Request>): set<Msg> {
    match out case None => {} case Some(q) => {ReqMsg(q)}
  }

  /** The receiver after its state became x: it goes on, or with every slot filled leaves, handing up
      a good body and proving it, or refusing a bad one. */
  function Settle(s: S.Sender, y: Sys, x: R.Rx): Sys {
    if x.count < |x.parts| then y.(rx := Some(x))
    else match R.Assemble(SessionOf(s), x)
      case Err(_) => y.(rx := None, net := y.net + {RclMsg(s.hash)})
      case Ok(body) =>
        var proof := R.FinalProof(SessionOf(s), x);
        y.(rx := None, net := y.net + {PrfMsg(proof)}, handed := y.handed + [body])
  }

  function RxStep(s: S.Sender, y: Sys, e: R.Event): Sys
    requires y.rx.Some? ==> R.Shape(y.rx.value)
  {
    if y.rx.None? then y
    else
      var (x, out) := R.Handle(SessionOf(s), y.rx.value, e);
      Settle(s, y.(net := y.net + Sent(out)), x)
  }

  function TxStep(s: S.Sender, y: Sys, adv: Adv, e: S.Event): Sys
    requires |s.hashmap| == 4 * |s.parts| && |s.hash| == 32
  {
    var (tx, out) := S.Handle(s, y.tx, adv, e);
    y.(tx := tx, net := y.net + set m | m in out)
  }

  /** An advertisement that does not parse is dropped in silence. One that does opens a receiver, unless
      one is registered or the link is full: then it is refused. */
  ghost function AdvStep(s: S.Sender, y: Sys, full: bool): Sys
    requires Honest(s)
  {
    if ParseAdv(WireAdv(s)).Err? then y
    else if full || y.rx.Some? then y.(net := y.net + {RclMsg(s.hash)})
    else
      var (x, out) := R.RequestNext(SessionOf(s), R.Open(WireAdv(s)));
      y.(rx := Some(x), net := y.net + Sent(out))
  }

  /** One step: a message already emitted is delivered, or something ends or fires. */
  ghost function Step(s: S.Sender, y: Sys, a: Action): (y1: Sys)
    requires Honest(s) && Shaped(y)
    ensures Shaped(y1)
  {
    match a
    case DeliverAdv(full) => if AdvMsg(WireAdv(s)) in y.net then AdvStep(s, y, full) else y
    case RxTimer => RxStep(s, y, R.Timer)
    case DeliverPart(p) => if PartMsg(p) in y.net then RxStep(s, y, R.PartIn(p)) else y
    case DeliverHmu(h) => if HmuMsg(h) in y.net then RxStep(s, y, R.HmuIn(h)) else y
    case RxAbort => y.(rx := None)
    case AdvTimer => TxStep(s, y, WireAdv(s), S.AdvTimer)
    case DeliverReq(q) => if ReqMsg(q) in y.net then TxStep(s, y, WireAdv(s), S.ReqIn(q)) else y
    case DeliverPrf(p) => if PrfMsg(p) in y.net then TxStep(s, y, WireAdv(s), S.PrfIn(p)) else y
    case DeliverRcl => if RclMsg(s.hash) in y.net then TxStep(s, y, WireAdv(s), S.CancelIn) else y
    case TxDeadline => TxStep(s, y, WireAdv(s), S.Deadline)
    case TxCancel => TxStep(s, y, WireAdv(s), S.CancelIn)
  }

  /** A run. */
  ghost function Exec(s: S.Sender, y: Sys, acts: seq<Action>): (y1: Sys)
    requires Honest(s) && Shaped(y)
    ensures Shaped(y1)
  {
    if acts == [] then y else Step(s, Exec(s, y, acts[..|acts| - 1]), acts[|acts| - 1])
  }

  /** The advertisement has been emitted; nothing has arrived. */
  ghost function Init(s: S.Sender): (y: Sys)
    requires Honest(s)
    ensures Shaped(y)
  {
    Sys(None, S.Start(), {AdvMsg(WireAdv(s))}, [])
  }

  // ---- the invariant ----

  /** Why a sender may have failed. */
  ghost predicate MayFail(s: S.Sender, tx: S.Tx)
    requires Honest(s)
  {
    tx.status.Failed? ==>
      || (tx.status.error == S.AdvTimeout && !tx.gotFirstReq)
      || tx.status.error == S.Cancelled
      || tx.status.error == S.Expired
      || (tx.status.error == S.NotSegmentBoundary && !EndsFirst(s))
      || (tx.status.error == S.ProofMismatch && !Faithful(s))
  }

  ghost predicate RxOk(s: S.Sender, rx: Option<R.Rx>)
    requires Honest(s)
  {
    rx.Some? ==> Fits(s) && RxInv(s, rx.value) && rx.value.count < |rx.value.parts|
  }

  ghost predicate NetOk(s: S.Sender, net: set<Msg>)
    requires Honest(s)
  {
    AdvMsg(WireAdv(s)) in net && forall m :: m in net ==> HonestMsg(s, m)
  }

  ghost function TheProof(s: S.Sender): Proof
    requires Honest(s) && Yield(s).Ok?
  {
    Proof(s.hash, ExpectedProof(s.prim, Yield(s).value, s.hash))
  }

  ghost predicate HandedOk(s: S.Sender, y: Sys)
    requires Honest(s)
  {
    && (forall b :: b in y.handed ==> Yield(s) == Ok(b))
    && (y.handed != [] ==> Fits(s) && EndsFirst(s) && Yield(s).Ok? && PrfMsg(TheProof(s)) in y.net)
    && (forall p :: PrfMsg(p) in y.net ==> y.handed != [])
  }

  ghost predicate Inv(s: S.Sender, y: Sys)
    requires Honest(s)
  {
    && RxOk(s, y.rx) && NetOk(s, y.net) && HandedOk(s, y) && MayFail(s, y.tx)
    && (y.tx.status.Complete? ==> y.handed != [])
  }

  // ---- every run ----

  lemma SettleKeeps(s: S.Sender, y: Sys, x: R.Rx)
    requires Honest(s) && Fits(s) && NetOk(s, y.net) && HandedOk(s, y) && RxInv(s, x)
    ensures var y1 := Settle(s, y, x); RxOk(s, y1.rx) && NetOk(s, y1.net) && HandedOk(s, y1)
  {
    if x.count >= |x.parts| { FullIsServed(s, x); }
  }

  lemma SentKeeps(s: S.Sender, y: Sys, out: Option<Request>)
    requires Honest(s) && NetOk(s, y.net) && HandedOk(s, y)
    requires match out case None => true case Some(q) => HonestMsg(s, ReqMsg(q))
    ensures var y1 := y.(net := y.net + Sent(out)); NetOk(s, y1.net) && HandedOk(s, y1)
  {
  }

  lemma SentSettleKeeps(s: S.Sender, y: Sys, x: R.Rx, out: Option<Request>)
    requires Honest(s) && Fits(s) && Inv(s, y) && RxInv(s, x)
    requires match out case None => true case Some(q) => HonestMsg(s, ReqMsg(q))
    ensures Inv(s, Settle(s, y.(net := y.net + Sent(out)), x))
  {
    SentKeeps(s, y, out);
    SettleKeeps(s, y.(net := y.net + Sent(out)), x);
  }

  lemma RxStepKeeps(s: S.Sender, y: Sys, e: R.Event)
    requires Honest(s) && Inv(s, y)
    requires e.PartIn? ==> e.part in Served(s)
    requires e.HmuIn? ==> HonestMsg(s, HmuMsg(e.hmu))
    ensures Inv(s, RxStep(s, y, e))
  {
    if y.rx.Some? {
      var (x, out) := R.Handle(SessionOf(s), y.rx.value, e);
      RxHandleKeeps(s, y.rx.value, e);
      SentSettleKeeps(s, y, x, out);
    }
  }

  lemma AdvStepKeeps(s: S.Sender, y: Sys, full: bool)
    requires Honest(s) && Inv(s, y)
    ensures Inv(s, AdvStep(s, y, full))
  {
    if Fits(s) && !full && y.rx.None? {
      OpenInv(s);
      TargetKeepsRxInv(s, R.Open(WireAdv(s)));
      SentKeeps(s, y, R.RequestNext(SessionOf(s), R.Open(WireAdv(s))).1);
    }
  }

  /** A sender that gets an honest request fails only off a segment boundary. */
  lemma ReqFails(s: S.Sender, tx: S.Tx, q: Request)
    requires Honest(s) && HonestMsg(s, ReqMsg(q)) && MayFail(s, tx) && !S.Ended(tx)
    ensures MayFail(s, S.Handle(s, tx, WireAdv(s), S.ReqIn(q)).0)
    ensures EndsFirst(s) ==> !S.Ended(S.Handle(s, tx, WireAdv(s), S.ReqIn(q)).0)
    ensures !S.Handle(s, tx, WireAdv(s), S.ReqIn(q)).0.status.Complete?
  {
    S.LiveReply(s, tx, WireAdv(s), q);
    if q.exhausted {
      var m :| Names(s, q, m);
      NamedServedIff(s, q, m);
    }
  }

  lemma ReqStepKeeps(s: S.Sender, y: Sys, q: Request)
    requires Honest(s) && Inv(s, y) && HonestMsg(s, ReqMsg(q))
    ensures Inv(s, TxStep(s, y, WireAdv(s), S.ReqIn(q)))
  {
    if !S.Ended(y.tx) {
      S.LiveReply(s, y.tx, WireAdv(s), q);
      ReqFails(s, y.tx, q);
      forall m | m in S.ReplyTo(s, q) ensures HonestMsg(s, m) && (m.PartMsg? || m.HmuMsg?) { ReplyIsHonest(s, q, m); }
    }
  }

  /** A proof that reaches the sender is that of what was handed up: wrong only if parts were mixed. */
  lemma PrfStepKeeps(s: S.Sender, y: Sys, p: Proof)
    requires Honest(s) && Inv(s, y) && PrfMsg(p) in y.net
    ensures Inv(s, TxStep(s, y, WireAdv(s), S.PrfIn(p)))
  {
    assert HonestMsg(s, PrfMsg(p));
    if Faithful(s) { FaithfulYields(s); }
  }

  lemma TxStepKeeps(s: S.Sender, y: Sys, e: S.Event)
    requires Honest(s) && Inv(s, y)
    requires e.ReqIn? ==> HonestMsg(s, ReqMsg(e.req))
    requires e.PrfIn? ==> PrfMsg(e.proof) in y.net
    ensures Inv(s, TxStep(s, y, WireAdv(s), e))
  {
    match e
    case ReqIn(q) => ReqStepKeeps(s, y, q);
    case PrfIn(p) => PrfStepKeeps(s, y, p);
    case _ =>
  }

  lemma PartKeeps(s: S.Sender, y: Sys, p: Bytes)
    requires Honest(s) && Inv(s, y)
    ensures Inv(s, Step(s, y, DeliverPart(p)))
  {
    if PartMsg(p) in y.net {
      assert HonestMsg(s, PartMsg(p));
      RxStepKeeps(s, y, R.PartIn(p));
    }
  }

  lemma HmuKeeps(s: S.Sender, y: Sys, h: ParsedHmu)
    requires Honest(s) && Inv(s, y)
    ensures Inv(s, Step(s, y, DeliverHmu(h)))
  {
    if HmuMsg(h) in y.net {
      assert HonestMsg(s, HmuMsg(h));
      RxStepKeeps(s, y, R.HmuIn(h));
    }
  }

  lemma StepKeeps(s: S.Sender, y: Sys, a: Action)
    requires Honest(s) && Inv(s, y)
    ensures Inv(s, Step(s, y, a))
  {
    match a
    case DeliverAdv(full) => AdvStepKeeps(s, y, full);
    case RxTimer => RxStepKeeps(s, y, R.Timer);
    case DeliverPart(p) => PartKeeps(s, y, p);
    case DeliverHmu(h) => HmuKeeps(s, y, h);
    case RxAbort =>
    case AdvTimer => TxStepKeeps(s, y, S.AdvTimer);
    case DeliverReq(q) => if ReqMsg(q) in y.net { TxStepKeeps(s, y, S.ReqIn(q)); }
    case DeliverPrf(p) => if PrfMsg(p) in y.net { TxStepKeeps(s, y, S.PrfIn(p)); }
    case DeliverRcl => TxStepKeeps(s, y, S.CancelIn);
    case TxDeadline => TxStepKeeps(s, y, S.Deadline);
    case TxCancel => TxStepKeeps(s, y, S.CancelIn);
  }

  lemma InitInv(s: S.Sender)
    requires Honest(s)
    ensures Inv(s, Init(s))
  {
  }

  lemma {:induction false} ExecKeeps(s: S.Sender, y: Sys, acts: seq<Action>)
    requires Honest(s) && Inv(s, y)
    ensures Inv(s, Exec(s, y, acts))
  {
    if acts != [] {
      ExecKeeps(s, y, acts[..|acts| - 1]);
      StepKeeps(s, Exec(s, y, acts[..|acts| - 1]), acts[|acts| - 1]);
    }
  }

  /** With faithful fingerprints, what is served for a slot is that slot's part. */
  lemma FaithfulServes(s: S.Sender, i: int)
    requires Mapped(s) && Faithful(s) && 0 <= i < |s.parts|
    ensures s.parts[First(s, i)] == s.parts[i]
  {
    ServedIff(s);
    assert Served(s)[i] == s.parts[i];
  }

  /** The receiver's slots hold the sender's own parts. */
  ghost predicate HoldsParts(s: S.Sender, rx: Option<R.Rx>) {
    rx.Some? ==>
      && |rx.value.flags| == |rx.value.parts| == |s.parts|
      && forall i :: 0 <= i < |s.parts| && rx.value.flags[i] ==> rx.value.parts[i] == s.parts[i]
  }

  lemma FaithfulState(s: S.Sender, y: Sys)
    requires Honest(s) && Inv(s, y) && Faithful(s)
    ensures HoldsParts(s, y.rx) && forall b :: b in y.handed ==> b == s.body
  {
    FaithfulYields(s);
    if y.rx.Some? {
      forall i | 0 <= i < |s.parts| && y.rx.value.flags[i] ensures y.rx.value.parts[i] == s.parts[i] {
        FaithfulServes(s, i);
      }
    }
  }

  /** Exact delivery, for every sender the construction accepts and any schedule whatever: a registered
      receiver's filled slot i holds the part served for i, its prefix is the sender's first
      min(n, SEGMENT * k) fingerprints, every body handed up is what the served parts yield, the sender
      completes only after a body was handed up, and fails only for the listed reasons. With faithful
      fingerprints the slots hold the sender's own parts and every body is the sender's. */
  lemma ExactDelivery(s: S.Sender, acts: seq<Action>)
    requires Honest(s)
    ensures var y := Exec(s, Init(s), acts);
      && RxOk(s, y.rx) && MayFail(s, y.tx) && (y.tx.status.Complete? ==> y.handed != [])
      && (forall b :: b in y.handed ==> Yield(s) == Ok(b))
      && (Faithful(s) ==> HoldsParts(s, y.rx) && forall b :: b in y.handed ==> b == s.body)
  {
    InitInv(s);
    ExecKeeps(s, Init(s), acts);
    var y := Exec(s, Init(s), acts);
    if Faithful(s) { FaithfulState(s, y); }
  }

  // ---- progress ----

  function Measure(n: int, x: R.Rx): int {
    (n - x.known) + (n - x.count)
  }

  /** What a loss-free round is made of. */
  predicate Quiet(a: Action) {
    a.RxTimer? || a.DeliverPart? || a.DeliverHmu? || a.DeliverReq?
  }

  /** A receiver loses no ground and leaves only by handing up; without one nothing is handed up. */
  ghost predicate RxOnward(s: S.Sender, y: Sys, y1: Sys) {
    if y.rx.None? then y1.rx.None? && y1.handed == y.handed
    else if y1.rx.None? then |y1.handed| == |y.handed| + 1
    else y1.handed == y.handed && Measure(|s.parts|, y1.rx.value) <= Measure(|s.parts|, y.rx.value)
  }

  ghost predicate Onward(s: S.Sender, y: Sys, y1: Sys) {
    RxOnward(s, y, y1) && y.net <= y1.net && (RclMsg(s.hash) in y1.net ==> RclMsg(s.hash) in y.net)
  }

  lemma SettleOnward(s: S.Sender, y: Sys, x: R.Rx)
    requires Honest(s) && Faithful(s) && RxInv(s, x) && y.rx.Some?
    requires Measure(|s.parts|, x) <= Measure(|s.parts|, y.rx.value)
    ensures Onward(s, y, Settle(s, y, x))
  {
    if x.count >= |x.parts| {
      FullIsServed(s, x);
      FaithfulYields(s);
    }
  }

  lemma RxStepOnward(s: S.Sender, y: Sys, e: R.Event)
    requires Honest(s) && Faithful(s) && Inv(s, y)
    requires e.PartIn? ==> e.part in Served(s)
    requires e.HmuIn? ==> HonestMsg(s, HmuMsg(e.hmu))
    ensures Onward(s, y, RxStep(s, y, e))
  {
    if y.rx.Some? {
      var x0 := y.rx.value;
      var (x, out) := R.Handle(SessionOf(s), x0, e);
      assert RxInv(s, x) by { RxHandleKeeps(s, x0, e); }
      assert Measure(|s.parts|, x) <= Measure(|s.parts|, x0) by { R.AnyEventKeepsValid(SessionOf(s), x0, e); }
      SettleOnward(s, y.(net := y.net + Sent(out)), x);
    }
  }

  lemma ReqStepOnward(s: S.Sender, y: Sys, q: Request)
    requires Honest(s) && Inv(s, y) && HonestMsg(s, ReqMsg(q))
    ensures Onward(s, y, TxStep(s, y, WireAdv(s), S.ReqIn(q)))
  {
    if !S.Ended(y.tx) {
      S.LiveReply(s, y.tx, WireAdv(s), q);
      forall m | m in S.ReplyTo(s, q) ensures !m.RclMsg? { ReplyIsHonest(s, q, m); }
    }
  }

  lemma QuietOnward(s: S.Sender, y: Sys, a: Action)
    requires Honest(s) && Faithful(s) && Inv(s, y) && Quiet(a)
    ensures Onward(s, y, Step(s, y, a))
  {
    match a
    case RxTimer => RxStepOnward(s, y, R.Timer);
    case DeliverPart(p) =>
      if PartMsg(p) in y.net {
        assert HonestMsg(s, PartMsg(p));
        RxStepOnward(s, y, R.PartIn(p));
      }
    case DeliverHmu(h) => if HmuMsg(h) in y.net { RxStepOnward(s, y, R.HmuIn(h)); }
    case DeliverReq(q) => if ReqMsg(q) in y.net { ReqStepOnward(s, y, q); }
  }

  lemma RxStepKeepsTx(s: S.Sender, y: Sys, e: R.Event)
    requires Shaped(y)
    ensures RxStep(s, y, e).tx == y.tx
  {
  }

  lemma QuietLive(s: S.Sender, y: Sys, a: Action)
    requires Honest(s) && EndsFirst(s) && Inv(s, y) && !S.Ended(y.tx) && Quiet(a)
    ensures !S.Ended(Step(s, y, a).tx)
  {
    match a
    case RxTimer => RxStepKeepsTx(s, y, R.Timer);
    case DeliverPart(p) => RxStepKeepsTx(s, y, R.PartIn(p));
    case DeliverHmu(h) => RxStepKeepsTx(s, y, R.HmuIn(h));
    case DeliverReq(q) => if ReqMsg(q) in y.net { ReqFails(s, y.tx, q); }
  }

  ghost predicate AllQuiet(acts: seq<Action>) {
    forall i :: 0 <= i < |acts| ==> Quiet(acts[i])
  }

  lemma {:induction false} AllQuietOnward(s: S.Sender, y: Sys, acts: seq<Action>)
    requires Honest(s) && Deliverable(s) && Inv(s, y) && !S.Ended(y.tx) && AllQuiet(acts)
    ensures Onward(s, y, Exec(s, y, acts)) && !S.Ended(Exec(s, y, acts).tx)
  {
    if acts != [] {
      var front, a := acts[..|acts| - 1], acts[|acts| - 1];
      var y1 := Exec(s, y, front);
      AllQuietOnward(s, y, front);
      ExecKeeps(s, y, front);
      QuietOnward(s, y1, a);
      QuietLive(s, y1, a);
    }
  }

  lemma {:induction false} ExecAppend(s: S.Sender, y: Sys, a: seq<Action>, b: seq<Action>)
    requires Honest(s) && Shaped(y)
    ensures Exec(s, y, a + b) == Exec(s, Exec(s, y, a), b)
  {
    if b == [] {
      assert a + b == a;
    } else {
      assert (a + b)[..|a + b| - 1] == a + b[..|b| - 1];
      ExecAppend(s, y, a, b[..|b| - 1]);
    }
  }

  lemma ExecOne(s: S.Sender, y: Sys, a: Action)
    requires Honest(s) && Shaped(y)
    ensures Exec(s, y, [a]) == Step(s, y, a)
  {
    assert [a][..0] == [];
  }

  lemma ExecTwo(s: S.Sender, y: Sys, a: Action, b: Action)
    requires Honest(s) && Shaped(y)
    ensures Exec(s, y, [a, b]) == Step(s, Step(s, y, a), b)
  {
    ExecOne(s, y, a);
    assert [a, b][..1] == [a];
  }

  predicate ForReceiver(m: Msg) { m.PartMsg? || m.HmuMsg? }

  function Delivery(m: Msg): Action
    requires ForReceiver(m)
  {
    if m.PartMsg? then DeliverPart(m.part) else DeliverHmu(m.hmu)
  }

  function Deliveries(out: seq<Msg>): (acts: seq<Action>)
    ensures forall i :: 0 <= i < |acts| ==> acts[i].DeliverPart? || acts[i].DeliverHmu?
  {
    if out == [] then []
    else (if ForReceiver(out[0]) then [Delivery(out[0])] else []) + Deliveries(out[1..])
  }

  /** One loss-free round: the timer fires, the request arrives, every answer arrives. */
  ghost function Round(s: S.Sender, y: Sys): (acts: seq<Action>)
    requires Honest(s) && Shaped(y)
    ensures AllQuiet(acts)
  {
    if y.rx.None? then []
    else
      match R.RequestNext(SessionOf(s), y.rx.value).1
      case None => []
      case Some(q) => [RxTimer, DeliverReq(q)] + Deliveries(S.ReplyTo(s, q))
  }

  /** The timer only moves the window target and puts the request on the wire. */
  lemma TimerAsks(s: S.Sender, y: Sys, q: Request)
    requires Honest(s) && Inv(s, y) && y.rx.Some? && R.RequestNext(SessionOf(s), y.rx.value).1 == Some(q)
    ensures var x := R.RequestNext(SessionOf(s), y.rx.value).0;
      Step(s, y, RxTimer) == y.(rx := Some(x), net := y.net + {ReqMsg(q)}) && x == y.rx.value.(target := x.target)
  {
  }

  /** A live sender puts its whole reply on the wire. */
  lemma RequestAnswered(s: S.Sender, y: Sys, q: Request)
    requires Honest(s) && Shaped(y) && !S.Ended(y.tx) && ReqMsg(q) in y.net && q.resourceHash == s.hash
    ensures var y1 := Step(s, y, DeliverReq(q));
      y1 == y.(tx := y1.tx, net := y1.net) && forall m :: m in S.ReplyTo(s, q) ==> m in y1.net
  {
    S.LiveReply(s, y.tx, WireAdv(s), q);
  }

  /** Timer, then request: both have happened, and the receiver has only moved its window target. */
  lemma AskAndAnswer(s: S.Sender, y: Sys, q: Request) returns (y2: Sys)
    requires Honest(s) && Deliverable(s) && Inv(s, y) && y.rx.Some? && !S.Ended(y.tx)
    requires R.RequestNext(SessionOf(s), y.rx.value).1 == Some(q)
    ensures y2 == Exec(s, y, [RxTimer, DeliverReq(q)]) && Inv(s, y2) && !S.Ended(y2.tx)
    ensures y2.rx.Some? && y2.rx.value == y.rx.value.(target := y2.rx.value.target) && y2.handed == y.handed
    ensures forall m :: m in S.ReplyTo(s, q) ==> m in y2.net
  {
    y2 := Exec(s, y, [RxTimer, DeliverReq(q)]);
    var y1 := Step(s, y, RxTimer);
    assert y2 == Step(s, y1, DeliverReq(q)) by { ExecTwo(s, y, RxTimer, DeliverReq(q)); }
    assert Inv(s, y2) && !S.Ended(y2.tx) by {
      ExecKeeps(s, y, [RxTimer, DeliverReq(q)]);
      AllQuietOnward(s, y, [RxTimer, DeliverReq(q)]);
    }
    assert Shaped(y1);
    TimerAsks(s, y, q);
    RequestAnswered(s, y1, q);
  }

  /** A receiver that goes on has exactly handled the event. */
  lemma RxStepState(s: S.Sender, y: Sys, e: R.Event)
    requires Shaped(y) && y.rx.Some? && RxStep(s, y, e).rx.Some?
    ensures RxStep(s, y, e).rx.value == R.Handle(SessionOf(s), y.rx.value, e).0
  {
  }

  function Arrival(m: Msg): R.Event
    requires ForReceiver(m)
  {
    if m.PartMsg? then R.PartIn(m.part) else R.HmuIn(m.hmu)
  }

  lemma DeliveryIsArrival(s: S.Sender, y: Sys, m: Msg)
    requires Honest(s) && Shaped(y) && ForReceiver(m) && m in y.net
    ensures Step(s, y, Delivery(m)) == RxStep(s, y, Arrival(m))
  {
  }

  /** The first answer moves the receiver on, or finishes it. */
  lemma FirstAnswerAdvances(s: S.Sender, y: Sys, m: Msg)
    requires Honest(s) && RxOk(s, y.rx) && y.rx.Some? && m in y.net && HonestMsg(s, m) && Helps(s, y.rx.value, m)
    ensures var y1 := Step(s, y, Delivery(m));
      y1.rx.Some? ==> Measure(|s.parts|, y1.rx.value) < Measure(|s.parts|, y.rx.value)
  {
    DeliveryIsArrival(s, y, m);
    if RxStep(s, y, Arrival(m)).rx.Some? {
      RxStepState(s, y, Arrival(m));
      HelpAdvances(s, y.rx.value, m);
    }
  }

  /** A round's actions are the request, its first answer, and the rest. */
  lemma RoundUnfolds(s: S.Sender, y: Sys, q: Request)
    requires Honest(s) && Shaped(y) && y.rx.Some? && R.RequestNext(SessionOf(s), y.rx.value).1 == Some(q)
    requires S.ReplyTo(s, q) != [] && ForReceiver(S.ReplyTo(s, q)[0])
    ensures var out := S.ReplyTo(s, q); var y2 := Exec(s, y, [RxTimer, DeliverReq(q)]);
      Exec(s, y, Round(s, y)) == Exec(s, Step(s, y2, Delivery(out[0])), Deliveries(out[1..]))
  {
    var out := S.ReplyTo(s, q);
    var ask, a, rest := [RxTimer, DeliverReq(q)], Delivery(out[0]), Deliveries(out[1..]);
    assert Round(s, y) == ask + ([a] + rest);
    ExecAppend(s, y, ask, [a] + rest);
    ExecAppend(s, Exec(s, y, ask), [a], rest);
    ExecOne(s, Exec(s, y, ask), a);
  }

  /** Progress: from any reachable state with a receiver and a live sender, a loss-free round hands up
      the body or strictly lowers (n - known) + (n - received). */
  lemma RoundAdvances(s: S.Sender, y: Sys)
    requires Honest(s) && Deliverable(s) && Inv(s, y) && y.rx.Some? && !S.Ended(y.tx)
    ensures var y1 := Exec(s, y, Round(s, y));
      y1.rx.Some? ==> Measure(|s.parts|, y1.rx.value) < Measure(|s.parts|, y.rx.value)
  {
    var q := FirstRequest(s, y.rx.value);
    var out := S.ReplyTo(s, q);
    var y2 := AskAndAnswer(s, y, q);
    AnswersAdvance(s, y2, out);
    RoundUnfolds(s, y, q);
  }

  /** A registered receiver asks, and the answer starts with what helps it. */
  lemma FirstRequest(s: S.Sender, x: R.Rx) returns (q: Request)
    requires Honest(s) && EndsFirst(s) && RxInv(s, x) && x.count < |x.parts|
    ensures R.RequestNext(SessionOf(s), x).1 == Some(q)
    ensures S.ReplyTo(s, q) != [] && ForReceiver(S.ReplyTo(s, q)[0]) && Helps(s, x, S.ReplyTo(s, q)[0])
  {
    AlwaysAsks(s, x);
    q := R.RequestNext(SessionOf(s), x).1.value;
    ReplyHelps(s, x, q);
  }

  /** Answers of which the first helps leave the receiver done, or nearer. */
  lemma AnswersAdvance(s: S.Sender, y: Sys, out: seq<Msg>)
    requires Honest(s) && Deliverable(s) && Inv(s, y) && y.rx.Some? && !S.Ended(y.tx)
    requires out != [] && ForReceiver(out[0]) && out[0] in y.net && Helps(s, y.rx.value, out[0])
    ensures var y1 := Exec(s, Step(s, y, Delivery(out[0])), Deliveries(out[1..]));
      y1.rx.Some? ==> Measure(|s.parts|, y1.rx.value) < Measure(|s.parts|, y.rx.value)
  {
    var y3 := Step(s, y, Delivery(out[0]));
    assert y3.rx.Some? ==> Measure(|s.parts|, y3.rx.value) < Measure(|s.parts|, y.rx.value) by {
      FirstAnswerAdvances(s, y, out[0]);
    }
    assert Inv(s, y3) && !S.Ended(y3.tx) by {
      StepKeeps(s, y, Delivery(out[0]));
      QuietLive(s, y, Delivery(out[0]));
    }
    AllQuietOnward(s, y3, Deliveries(out[1..]));
  }

  // ---- completion ----

  /** States one loss-free round apart. */
  ghost predicate Rounds(s: S.Sender, ys: seq<Sys>)
    requires Honest(s)
  {
    && ys != [] && (forall i :: 0 <= i < |ys| ==> Shaped(ys[i]))
    && forall i :: 0 < i < |ys| ==> ys[i] == Exec(s, ys[i - 1], Round(s, ys[i - 1]))
  }

  lemma {:induction false} RoundsInv(s: S.Sender, ys: seq<Sys>, k: nat)
    requires Honest(s) && Rounds(s, ys) && Inv(s, ys[0]) && k < |ys|
    ensures Inv(s, ys[k])
  {
    if k > 0 {
      RoundsInv(s, ys, k - 1);
      ExecKeeps(s, ys[k - 1], Round(s, ys[k - 1]));
    }
  }

  /** What k loss-free rounds after y have led to: still on the way k rounds nearer, or one body more. */
  ghost predicate RoundsLed(s: S.Sender, y: Sys, k: nat, r: Sys) {
    && !S.Ended(r.tx) && Onward(s, y, r)
    && (r.rx.Some? ==> y.rx.Some? && Measure(|s.parts|, r.rx.value) + k <= Measure(|s.parts|, y.rx.value))
  }

  lemma OneMoreRound(s: S.Sender, y: Sys, k: nat, r: Sys)
    requires Honest(s) && Deliverable(s) && Inv(s, r) && RoundsLed(s, y, k, r)
    ensures RoundsLed(s, y, k + 1, Exec(s, r, Round(s, r)))
  {
    var r1 := Exec(s, r, Round(s, r));
    assert Onward(s, r, r1) && !S.Ended(r1.tx) by { AllQuietOnward(s, r, Round(s, r)); }
    if r.rx.Some? { RoundAdvances(s, r); }
  }

  lemma {:induction false} RoundsKeep(s: S.Sender, ys: seq<Sys>, k: nat)
    requires Honest(s) && Deliverable(s) && Rounds(s, ys) && Inv(s, ys[0]) && !S.Ended(ys[0].tx) && k < |ys|
    ensures RoundsLed(s, ys[0], k, ys[k])
  {
    if k > 0 {
      RoundsKeep(s, ys, k - 1);
      assert Inv(s, ys[k - 1]) by { RoundsInv(s, ys, k - 1); }
      OneMoreRound(s, ys[0], k - 1, ys[k - 1]);
    }
  }

  lemma MeasureBounds(s: S.Sender, y: Sys)
    requires Honest(s) && Inv(s, y) && y.rx.Some?
    ensures 0 < Measure(|s.parts|, y.rx.value) < 2 * |s.parts|
  {
    R.CountFull(y.rx.value.flags);
  }

  /** Completion: whatever was lost so far, after (n - known) + (n - received) loss-free rounds the
      registered receiver has handed up the body, and the sender still listens for its proof. */
  lemma LossFreeRoundsComplete(s: S.Sender, ys: seq<Sys>, k: nat)
    requires Honest(s) && Deliverable(s) && Rounds(s, ys) && Inv(s, ys[0]) && !S.Ended(ys[0].tx) && k < |ys|
    requires ys[0].rx.Some? ==> k >= Measure(|s.parts|, ys[0].rx.value)
    ensures ys[k].rx.None? && Inv(s, ys[k]) && !S.Ended(ys[k].tx)
    ensures ys[0].rx.Some? ==> |ys[k].handed| == |ys[0].handed| + 1
    ensures ys[0].rx.None? ==> ys[k].handed == ys[0].handed
    ensures RclMsg(s.hash) in ys[k].net ==> RclMsg(s.hash) in ys[0].net
  {
    RoundsKeep(s, ys, k);
    RoundsInv(s, ys, k);
    if ys[k].rx.Some? { MeasureBounds(s, ys[k]); }
  }

  /** The proof of what was handed up is on the wire, and delivering it completes a live sender. */
  lemma ProofCompletesSender(s: S.Sender, y: Sys)
    requires Honest(s) && Faithful(s) && Inv(s, y) && y.handed != [] && !S.Ended(y.tx)
    ensures Step(s, y, DeliverPrf(Proof(s.hash, s.proof))).tx.status == S.Complete
  {
    FaithfulYields(s);
  }

  /** A run that repeats k loss-free rounds. */
  lemma {:induction false} RoundsExist(s: S.Sender, y: Sys, k: nat) returns (ys: seq<Sys>, acts: seq<Action>)
    requires Honest(s) && Shaped(y)
    ensures Rounds(s, ys) && |ys| == k + 1 && ys[0] == y && AllQuiet(acts) && ys[k] == Exec(s, y, acts)
  {
    if k == 0 {
      ys, acts := [y], [];
    } else {
      var ys0, acts0 := RoundsExist(s, y, k - 1);
      var last := ys0[k - 1];
      var next := Exec(s, last, Round(s, last));
      RoundsSnoc(s, ys0, next);
      ExecAppend(s, y, acts0, Round(s, last));
      ys, acts := ys0 + [next], acts0 + Round(s, last);
    }
  }

  lemma RoundsSnoc(s: S.Sender, ys: seq<Sys>, next: Sys)
    requires Honest(s) && Rounds(s, ys)
    requires next == Exec(s, ys[|ys| - 1], Round(s, ys[|ys| - 1]))
    ensures Rounds(s, ys + [next])
  {
    var all := ys + [next];
    forall i | 0 <= i < |all| ensures Shaped(all[i]) { assert i < |ys| ==> all[i] == ys[i]; }
    forall i | 0 < i < |all| ensures all[i] == Exec(s, all[i - 1], Round(s, all[i - 1])) {
      assert all[i - 1] == ys[i - 1];
      assert i < |ys| ==> all[i] == ys[i];
    }
  }

  // ---- a channel that injects ----

  /** Integrity: for any advertisement and any injected parts and segments, a body handed up hashes
      with the advertised salt to the advertised hash, has the advertised size, and the proof emitted
      is the expected proof of that very body. */
  lemma {:induction false} IntegrityAnyChannel(t: R.Session, x: R.Rx, events: seq<R.Event>)
    requires R.Shape(x)
    ensures var o := R.RunLoop(t, x, events).outcome;
      o.Complete? ==>
        && Hash(t.prim, o.body, t.random) == t.hash && |o.body| == t.dataSize
        && o.proof == Proof(t.hash, ExpectedProof(t.prim, o.body, t.hash))
    decreases |events|
  {
    if x.count < |x.parts| && events != [] && !events[0].CancelIn? && !events[0].Deadline? {
      IntegrityAnyChannel(t, R.Handle(t, x, events[0]).0, events[1..]);
    }
  }

  /** Against a sender's advertisement, on any channel: a completed receiver holds the sender's body,
      or two different strings with one SHA-256 digest are in hand; and its proof is the one the
      sender precomputed. */
  lemma ReceiverHoldsBody(s: S.Sender, x: R.Rx, events: seq<R.Event>)
    requires S.Built(s) && R.Shape(x) && R.RunLoop(SessionOf(s), x, events).outcome.Complete?
    ensures var o := R.RunLoop(SessionOf(s), x, events).outcome;
      Collision(s.prim, o.body + s.random, s.body + s.random) || (o.body == s.body && o.proof == Proof(s.hash, s.proof))
  {
    IntegrityAnyChannel(SessionOf(s), x, events);
    var o := R.RunLoop(SessionOf(s), x, events).outcome;
    SuffixCancels(o.body, s.body, s.random);
  }

  /** The sender completes on a proof made from some body only if that body is its own, up to a collision. */
  lemma SenderCompletesOnBody(s: S.Sender, tx: S.Tx, adv: Adv, claimed: Bytes)
    requires S.Built(s) && !S.Ended(tx)
    ensures var p := Proof(s.hash, ExpectedProof(s.prim, claimed, s.hash));
      var done := S.Handle(s, tx, adv, S.PrfIn(p)).0.status.Complete?;
      && (claimed == s.body ==> done)
      && (done ==> claimed == s.body || Collision(s.prim, claimed + s.hash, s.body + s.hash))
  {
    SuffixCancels(claimed, s.body, s.hash);
  }

  lemma SuffixCancels(a: Bytes, b: Bytes, r: Bytes)
    requires |r| > 0
    ensures a + r == b + r <==> a == b
  {
    if a + r == b + r {
      assert |a| == |b|;
      assert a == (a + r)[..|a|] == (b + r)[..|b|] == b;
    }
  }
}
