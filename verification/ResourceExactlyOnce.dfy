/** No request amplification: when nothing is lost or repeated and no timer fires, in whatever order
    messages arrive, each part is requested once and sent once. */
module ResourceExactlyOnce {
  import opened Octets
  import opened ResourceHash
  import opened ResourceWire
  import opened ResourceAgreement
  import R = ResourceReceiver
  import S = ResourceSender

  /** A sender the receiver accepts, whose fingerprints are pairwise distinct. */
  ghost predicate Clean(s: S.Sender) {
    Honest(s) && Fits(s) && Distinct(s.hashmap, |s.parts|)
  }

  /** On distinct fingerprints the part served for a slot is that slot's part. */
  lemma CleanServes(s: S.Sender)
    requires Clean(s)
    ensures Deliverable(s) && Served(s) == s.parts && forall i :: 0 <= i < |s.parts| ==> First(s, i) == i
  {
    DistinctIsDeliverable(s);
    ServedIff(s);
    forall i | 0 <= i < |s.parts| ensures First(s, i) == i { FindInverse(s.hashmap, |s.parts|, i); }
  }

  /** The segment after the known prefix is served to a receiver that has all of it. */
  lemma NextSegmentServed(s: S.Sender, x: R.Rx, q: Request)
    requires Clean(s) && RxInv(s, x) && q.exhausted && R.RequestNext(SessionOf(s), x).1 == Some(q)
    ensures S.ServeHmu(s, q).Ok? && S.ServeHmu(s, q).value.segment * SEGMENT == x.known
  {
    var m := x.known / SEGMENT;
    assert Honest(s) && EndsFirst(s) by { CleanServes(s); }
    ExhaustedNames(s, x, q);
    NamedServedIff(s, q, m);
  }

  /** `flight` holds the undelivered messages; `asked` every fingerprint requested so far. */
  datatype Calm = Calm(rx: R.Rx, tx: S.Tx, flight: seq<Msg>, asked: seq<Bytes>)

  function Emit(c: Calm, out: Option<Request>): Calm {
    match out
    case None => c
    case Some(q) => c.(flight := c.flight + [ReqMsg(q)], asked := c.asked + q.requested)
  }

  /** Deliver the k-th message in flight; it is consumed. */
  ghost function Deliver(s: S.Sender, c: Calm, k: nat): (c1: Calm)
    requires Clean(s) && R.Shape(c.rx)
    ensures R.Shape(c1.rx)
  {
    if k >= |c.flight| then c
    else
      var rest := c.(flight := c.flight[..k] + c.flight[k + 1..]);
      match c.flight[k]
      case ReqMsg(q) =>
        var (tx, out) := S.Handle(s, c.tx, WireAdv(s), S.ReqIn(q));
        rest.(tx := tx, flight := rest.flight + out)
      case PartMsg(p) =>
        var (rx, out) := R.Handle(SessionOf(s), c.rx, R.PartIn(p));
        Emit(rest.(rx := rx), out)
      case HmuMsg(h) =>
        var (rx, out) := R.Handle(SessionOf(s), c.rx, R.HmuIn(h));
        Emit(rest.(rx := rx), out)
      case _ => rest
  }

  ghost function DeliverAll(s: S.Sender, c: Calm, order: seq<nat>): (c1: Calm)
    requires Clean(s) && R.Shape(c.rx)
    ensures R.Shape(c1.rx)
    decreases |order|
  {
    if order == [] then c else DeliverAll(s, Deliver(s, c, order[0]), order[1..])
  }

  ghost function CalmInit(s: S.Sender): (c: Calm)
    requires Clean(s)
    ensures R.Shape(c.rx)
  {
    var (rx, out) := R.RequestNext(SessionOf(s), R.Open(WireAdv(s)));
    Emit(Calm(rx, S.Start(), [], []), out)
  }

  // ---- phases ----

  datatype Phase = Asking(q: Request) | Receiving(slots: seq<int>) | Growing(hmu: ParsedHmu) | Finished

  /** Exactly the first k slots are filled. */
  ghost predicate PrefixFilled(flags: seq<bool>, k: int) {
    forall i :: 0 <= i < |flags| ==> (flags[i] <==> i < k)
  }

  function PartsInFlight(s: S.Sender, slots: seq<int>): seq<Msg>
    requires forall i :: 0 <= i < |slots| ==> 0 <= slots[i] < |s.parts|
  {
    seq(|slots|, i requires 0 <= i < |slots| => PartMsg(s.parts[slots[i]]))
  }

  /** The slots still out: distinct, unfilled, below u, and all of them. */
  ghost predicate Outstanding(flags: seq<bool>, slots: seq<int>, u: int)
    requires 0 <= u <= |flags|
  {
    && (forall i :: 0 <= i < |slots| ==> 0 <= slots[i] < u && !flags[slots[i]])
    && (forall i, j :: 0 <= i < j < |slots| ==> slots[i] != slots[j])
    && (forall i :: 0 <= i < u && !flags[i] ==> i in slots)
    && (forall i :: u <= i < |flags| ==> !flags[i])
  }

  /** A request for the window that starts at slot lo, or for the next segment when there is none. */
  ghost predicate WindowReq(s: S.Sender, known: int, q: Request, lo: int)
    requires Clean(s)
  {
    && q.resourceHash == s.hash
    && lo <= known <= |s.parts|
    && |q.requested| == Min(WINDOW, known - lo)
    && (forall i :: 0 <= i < |q.requested| ==> 0 <= lo + i < |s.parts| && q.requested[i] == Entry(s.hashmap, lo + i))
    && (q.exhausted <==> lo == known)
    && (q.exhausted ==> S.ServeHmu(s, q).Ok? && S.ServeHmu(s, q).value.segment * SEGMENT == known)
  }

  /** What holds in every phase: u fingerprints asked for, the first u, each once. */
  ghost predicate AskedInOrder(s: S.Sender, c: Calm)
    requires Clean(s)
  {
    && RxInv(s, c.rx) && !S.Ended(c.tx)
    && |c.asked| <= c.rx.known
    && forall i :: 0 <= i < |c.asked| ==> c.asked[i] == Entry(s.hashmap, i)
  }

  ghost predicate CalmInv(s: S.Sender, c: Calm, p: Phase)
    requires Clean(s)
  {
    var u := |c.asked|;
    && AskedInOrder(s, c)
    && match p
       case Asking(q) =>
         && c.flight == [ReqMsg(q)] && WindowReq(s, c.rx.known, q, c.rx.count)
         && PrefixFilled(c.rx.flags, c.rx.count) && c.rx.count < |c.rx.parts| && c.tx.delivered == c.rx.count
         && c.rx.target == u == c.rx.count + |q.requested|
       case Receiving(slots) =>
         && slots != [] && Outstanding(c.rx.flags, slots, u) && c.flight == PartsInFlight(s, slots)
         && c.rx.count + |slots| == u == c.rx.target == c.tx.delivered && u <= c.rx.height + 1 + WINDOW
       case Growing(h) =>
         && c.flight == [HmuMsg(h)] && HonestMsg(s, HmuMsg(h)) && h.segment * SEGMENT == u
         && PrefixFilled(c.rx.flags, u) && c.rx.count == u == c.rx.known < |c.rx.parts| && c.tx.delivered == u
       case Finished =>
         c.flight == [] && u == c.rx.count == |c.rx.parts| == c.tx.delivered
  }

  lemma {:induction false} MissingAfterPrefix(flags: seq<bool>, i: int, limit: int, k: nat, lo: int)
    requires 0 <= i <= lo <= limit <= |flags|
    requires forall j :: 0 <= j < |flags| ==> (flags[j] <==> j < lo)
    ensures var m := R.Missing(flags, i, limit, k);
      |m| == Min(k, limit - lo) && forall q :: 0 <= q < |m| ==> m[q] == lo + q
    decreases limit - i
  {
    if i < lo {
      if k > 0 { MissingAfterPrefix(flags, i + 1, limit, k, lo); }
    } else if i < limit && k > 0 {
      MissingRange(flags, i, limit, k);
    }
  }

  lemma {:induction false} MissingRange(flags: seq<bool>, i: int, limit: int, k: nat)
    requires 0 <= i <= limit <= |flags| && forall j :: i <= j < |flags| ==> !flags[j]
    ensures var m := R.Missing(flags, i, limit, k);
      |m| == Min(k, limit - i) && forall q :: 0 <= q < |m| ==> m[q] == i + q
    decreases limit - i
  {
    if i < limit && k > 0 { MissingRange(flags, i + 1, limit, k - 1); }
  }

  /** The fingerprints asked for when exactly the first lo slots are filled. */
  lemma PrintsAfterPrefix(x: R.Rx, lo: int)
    requires R.Shape(x) && PrefixFilled(x.flags, lo) && 0 <= lo <= x.known && lo < |x.parts|
    ensures var w := R.Wanted(x);
      && |w| == Min(WINDOW, x.known - lo) && (R.AllKnownReceived(x) <==> lo == x.known)
      && (forall i :: 0 <= i < |w| ==> w[i] == lo + i)
  {
    MissingAfterPrefix(x.flags, 0, x.known, WINDOW, lo);
    if lo < x.known { assert !x.flags[lo]; }
  }

  /** With a filled prefix of length lo, the next window is the slots lo, lo+1, ... in order. */
  lemma WindowAfterPrefix(s: S.Sender, x: R.Rx, lo: int)
    requires Clean(s) && RxInv(s, x) && PrefixFilled(x.flags, lo) && 0 <= lo <= x.known && lo < |x.parts|
    ensures R.RequestNext(SessionOf(s), x).1.Some?
    ensures WindowReq(s, x.known, R.RequestNext(SessionOf(s), x).1.value, lo)
  {
    PrintsAfterPrefix(x, lo);
    var q := R.RequestNext(SessionOf(s), x).1.value;
    var w := R.Wanted(x);
    assert q.requested == R.PrintsAt(x.hashmap, w);
    forall i | 0 <= i < |q.requested| ensures 0 <= lo + i < |s.parts| && q.requested[i] == Entry(s.hashmap, lo + i) {
      RequestedPrint(s, x, w, i);
    }
    if q.exhausted { NextSegmentServed(s, x, q); }
  }

  lemma RequestedPrint(s: S.Sender, x: R.Rx, w: seq<int>, i: nat)
    requires Clean(s) && RxInv(s, x) && R.SlotsIn(x.hashmap, w) && i < |w| && 0 <= w[i] < x.known
    ensures w[i] < |s.parts| && R.PrintsAt(x.hashmap, w)[i] == Entry(s.hashmap, w[i])
  {
    assert R.PrintsAt(x.hashmap, w)[i] == Entry(x.hashmap, w[i]);
  }

  /** Opening a window from a drained state leads to Asking. */
  lemma OpenWindow(s: S.Sender, c: Calm) returns (p: Phase)
    requires Clean(s) && AskedInOrder(s, c) && c.flight == []
    requires PrefixFilled(c.rx.flags, |c.asked|) && |c.asked| == c.rx.count < |c.rx.parts|
    requires c.tx.delivered == c.rx.count
    ensures var (x1, out) := R.RequestNext(SessionOf(s), c.rx);
      CalmInv(s, Emit(c.(rx := x1), out), p) && p.Asking?
  {
    var (x1, out) := R.RequestNext(SessionOf(s), c.rx);
    assert RxInv(s, x1) by { TargetKeepsRxInv(s, c.rx); }
    assert out.Some? && WindowReq(s, c.rx.known, out.value, c.rx.count) by { WindowAfterPrefix(s, c.rx, c.rx.count); }
    var q := out.value;
    p := Asking(q);
    assert x1 == c.rx.(target := c.rx.count + |q.requested|);
    assert c.flight + [ReqMsg(q)] == [ReqMsg(q)];
    AskedGrows(s, c.asked, q, c.rx.known);
  }

  lemma AskedGrows(s: S.Sender, asked: seq<Bytes>, q: Request, known: int)
    requires Clean(s) && WindowReq(s, known, q, |asked|)
    requires forall i :: 0 <= i < |asked| ==> asked[i] == Entry(s.hashmap, i)
    ensures var all := asked + q.requested;
      |all| <= known && forall i :: 0 <= i < |all| ==> all[i] == Entry(s.hashmap, i)
  {
    var all := asked + q.requested;
    forall i | 0 <= i < |all| ensures all[i] == Entry(s.hashmap, i) {
      if i >= |asked| { assert all[i] == q.requested[i - |asked|]; }
    }
  }

  /** A request delivered: the sender's answer replaces it in flight. */
  lemma RequestAnswered(s: S.Sender, c: Calm, q: Request)
    requires Clean(s) && !S.Ended(c.tx) && R.Shape(c.rx) && c.flight == [ReqMsg(q)] && q.resourceHash == s.hash
    requires q.exhausted ==> S.ServeHmu(s, q).Ok?
    ensures var c1 := Deliver(s, c, 0);
      && c1 == c.(tx := c1.tx, flight := S.ReplyTo(s, q))
      && c1.tx.delivered == c.tx.delivered + |S.Answers(s, q.requested)| && !S.Ended(c1.tx)
  {
    S.LiveReply(s, c.tx, WireAdv(s), q);
    assert c.flight[..0] + c.flight[1..] == [];
    assert [] + S.ReplyTo(s, q) == S.ReplyTo(s, q);
  }

  /** The answer to a window request is that window's parts. */
  lemma ReplyIsWindow(s: S.Sender, known: int, q: Request, lo: int, slots: seq<int>)
    requires Clean(s) && WindowReq(s, known, q, lo) && !q.exhausted && 0 <= lo
    requires |slots| == |q.requested| && forall i :: 0 <= i < |slots| ==> slots[i] == lo + i
    ensures S.ReplyTo(s, q) == PartsInFlight(s, slots) && |S.Answers(s, q.requested)| == |slots|
  {
    S.AnswersExact(s, slots, q.requested);
    var answers := S.Answers(s, q.requested);
    assert S.PartMsgs(answers) == PartsInFlight(s, slots);
    assert S.ReplyTo(s, q) == S.PartMsgs(answers) + [];
  }

  lemma AskingPartsStep(s: S.Sender, c: Calm, q: Request) returns (p: Phase)
    requires Clean(s) && CalmInv(s, c, Asking(q)) && !q.exhausted
    ensures CalmInv(s, Deliver(s, c, 0), p)
  {
    var lo, u := c.rx.count, |c.asked|;
    RequestAnswered(s, c, q);
    var slots := seq(|q.requested|, i => lo + i);
    ReplyIsWindow(s, c.rx.known, q, lo, slots);
    SlotsOutstanding(c.rx.flags, slots, lo, u);
    PrefixHeight(c.rx, lo);
    p := Receiving(slots);
  }

  lemma AskingSegmentStep(s: S.Sender, c: Calm, q: Request) returns (p: Phase)
    requires Clean(s) && CalmInv(s, c, Asking(q)) && q.exhausted
    ensures CalmInv(s, Deliver(s, c, 0), p)
  {
    RequestAnswered(s, c, q);
    ServedIsHonest(s, q);
    assert q.requested == [] && S.Answers(s, []) == [];
    assert S.ReplyTo(s, q) == [HmuMsg(S.ServeHmu(s, q).value)];
    p := Growing(S.ServeHmu(s, q).value);
  }

  lemma PrefixHeight(x: R.Rx, lo: int)
    requires R.Valid(x) && PrefixFilled(x.flags, lo) && 0 <= lo < |x.flags|
    ensures x.height == lo - 1
  {
    assert !x.flags[lo];
    assert x.height + 1 < |x.flags| ==> !x.flags[x.height + 1];
  }

  lemma SlotsOutstanding(flags: seq<bool>, slots: seq<int>, lo: int, u: int)
    requires PrefixFilled(flags, lo) && 0 <= lo <= u <= |flags|
    requires |slots| == u - lo && forall i :: 0 <= i < |slots| ==> slots[i] == lo + i
    ensures Outstanding(flags, slots, u)
  {
    forall i | 0 <= i < u && !flags[i] ensures i in slots { assert slots[i - lo] == i; }
  }

  /** An outstanding part always lands in its slot. */
  lemma OutstandingPlaced(s: S.Sender, x: R.Rx, j: int)
    requires Clean(s) && RxInv(s, x) && 0 <= j < x.known && !x.flags[j] && j < x.height + 1 + WINDOW
    ensures R.PlacePart(SessionOf(s), x, s.parts[j]) == (R.Filled(x, j, s.parts[j]), R.Placed(j))
  {
    assert Entry(s.hashmap, j) == MapHash(s.prim, s.parts[j], s.random) by {
      HashmapEntry(s.prim, s.parts, s.random, j);
    }
    CleanServes(s);
    ScanFinds(x, Entry(s.hashmap, j), R.Base(x), R.End(x), j, false);
  }

  function Without(slots: seq<int>, k: nat): seq<int>
    requires k < |slots|
  {
    slots[..k] + slots[k + 1..]
  }

  lemma FillOutstanding(flags: seq<bool>, slots: seq<int>, u: int, k: nat)
    requires 0 <= u <= |flags| && Outstanding(flags, slots, u) && k < |slots|
    ensures Outstanding(flags[slots[k] := true], Without(slots, k), u)
  {
    var after := flags[slots[k] := true];
    var rest := Without(slots, k);
    forall i | 0 <= i < |rest| ensures 0 <= rest[i] < u && !after[rest[i]] {
      assert rest[i] == slots[if i < k then i else i + 1];
    }
    forall i | 0 <= i < u && !after[i] ensures i in rest {
      var j :| 0 <= j < |slots| && slots[j] == i;
      assert rest[if j < k then j else j - 1] == i;
    }
  }

  lemma FlightWithout(s: S.Sender, slots: seq<int>, k: nat)
    requires k < |slots| && forall i :: 0 <= i < |slots| ==> 0 <= slots[i] < |s.parts|
    ensures forall i :: 0 <= i < |Without(slots, k)| ==> 0 <= Without(slots, k)[i] < |s.parts|
    ensures var f := PartsInFlight(s, slots); f[..k] + f[k + 1..] == PartsInFlight(s, Without(slots, k))
  {}

  /** Taking in an outstanding part fills its slot and asks for more only when the window has drained. */
  lemma PartHandled(s: S.Sender, x: R.Rx, j: int)
    requires Clean(s) && RxInv(s, x) && 0 <= j < x.known && !x.flags[j] && j < x.height + 1 + WINDOW
    ensures var x1 := R.Filled(x, j, s.parts[j]);
      && RxInv(s, x1)
      && R.Handle(SessionOf(s), x, R.PartIn(s.parts[j])) ==
         if x1.count >= x1.target && x1.count < |x1.parts| then R.RequestNext(SessionOf(s), x1) else (x1, None)
  {
    OutstandingPlaced(s, x, j);
    CleanServes(s);
    assert s.parts[j] in Served(s);
    PlaceKeepsRxInv(s, x, s.parts[j]);
  }

  /** The state once an outstanding part has been taken in, before any new request. */
  function Taken(s: S.Sender, c: Calm, j: int, k: nat): Calm
    requires R.Shape(c.rx) && 0 <= j < |c.rx.parts| && j < |s.parts| && k < |c.flight|
  {
    c.(rx := R.Filled(c.rx, j, s.parts[j]), flight := c.flight[..k] + c.flight[k + 1..])
  }

  /** A part delivered fills its slot and leaves the flight; a drained window opens the next. */
  lemma PartDelivered(s: S.Sender, c: Calm, j: int, k: nat)
    requires Clean(s) && RxInv(s, c.rx) && 0 <= j < c.rx.known && !c.rx.flags[j] && j < c.rx.height + 1 + WINDOW
    requires k < |c.flight| && c.flight[k] == PartMsg(s.parts[j])
    ensures var c1 := Taken(s, c, j, k);
      Deliver(s, c, k) ==
        if c1.rx.count >= c1.rx.target && c1.rx.count < |c1.rx.parts| then
          var (x, out) := R.RequestNext(SessionOf(s), c1.rx); Emit(c1.(rx := x), out)
        else c1
  {
    PartHandled(s, c.rx, j);
  }

  lemma TakenState(s: S.Sender, c: Calm, slots: seq<int>, k: nat)
    requires Clean(s) && CalmInv(s, c, Receiving(slots)) && k < |slots|
    ensures var c1 := Taken(s, c, slots[k], k);
      && AskedInOrder(s, c1) && c1.flight == PartsInFlight(s, Without(slots, k)) && c1.asked == c.asked && c1.tx == c.tx
      && Outstanding(c1.rx.flags, Without(slots, k), |c.asked|)
      && c1.rx.count == c.rx.count + 1 && c1.rx.target == c.rx.target && c1.rx.height >= c.rx.height
  {
    PartHandled(s, c.rx, slots[k]);
    FillOutstanding(c.rx.flags, slots, |c.asked|, k);
    FlightWithout(s, slots, k);
  }

  lemma ReceivingStep(s: S.Sender, c: Calm, slots: seq<int>, k: nat) returns (p: Phase)
    requires Clean(s) && CalmInv(s, c, Receiving(slots)) && k < |slots|
    ensures CalmInv(s, Deliver(s, c, k), p)
  {
    var c1 := Taken(s, c, slots[k], k);
    TakenState(s, c, slots, k);
    PartDelivered(s, c, slots[k], k);
    var rest := Without(slots, k);
    if rest != [] {
      p := Receiving(rest);
    } else {
      assert PrefixFilled(c1.rx.flags, |c.asked|);
      if |c.asked| == |c1.rx.parts| {
        p := Finished;
      } else {
        p := OpenWindow(s, c1);
      }
    }
  }

  /** The state once the next segment has been taken in, before the new request. */
  function Extended(s: S.Sender, c: Calm, h: ParsedHmu): Calm
    requires R.Shape(c.rx) && R.ApplyHmu(SessionOf(s), c.rx, h).Ok?
  {
    c.(rx := R.ApplyHmu(SessionOf(s), c.rx, h).value, flight := [])
  }

  lemma SegmentDelivered(s: S.Sender, c: Calm, h: ParsedHmu)
    requires Clean(s) && R.Shape(c.rx) && c.flight == [HmuMsg(h)] && R.ApplyHmu(SessionOf(s), c.rx, h).Ok?
    ensures var c1 := Extended(s, c, h); var (x, out) := R.RequestNext(SessionOf(s), c1.rx);
      Deliver(s, c, 0) == Emit(c1.(rx := x), out)
  {
    assert c.flight[..0] + c.flight[1..] == [] && c.flight[0] == HmuMsg(h);
    var x1 := R.ApplyHmu(SessionOf(s), c.rx, h).value;
    assert R.Handle(SessionOf(s), c.rx, R.HmuIn(h)) == R.RequestNext(SessionOf(s), x1);
  }

  lemma GrowingStep(s: S.Sender, c: Calm, h: ParsedHmu) returns (p: Phase)
    requires Clean(s) && CalmInv(s, c, Growing(h))
    ensures CalmInv(s, Deliver(s, c, 0), p)
  {
    HmuExact(s, c.rx, h);
    SegmentDelivered(s, c, h);
    p := OpenWindow(s, Extended(s, c, h));
  }

  lemma DeliverKeeps(s: S.Sender, c: Calm, p: Phase, k: nat) returns (p1: Phase)
    requires Clean(s) && CalmInv(s, c, p)
    ensures CalmInv(s, Deliver(s, c, k), p1)
  {
    p1 := p;
    if k < |c.flight| {
      match p
      case Asking(q) =>
        if q.exhausted { p1 := AskingSegmentStep(s, c, q); } else { p1 := AskingPartsStep(s, c, q); }
      case Receiving(slots) => p1 := ReceivingStep(s, c, slots, k);
      case Growing(h) => p1 := GrowingStep(s, c, h);
      case Finished =>
    }
  }

  lemma CalmInitInv(s: S.Sender) returns (p: Phase)
    requires Clean(s)
    ensures CalmInv(s, CalmInit(s), p)
  {
    OpenInv(s);
    p := OpenWindow(s, Calm(R.Open(WireAdv(s)), S.Start(), [], []));
  }

  lemma {:induction false} DeliverAllKeeps(s: S.Sender, c: Calm, p: Phase, order: seq<nat>) returns (p1: Phase)
    requires Clean(s) && CalmInv(s, c, p)
    ensures CalmInv(s, DeliverAll(s, c, order), p1)
    decreases |order|
  {
    p1 := p;
    if order != [] {
      var p2 := DeliverKeeps(s, c, p, order[0]);
      p1 := DeliverAllKeeps(s, Deliver(s, c, order[0]), p2, order[1..]);
    }
  }

  /** No amplification: in any delivery order the fingerprints requested so far are the sender's
      first ones, each exactly once, and no more parts have been sent than that; and when nothing is
      left in flight the transfer is whole, with exactly n requests answered by exactly n parts. */
  lemma RequestedOnceSentOnce(s: S.Sender, order: seq<nat>)
    requires Clean(s)
    ensures var c := DeliverAll(s, CalmInit(s), order);
      && |c.asked| <= |s.parts|
      && (forall i :: 0 <= i < |c.asked| ==> c.asked[i] == Entry(s.hashmap, i))
      && c.tx.delivered <= |c.asked|
      && (c.flight == [] <==> c.rx.count == |s.parts|)
      && (c.flight == [] ==> |c.asked| == c.tx.delivered == |s.parts|)
  {
    var p0 := CalmInitInv(s);
    var p := DeliverAllKeeps(s, CalmInit(s), p0, order);
  }
}
