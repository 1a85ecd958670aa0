/** Any number of workers drawing on one outbound queue, interleaved at its critical sections. */
module OutboundWorkers {
  import opened Octets
  import opened OutboundQueue

  /** What a worker holds between critical sections: a picked message, or a send in progress. */
  datatype Held = Picked(serial: nat, id: string) | Sending(serial: nat, id: string, attempts: nat)

  /** `delivered` and `failed` record how messages left the queue; `sends` counts Send calls. */
  datatype World = World(
    q: Queue, workers: map<nat, Held>, delivered: set<nat>, failed: set<nat>, next: nat, sends: map<nat, nat>)

  datatype Action =
    | EnqueueA(id: string, recipient: Bytes)
    | PickA(worker: nat, now: int, seen: Recency)
    | BeginA(worker: nat)
    | FinishA(worker: nat, result: Sent, now: int)

  const EMPTY := World(Queue([], {}), map[], {}, {}, 0, map[])

  /** One critical section of one worker, or an enqueue. A worker out of turn does nothing. */
  function Step(cfg: Config, x: World, a: Action): World {
    match a
    case EnqueueA(id, recipient) =>
      x.(q := Enqueue(x.q, Message(x.next, id, recipient, 0, None)), next := x.next + 1, sends := x.sends[x.next := 0])
    case PickA(w, now, seen) =>
      if w in x.workers then x
      else
        (match Pick(x.q, now, seen)
         case (q, None) => x
         case (q, Some(m)) => x.(q := q, workers := x.workers[w := Picked(m.serial, m.id)]))
    case BeginA(w) =>
      if w !in x.workers || !x.workers[w].Picked? then x
      else
        var h := x.workers[w];
        var k := Find(x.q.pending, h.serial);
        var attempts := if k < 0 then 1 else x.q.pending[k].attempts + 1;
        x.(q := Begin(x.q, h.serial), workers := x.workers[w := Sending(h.serial, h.id, attempts)],
           sends := x.sends[h.serial := (if h.serial in x.sends then x.sends[h.serial] else 0) + 1])
    case FinishA(w, r, now) =>
      if w !in x.workers || !x.workers[w].Sending? then x
      else
        var h := x.workers[w];
        var m := Message(h.serial, h.id, [], h.attempts, None);
        x.(q := Finish(x.q, cfg, m, h.attempts, r, now), workers := x.workers - {w},
           delivered := if r.Delivered? then x.delivered + {h.serial} else x.delivered,
           failed := if r.NotSent? && h.attempts >= cfg.maxAttempts then x.failed + {h.serial} else x.failed)
  }

  function Run(cfg: Config, x: World, acts: seq<Action>): World
    decreases |acts|
  {
    if acts == [] then x else Run(cfg, Step(cfg, x, acts[0]), acts[1..])
  }

  // ---- the invariant ----

  ghost predicate Holds(pending: seq<Message>, serial: nat) {
    exists i :: 0 <= i < |pending| && pending[i].serial == serial
  }

  function HeldIds(workers: map<nat, Held>): set<string> { set w | w in workers :: workers[w].id }

  function BeingSent(workers: map<nat, Held>): set<nat> {
    set w | w in workers && workers[w].Sending? :: workers[w].serial
  }

  /** Workers hold queued messages, pairwise different even in id, and the marks are exactly theirs. */
  ghost predicate Exclusive(q: Queue, workers: map<nat, Held>) {
    && (forall w :: w in workers ==> Holds(q.pending, workers[w].serial))
    && (forall w, i :: w in workers && 0 <= i < |q.pending| && q.pending[i].serial == workers[w].serial ==>
      q.pending[i].id == workers[w].id)
    && (forall v, w :: v in workers && w in workers && v != w ==> workers[v].id != workers[w].id)
    && q.inFlight == HeldIds(workers)
  }

  /** Every enqueued message is in exactly one place. */
  ghost predicate Accounted(pending: seq<Message>, delivered: set<nat>, failed: set<nat>, next: nat) {
    && delivered !! failed
    && (forall k :: k in delivered || k in failed ==> k < next)
    && (forall i :: 0 <= i < |pending| ==> pending[i].serial < next)
    && (forall k: nat :: k < next ==> (Holds(pending, k) <==> k !in delivered && k !in failed))
  }

  /** Attempts count sends; a queued message that has had all of them is being sent right now. */
  ghost predicate Counted(max: nat, pending: seq<Message>, workers: map<nat, Held>, sends: map<nat, nat>) {
    && (forall k :: k in sends ==> sends[k] <= max)
    && (forall i :: 0 <= i < |pending| ==>
      pending[i].serial in sends && pending[i].attempts == sends[pending[i].serial])
    && (forall i :: 0 <= i < |pending| && pending[i].attempts >= max ==> pending[i].serial in BeingSent(workers))
    && (forall w, i ::
      w in workers && workers[w].Sending? && 0 <= i < |pending| && pending[i].serial == workers[w].serial ==>
          workers[w].attempts == pending[i].attempts)
  }

  ghost predicate Inv(cfg: Config, x: World) {
    && Ordered(x.q.pending) && Exclusive(x.q, x.workers)
    && Accounted(x.q.pending, x.delivered, x.failed, x.next)
    && Counted(cfg.maxAttempts, x.q.pending, x.workers, x.sends)
    && (forall k: nat :: k in x.sends <==> k < x.next)
  }

  lemma HeldIdsAdd(workers: map<nat, Held>, w: nat, h: Held)
    requires w in workers ==> workers[w].id == h.id
    ensures HeldIds(workers[w := h]) == HeldIds(workers) + {h.id}
  {
    var after := workers[w := h];
    forall id | id in HeldIds(workers) + {h.id} ensures id in HeldIds(after) {
      if id in HeldIds(workers) {
        var v :| v in workers && workers[v].id == id;
        assert v in after && after[v].id == id;
      } else {
        assert w in after && after[w].id == id;
      }
    }
  }

  lemma HeldIdsRemove(workers: map<nat, Held>, w: nat)
    requires w in workers
    requires forall v :: v in workers && v != w ==> workers[v].id != workers[w].id
    ensures HeldIds(workers - {w}) == HeldIds(workers) - {workers[w].id}
  {
    var after := workers - {w};
    forall id | id in HeldIds(workers) - {workers[w].id} ensures id in HeldIds(after) {
      var v :| v in workers && workers[v].id == id;
      assert v in after && after[v].id == id;
    }
  }

  // ---- enqueue ----

  lemma EnqueueHolds(p: seq<Message>, m: Message, k: nat)
    ensures Holds(p + [m], k) <==> Holds(p, k) || k == m.serial
  {
    var p1 := p + [m];
    assert p1[|p|] == m;
    if Holds(p, k) {
      var i :| 0 <= i < |p| && p[i].serial == k;
      assert p1[i].serial == k;
    }
  }

  lemma EnqueueAccounted(p: seq<Message>, delivered: set<nat>, failed: set<nat>, m: Message)
    requires Accounted(p, delivered, failed, m.serial)
    ensures Accounted(p + [m], delivered, failed, m.serial + 1)
  {
    forall k: nat ensures Holds(p + [m], k) <==> Holds(p, k) || k == m.serial { EnqueueHolds(p, m, k); }
  }

  lemma EnqueueExclusive(q: Queue, workers: map<nat, Held>, m: Message)
    requires Exclusive(q, workers) && forall i :: 0 <= i < |q.pending| ==> q.pending[i].serial < m.serial
    ensures Exclusive(q.(pending := q.pending + [m]), workers)
  {
    forall w | w in workers ensures Holds(q.pending + [m], workers[w].serial) {
      EnqueueHolds(q.pending, m, workers[w].serial);
    }
    forall w | w in workers ensures workers[w].serial < m.serial { assert Holds(q.pending, workers[w].serial); }
  }

  lemma EnqueueCounted(max: nat, q: Queue, workers: map<nat, Held>, sends: map<nat, nat>, m: Message)
    requires max >= 1 && Counted(max, q.pending, workers, sends) && m.attempts == 0 && m.serial !in sends
    requires Exclusive(q, workers) && forall i :: 0 <= i < |q.pending| ==> q.pending[i].serial < m.serial
    ensures Counted(max, q.pending + [m], workers, sends[m.serial := 0])
  {
    forall w | w in workers ensures workers[w].serial < m.serial { assert Holds(q.pending, workers[w].serial); }
  }

  lemma EnqueueKeeps(cfg: Config, x: World, id: string, recipient: Bytes)
    requires cfg.maxAttempts >= 1 && Inv(cfg, x)
    ensures Inv(cfg, Step(cfg, x, EnqueueA(id, recipient)))
  {
    var m := Message(x.next, id, recipient, 0, None);
    EnqueueAccounted(x.q.pending, x.delivered, x.failed, m);
    EnqueueExclusive(x.q, x.workers, m);
    EnqueueCounted(cfg.maxAttempts, x.q, x.workers, x.sends, m);
  }

  // ---- pick ----

  lemma PickExclusive(q: Queue, workers: map<nat, Held>, w: nat, k: nat)
    requires Ordered(q.pending) && Exclusive(q, workers) && w !in workers && k < |q.pending|
    requires q.pending[k].id !in q.inFlight
    ensures var m := q.pending[k];
      Exclusive(q.(inFlight := q.inFlight + {m.id}), workers[w := Picked(m.serial, m.id)])
  {
    var m := q.pending[k];
    HeldIdsAdd(workers, w, Picked(m.serial, m.id));
    forall v | v in workers ensures workers[v].id != m.id { assert workers[v].id in HeldIds(workers); }
  }

  lemma BeingSentKept(workers: map<nat, Held>, w: nat, h: Held)
    requires w in workers ==> workers[w].Picked? || (h.Sending? && h.serial == workers[w].serial)
    ensures BeingSent(workers) <= BeingSent(workers[w := h])
    ensures h.Sending? ==> h.serial in BeingSent(workers[w := h])
  {
    var after := workers[w := h];
    forall k | k in BeingSent(workers) ensures k in BeingSent(after) {
      var v :| v in workers && workers[v].Sending? && workers[v].serial == k;
      assert v in after && after[v].Sending? && after[v].serial == k;
    }
    if h.Sending? { assert w in after && after[w].serial == h.serial; }
  }

  lemma PickKeeps(cfg: Config, x: World, w: nat, now: int, seen: Recency)
    requires Inv(cfg, x)
    ensures Inv(cfg, Step(cfg, x, PickA(w, now, seen)))
  {
    if w !in x.workers && Pick(x.q, now, seen).1.Some? {
      ChoiceIsArgmax(x.q, now, seen);
      var k := Choose(x.q, now, seen, 0, -1);
      PickExclusive(x.q, x.workers, w, k);
      BeingSentKept(x.workers, w, Picked(x.q.pending[k].serial, x.q.pending[k].id));
    }
  }

  // ---- begin ----

  /** Two workers never hold one message. */
  lemma SerialsDiffer(q: Queue, workers: map<nat, Held>, v: nat, w: nat)
    requires Exclusive(q, workers) && v in workers && w in workers && v != w
    ensures workers[v].serial != workers[w].serial
  {
    var i :| 0 <= i < |q.pending| && q.pending[i].serial == workers[v].serial;
  }

  /** Replacing a queued message by one with the same serial and id changes nobody's hold. */
  lemma ReplaceExclusive(q: Queue, workers: map<nat, Held>, k: nat, m: Message)
    requires Exclusive(q, workers) && k < |q.pending| && m.serial == q.pending[k].serial && m.id == q.pending[k].id
    ensures Exclusive(q.(pending := q.pending[k := m]), workers)
  {
    forall serial: nat | Holds(q.pending, serial) ensures Holds(q.pending[k := m], serial) {
      HoldsReplace(q.pending, k, m, serial);
    }
  }

  lemma HoldsReplace(pending: seq<Message>, k: nat, m: Message, serial: nat)
    requires k < |pending| && m.serial == pending[k].serial
    ensures Holds(pending[k := m], serial) <==> Holds(pending, serial)
  {
    var after := pending[k := m];
    assert forall i :: 0 <= i < |pending| ==> after[i].serial == pending[i].serial;
    if Holds(pending, serial) {
      var i :| 0 <= i < |pending| && pending[i].serial == serial;
      assert after[i].serial == serial;
    }
  }

  lemma ReplaceAccounted(pending: seq<Message>, delivered: set<nat>, failed: set<nat>, next: nat, k: nat, m: Message)
    requires Accounted(pending, delivered, failed, next) && k < |pending| && m.serial == pending[k].serial
    ensures Accounted(pending[k := m], delivered, failed, next)
  {
    forall serial: nat ensures Holds(pending[k := m], serial) <==> Holds(pending, serial) {
      HoldsReplace(pending, k, m, serial);
    }
  }

  lemma UpgradeExclusive(q: Queue, workers: map<nat, Held>, w: nat, h: Held)
    requires Exclusive(q, workers) && w in workers && h.serial == workers[w].serial && h.id == workers[w].id
    ensures Exclusive(q, workers[w := h])
  {
    HeldIdsAdd(workers, w, h);
    assert h.id in HeldIds(workers);
  }

  /** The state after worker w begins the k-th queued message. */
  function Begun(x: World, w: nat, k: nat): World
    requires k < |x.q.pending| && x.q.pending[k].serial in x.sends
  {
    var m := x.q.pending[k];
    x.(q := x.q.(pending := x.q.pending[k := m.(attempts := m.attempts + 1)]),
       workers := x.workers[w := Sending(m.serial, m.id, m.attempts + 1)],
       sends := x.sends[m.serial := x.sends[m.serial] + 1])
  }

  /** Where a worker's message is queued. */
  lemma HeldAt(q: Queue, workers: map<nat, Held>, w: nat) returns (k: nat)
    requires Ordered(q.pending) && Exclusive(q, workers) && w in workers
    ensures k < |q.pending| && q.pending[k].serial == workers[w].serial && q.pending[k].id == workers[w].id
    ensures Find(q.pending, workers[w].serial) == k
  {
    k :| 0 <= k < |q.pending| && q.pending[k].serial == workers[w].serial;
    FindOrdered(q.pending, k);
  }

  lemma BeginIs(cfg: Config, x: World, w: nat, k: nat)
    requires w in x.workers && x.workers[w].Picked? && k < |x.q.pending| && Find(x.q.pending, x.workers[w].serial) == k
    requires x.q.pending[k].id == x.workers[w].id && x.workers[w].serial in x.sends
    ensures Step(cfg, x, BeginA(w)) == Begun(x, w, k)
  {
  }

  lemma BeginShape(cfg: Config, x: World, w: nat) returns (k: nat)
    requires Inv(cfg, x) && w in x.workers && x.workers[w].Picked?
    ensures k < |x.q.pending| && x.q.pending[k].serial == x.workers[w].serial && x.q.pending[k].id == x.workers[w].id
    ensures x.q.pending[k].serial in x.sends && Step(cfg, x, BeginA(w)) == Begun(x, w, k)
  {
    k := HeldAt(x.q, x.workers, w);
    BeginIs(cfg, x, w, k);
  }

  lemma ReplaceOrdered(pending: seq<Message>, k: nat, m: Message)
    requires Ordered(pending) && k < |pending| && m.serial == pending[k].serial
    ensures Ordered(pending[k := m])
  {}

  lemma BeginExclusive(q: Queue, workers: map<nat, Held>, w: nat, k: nat, m1: Message, h1: Held)
    requires Exclusive(q, workers) && w in workers && h1.serial == workers[w].serial && h1.id == workers[w].id
    requires k < |q.pending| && m1.serial == q.pending[k].serial && m1.id == q.pending[k].id
    ensures Exclusive(q.(pending := q.pending[k := m1]), workers[w := h1])
  {
    ReplaceExclusive(q, workers, k, m1);
    UpgradeExclusive(q.(pending := q.pending[k := m1]), workers, w, h1);
  }

  ghost predicate CanBegin(x: World, w: nat, k: nat) {
    && w in x.workers && x.workers[w].Picked?
    && k < |x.q.pending| && x.q.pending[k].serial == x.workers[w].serial && x.q.pending[k].id == x.workers[w].id
    && x.q.pending[k].serial in x.sends
  }

  lemma BegunCounted(cfg: Config, x: World, w: nat, k: nat)
    requires Ordered(x.q.pending) && Exclusive(x.q, x.workers)
    requires Counted(cfg.maxAttempts, x.q.pending, x.workers, x.sends) && CanBegin(x, w, k)
    ensures x.q.pending[k].attempts < cfg.maxAttempts
    ensures var x1 := Begun(x, w, k); Counted(cfg.maxAttempts, x1.q.pending, x1.workers, x1.sends)
  {
    var m, x1 := x.q.pending[k], Begun(x, w, k);
    forall v | v in x.workers && v != w ensures x.workers[v].serial != m.serial { SerialsDiffer(x.q, x.workers, v, w); }
    assert m.serial !in BeingSent(x.workers);
    BeingSentKept(x.workers, w, x1.workers[w]);
    assert forall i :: 0 <= i < |x1.q.pending| && i != k ==>
      x1.q.pending[i] == x.q.pending[i] && x1.q.pending[i].serial != m.serial;
  }

  lemma BegunExclusive(x: World, w: nat, k: nat)
    requires Exclusive(x.q, x.workers) && CanBegin(x, w, k)
    ensures Exclusive(Begun(x, w, k).q, Begun(x, w, k).workers)
  {
    var m := x.q.pending[k];
    BeginExclusive(x.q, x.workers, w, k, m.(attempts := m.attempts + 1), Sending(m.serial, m.id, m.attempts + 1));
  }

  lemma BegunAccounted(x: World, w: nat, k: nat)
    requires Accounted(x.q.pending, x.delivered, x.failed, x.next) && CanBegin(x, w, k) && Ordered(x.q.pending)
    ensures var x1 := Begun(x, w, k); Accounted(x1.q.pending, x1.delivered, x1.failed, x1.next) && Ordered(x1.q.pending)
  {
    var m := x.q.pending[k];
    ReplaceOrdered(x.q.pending, k, m.(attempts := m.attempts + 1));
    ReplaceAccounted(x.q.pending, x.delivered, x.failed, x.next, k, m.(attempts := m.attempts + 1));
  }

  lemma BegunInv(cfg: Config, x: World, w: nat, k: nat)
    requires Inv(cfg, x) && CanBegin(x, w, k)
    ensures Inv(cfg, Begun(x, w, k))
  {
    BegunCounted(cfg, x, w, k);
    BegunExclusive(x, w, k);
    BegunAccounted(x, w, k);
  }

  lemma BeginKeeps(cfg: Config, x: World, w: nat)
    requires Inv(cfg, x) && w in x.workers && x.workers[w].Picked?
    ensures Inv(cfg, Step(cfg, x, BeginA(w)))
  {
    var k := BeginShape(cfg, x, w);
    BegunInv(cfg, x, w, k);
  }

  // ---- finish ----

  lemma ReleaseExclusive(q: Queue, workers: map<nat, Held>, w: nat)
    requires Exclusive(q, workers) && w in workers
    ensures Exclusive(q.(inFlight := q.inFlight - {workers[w].id}), workers - {w})
  {
    HeldIdsRemove(workers, w);
  }

  lemma RemoveExclusive(q: Queue, workers: map<nat, Held>, serial: nat)
    requires Ordered(q.pending) && Exclusive(q, workers) && forall w :: w in workers ==> workers[w].serial != serial
    ensures Exclusive(q.(pending := Without(q.pending, serial)), workers)
  {
    var rest := Without(q.pending, serial);
    WithoutExact(q.pending, serial);
    forall w | w in workers ensures Holds(rest, workers[w].serial) {
      var i :| 0 <= i < |q.pending| && q.pending[i].serial == workers[w].serial;
      assert q.pending[i] in rest;
    }
    forall i | 0 <= i < |rest| ensures rest[i] in q.pending { assert rest[i] in rest; }
  }

  lemma RemoveHolds(pending: seq<Message>, serial: nat, k: nat)
    requires Ordered(pending)
    ensures Holds(Without(pending, serial), k) <==> Holds(pending, k) && k != serial
  {
    var rest := Without(pending, serial);
    WithoutExact(pending, serial);
    if Holds(rest, k) {
      var i :| 0 <= i < |rest| && rest[i].serial == k;
      assert rest[i] in rest;
    }
    if Holds(pending, k) && k != serial {
      var i :| 0 <= i < |pending| && pending[i].serial == k;
      assert pending[i] in rest;
    }
  }

  /** A finished message leaves the queue for exactly one of the two outcomes. */
  lemma RemoveAccounted(pending: seq<Message>, delivered: set<nat>, failed: set<nat>, next: nat, serial: nat, ok: bool)
    requires Ordered(pending) && Accounted(pending, delivered, failed, next) && Holds(pending, serial)
    ensures Accounted(Without(pending, serial), if ok then delivered + {serial} else delivered,
      if ok then failed else failed + {serial}, next)
  {
    var rest := Without(pending, serial);
    WithoutExact(pending, serial);
    var i :| 0 <= i < |pending| && pending[i].serial == serial;
    assert serial < next;
    forall k: nat | k < next ensures Holds(rest, k) <==> Holds(pending, k) && k != serial {
      RemoveHolds(pending, serial, k);
    }
    forall j | 0 <= j < |rest| ensures rest[j].serial < next { assert rest[j] in rest; }
  }

  /** Letting go of a worker's message: the counts of every other message are untouched. */
  lemma ReleaseCounted(max: nat, q: Queue, workers: map<nat, Held>, sends: map<nat, nat>, w: nat, p1: seq<Message>)
    requires Exclusive(q, workers) && Counted(max, q.pending, workers, sends) && w in workers
    requires FromQueue(p1, q.pending)
    requires forall i :: 0 <= i < |p1| && p1[i].serial == workers[w].serial ==> p1[i].attempts < max
    ensures Counted(max, p1, workers - {w}, sends)
  {
    var rest := workers - {w};
    forall i | 0 <= i < |p1|
      ensures p1[i].serial in sends && p1[i].attempts == sends[p1[i].serial]
      ensures p1[i].attempts >= max ==> p1[i].serial in BeingSent(rest)
      ensures forall v :: v in rest && rest[v].Sending? && p1[i].serial == rest[v].serial ==>
        rest[v].attempts == p1[i].attempts
    {
      var j :| 0 <= j < |q.pending| && p1[i].serial == q.pending[j].serial && p1[i].attempts == q.pending[j].attempts;
      if p1[i].attempts >= max {
        var v :| v in workers && workers[v].Sending? && workers[v].serial == q.pending[j].serial;
        assert v in rest && rest[v].Sending? && rest[v].serial == p1[i].serial;
      }
    }
  }

  /** Every message of p1 is one of p, up to its next-attempt time. */
  ghost predicate FromQueue(p1: seq<Message>, p: seq<Message>) {
    forall i :: 0 <= i < |p1| ==>
      exists j :: 0 <= j < |p| && p1[i].serial == p[j].serial && p1[i].attempts == p[j].attempts
  }

  lemma RemoveFromQueue(pending: seq<Message>, serial: nat)
    requires Ordered(pending)
    ensures Ordered(Without(pending, serial)) && FromQueue(Without(pending, serial), pending)
    ensures forall i :: 0 <= i < |Without(pending, serial)| ==> Without(pending, serial)[i].serial != serial
  {
    var rest := Without(pending, serial);
    WithoutExact(pending, serial);
    forall i | 0 <= i < |rest|
      ensures rest[i].serial != serial
      ensures exists j ::
        0 <= j < |pending| && rest[i].serial == pending[j].serial && rest[i].attempts == pending[j].attempts
    {
      assert rest[i] in rest;
      var j :| 0 <= j < |pending| && pending[j] == rest[i];
    }
  }

  lemma DropExclusive(q: Queue, workers: map<nat, Held>, w: nat)
    requires Ordered(q.pending) && Exclusive(q, workers) && w in workers
    ensures Exclusive(Queue(Without(q.pending, workers[w].serial), q.inFlight - {workers[w].id}), workers - {w})
  {
    ReleaseExclusive(q, workers, w);
    forall v | v in workers - {w} ensures workers[v].serial != workers[w].serial { SerialsDiffer(q, workers, v, w); }
    RemoveExclusive(q.(inFlight := q.inFlight - {workers[w].id}), workers - {w}, workers[w].serial);
  }

  lemma FinishDropKeeps(cfg: Config, x: World, w: nat, r: Sent, now: int)
    requires Inv(cfg, x) && w in x.workers && x.workers[w].Sending?
    requires (r.Delivered? || x.workers[w].attempts >= cfg.maxAttempts)
    ensures Inv(cfg, Step(cfg, x, FinishA(w, r, now)))
  {
    var h := x.workers[w];
    var rest := Without(x.q.pending, h.serial);
    var x1 := Step(cfg, x, FinishA(w, r, now));
    assert x1.q == Queue(rest, x.q.inFlight - {h.id}) && x1.workers == x.workers - {w};
    assert Exclusive(x1.q, x1.workers) by { DropExclusive(x.q, x.workers, w); }
    assert Accounted(x1.q.pending, x1.delivered, x1.failed, x1.next) by {
      RemoveAccounted(x.q.pending, x.delivered, x.failed, x.next, h.serial, r.Delivered?);
    }
    assert Ordered(rest) && Counted(cfg.maxAttempts, rest, x1.workers, x1.sends) by {
      RemoveFromQueue(x.q.pending, h.serial);
      ReleaseCounted(cfg.maxAttempts, x.q, x.workers, x.sends, w, rest);
    }
  }

  lemma RetryIs(cfg: Config, x: World, w: nat, r: Sent, now: int, k: nat) returns (m1: Message)
    requires w in x.workers && x.workers[w].Sending? && r.NotSent? && x.workers[w].attempts < cfg.maxAttempts
    requires k < |x.q.pending| && Find(x.q.pending, x.workers[w].serial) == k
    ensures m1 == x.q.pending[k].(next := m1.next)
    ensures Step(cfg, x, FinishA(w, r, now)) ==
            x.(q := Queue(x.q.pending[k := m1], x.q.inFlight - {x.workers[w].id}), workers := x.workers - {w})
  {
    var h := x.workers[w];
    var at := now + (if r.recipientUnknown && h.attempts > cfg.pathlessTries then cfg.pathWait else cfg.retryWait);
    m1 := x.q.pending[k].(next := Some(at));
  }

  lemma RetryShape(cfg: Config, x: World, w: nat, r: Sent, now: int) returns (k: nat, m1: Message)
    requires Inv(cfg, x) && w in x.workers && x.workers[w].Sending? && r.NotSent?
    requires x.workers[w].attempts < cfg.maxAttempts
    ensures k < |x.q.pending| && x.q.pending[k].serial == x.workers[w].serial
    ensures m1 == x.q.pending[k].(next := m1.next) && m1.attempts < cfg.maxAttempts
    ensures Step(cfg, x, FinishA(w, r, now)) ==
            x.(q := Queue(x.q.pending[k := m1], x.q.inFlight - {x.workers[w].id}), workers := x.workers - {w})
  {
    k := HeldAt(x.q, x.workers, w);
    m1 := RetryIs(cfg, x, w, r, now, k);
  }

  lemma ReplaceFromQueue(pending: seq<Message>, k: nat, m: Message)
    requires k < |pending| && m.serial == pending[k].serial && m.attempts == pending[k].attempts
    ensures FromQueue(pending[k := m], pending)
  {
    var p1 := pending[k := m];
    forall i | 0 <= i < |p1|
      ensures exists j ::
        0 <= j < |pending| && p1[i].serial == pending[j].serial && p1[i].attempts == pending[j].attempts
    {
      assert p1[i].serial == pending[i].serial && p1[i].attempts == pending[i].attempts;
    }
  }

  lemma FinishRetryKeeps(cfg: Config, x: World, w: nat, r: Sent, now: int)
    requires Inv(cfg, x) && w in x.workers && x.workers[w].Sending? && r.NotSent?
    requires x.workers[w].attempts < cfg.maxAttempts
    ensures Inv(cfg, Step(cfg, x, FinishA(w, r, now)))
  {
    var h := x.workers[w];
    var k, m1 := RetryShape(cfg, x, w, r, now);
    var x1, p1 := Step(cfg, x, FinishA(w, r, now)), x.q.pending[k := m1];
    assert Ordered(p1);
    assert Exclusive(x1.q, x1.workers) by {
      ReleaseExclusive(x.q, x.workers, w);
      ReplaceExclusive(x.q.(inFlight := x.q.inFlight - {h.id}), x.workers - {w}, k, m1);
    }
    assert Accounted(p1, x1.delivered, x1.failed, x1.next) by {
      ReplaceAccounted(x.q.pending, x.delivered, x.failed, x.next, k, m1);
    }
    assert Counted(cfg.maxAttempts, p1, x1.workers, x1.sends) by {
      ReplaceFromQueue(x.q.pending, k, m1);
      assert forall i :: 0 <= i < |p1| && p1[i].serial == h.serial ==> i == k;
      ReleaseCounted(cfg.maxAttempts, x.q, x.workers, x.sends, w, p1);
    }
  }

  // ---- every run ----

  lemma StepKeeps(cfg: Config, x: World, a: Action)
    requires cfg.maxAttempts >= 1 && Inv(cfg, x)
    ensures Inv(cfg, Step(cfg, x, a))
  {
    match a
    case EnqueueA(id, recipient) => EnqueueKeeps(cfg, x, id, recipient);
    case PickA(w, now, seen) => PickKeeps(cfg, x, w, now, seen);
    case BeginA(w) => if w in x.workers && x.workers[w].Picked? { BeginKeeps(cfg, x, w); }
    case FinishA(w, r, now) =>
      if w in x.workers && x.workers[w].Sending? {
        if r.Delivered? || x.workers[w].attempts >= cfg.maxAttempts {
          FinishDropKeeps(cfg, x, w, r, now);
        } else {
          FinishRetryKeeps(cfg, x, w, r, now);
        }
      }
  }

  lemma {:induction false} RunKeeps(cfg: Config, x: World, acts: seq<Action>)
    requires cfg.maxAttempts >= 1 && Inv(cfg, x)
    ensures Inv(cfg, Run(cfg, x, acts))
    decreases |acts|
  {
    if acts != [] {
      StepKeeps(cfg, x, acts[0]);
      RunKeeps(cfg, Step(cfg, x, acts[0]), acts[1..]);
    }
  }

  /** The queue under interleaving: whatever the number of workers, the schedule, the clock and the
      outcomes, no two workers ever hold one message, none is sent more than maxAttempts times, every
      enqueued message is pending, delivered or failed and only one of these, the in-flight marks are
      exactly those of the workers, and pending is in enqueue order. */
  lemma QueueSafe(cfg: Config, acts: seq<Action>)
    requires cfg.maxAttempts >= 1
    ensures var x := Run(cfg, EMPTY, acts);
      && (forall v, w :: v in x.workers && w in x.workers && v != w ==> x.workers[v].serial != x.workers[w].serial)
      && (forall k: nat :: k < x.next ==> k in x.sends && x.sends[k] <= cfg.maxAttempts)
      && Accounted(x.q.pending, x.delivered, x.failed, x.next)
      && x.q.inFlight == HeldIds(x.workers)
      && Ordered(x.q.pending)
  {
    assert Inv(cfg, EMPTY);
    RunKeeps(cfg, EMPTY, acts);
    var x := Run(cfg, EMPTY, acts);
    forall v, w | v in x.workers && w in x.workers && v != w ensures x.workers[v].serial != x.workers[w].serial {
      SerialsDiffer(x.q, x.workers, v, w);
    }
  }

  // ---- draining ----

  predicate Begins(x: World, a: Action) {
    a.BeginA? && a.worker in x.workers && x.workers[a.worker].Picked?
  }

  /** Send calls made along a run. */
  function SendCalls(cfg: Config, x: World, acts: seq<Action>): nat
    decreases |acts|
  {
    if acts == [] then 0 else (if Begins(x, acts[0]) then 1 else 0) + SendCalls(cfg, Step(cfg, x, acts[0]), acts[1..])
  }

  // ---- the queue empties ----

  /** The clock has passed every next-attempt time. */
  ghost predicate AllWaited(pending: seq<Message>, now: int) {
    forall i :: 0 <= i < |pending| ==> pending[i].next.None? || pending[i].next.value <= now
  }

  /** With nobody at work and every wait over, nothing due means nothing queued. */
  lemma NothingDueIffEmpty(cfg: Config, x: World, now: int, seen: Recency)
    requires Inv(cfg, x) && x.workers == map[] && AllWaited(x.q.pending, now)
    ensures Pick(x.q, now, seen).1 == None <==> x.q.pending == []
  {
    ChoiceIsArgmax(x.q, now, seen);
    assert x.q.inFlight == {};
    if x.q.pending != [] { assert Due(x.q.pending[0], x.q.inFlight, now); }
  }

  /** A worker's step that does something: it gets a message, calls Send, or settles an outcome. */
  predicate Moves(x: World, a: Action) {
    match a
    case EnqueueA(_, _) => false
    case PickA(w, now, seen) => w !in x.workers && Pick(x.q, now, seen).1.Some?
    case BeginA(_) => Begins(x, a)
    case FinishA(w, _, _) => w in x.workers && x.workers[w].Sending?
  }

  /** How many steps of a run do something. */
  function MovesIn(cfg: Config, x: World, acts: seq<Action>): nat
    decreases |acts|
  {
    if acts == [] then 0 else (if Moves(x, acts[0]) then 1 else 0) + MovesIn(cfg, Step(cfg, x, acts[0]), acts[1..])
  }

  function PickedUp(workers: map<nat, Held>): set<nat> {
    set w | w in workers && workers[w].Picked? :: workers[w].serial
  }

  /** Steps a queued message can still cause: three for each attempt left, less the pick if it has been
      picked, and the settling if it is being sent. */
  function StepsLeft(max: nat, workers: map<nat, Held>, m: Message): int {
    3 * (max - m.attempts) - (if m.serial in PickedUp(workers) then 1 else 0)
      + (if m.serial in BeingSent(workers) then 1 else 0)
  }

  function Work(max: nat, workers: map<nat, Held>, pending: seq<Message>): int {
    if pending == [] then 0 else StepsLeft(max, workers, pending[0]) + Work(max, workers, pending[1..])
  }

  lemma {:induction false} WorkSame(max: nat, ws: map<nat, Held>, p: seq<Message>, ws': map<nat, Held>,
                                    p': seq<Message>)
    requires |p'| == |p| && forall i :: 0 <= i < |p| ==> StepsLeft(max, ws', p'[i]) == StepsLeft(max, ws, p[i])
    ensures Work(max, ws', p') == Work(max, ws, p)
  {
    if p != [] { WorkSame(max, ws, p[1..], ws', p'[1..]); }
  }

  /** Work differs as one message's does, if the others' is the same. */
  lemma {:induction false} WorkAt(max: nat, ws: map<nat, Held>, p: seq<Message>, ws': map<nat, Held>, p': seq<Message>,
                                  k: nat)
    requires |p'| == |p| && k < |p|
    requires forall i :: 0 <= i < |p| && i != k ==> StepsLeft(max, ws', p'[i]) == StepsLeft(max, ws, p[i])
    ensures Work(max, ws', p') - StepsLeft(max, ws', p'[k]) == Work(max, ws, p) - StepsLeft(max, ws, p[k])
  {
    if k == 0 { WorkSame(max, ws, p[1..], ws', p'[1..]); } else { WorkAt(max, ws, p[1..], ws', p'[1..], k - 1); }
  }

  lemma {:induction false} WorkWithout(max: nat, ws: map<nat, Held>, p: seq<Message>, k: nat)
    requires k < |p|
    ensures Work(max, ws, p[..k] + p[k + 1..]) == Work(max, ws, p) - StepsLeft(max, ws, p[k])
  {
    var rest := p[..k] + p[k + 1..];
    if k == 0 {
      assert rest == p[1..];
    } else {
      assert rest[1..] == p[1..][..k - 1] + p[1..][k..];
      WorkWithout(max, ws, p[1..], k - 1);
    }
  }

  /** Giving a worker something else to hold, or nothing, matters to that message alone. */
  lemma OthersWork(max: nat, ws: map<nat, Held>, ws': map<nat, Held>, w: nat, serial: nat, m: Message)
    requires forall v :: v != w ==> (v in ws <==> v in ws') && (v in ws ==> ws'[v] == ws[v])
    requires (w in ws ==> ws[w].serial == serial) && (w in ws' ==> ws'[w].serial == serial) && m.serial != serial
    ensures StepsLeft(max, ws', m) == StepsLeft(max, ws, m)
  {
    assert forall v :: v in ws && ws[v].serial == m.serial ==> v in ws' && ws'[v] == ws[v];
    assert forall v :: v in ws' && ws'[v].serial == m.serial ==> v in ws && ws'[v] == ws[v];
  }

  /** What a held message is counted as, by what its one worker is doing with it. */
  lemma HeldWork(max: nat, q: Queue, workers: map<nat, Held>, w: nat, m: Message)
    requires Exclusive(q, workers) && w in workers && workers[w].serial == m.serial
    ensures StepsLeft(max, workers, m) == 3 * (max - m.attempts) + if workers[w].Picked? then -1 else 1
  {
    forall v | v in workers && v != w ensures workers[v].serial != m.serial { SerialsDiffer(q, workers, v, w); }
    assert m.serial in PickedUp(workers) <==> workers[w].Picked?;
    assert m.serial in BeingSent(workers) <==> workers[w].Sending?;
  }

  lemma FreeWork(max: nat, workers: map<nat, Held>, m: Message)
    requires forall v :: v in workers ==> workers[v].serial != m.serial
    ensures StepsLeft(max, workers, m) == 3 * (max - m.attempts)
  {
  }

  /** Every queued message has a step left, whoever holds it. */
  lemma QueuedHasWork(cfg: Config, x: World, k: nat)
    requires Inv(cfg, x) && k < |x.q.pending|
    ensures StepsLeft(cfg.maxAttempts, x.workers, x.q.pending[k]) >= 1
  {
    var m := x.q.pending[k];
    assert m.attempts == x.sends[m.serial] <= cfg.maxAttempts;
    if w :| w in x.workers && x.workers[w].serial == m.serial {
      HeldWork(cfg.maxAttempts, x.q, x.workers, w, m);
      if x.workers[w].Picked? { BegunCounted(cfg, x, w, k); }
    } else {
      FreeWork(cfg.maxAttempts, x.workers, m);
      assert m.serial !in BeingSent(x.workers);
    }
  }

  lemma {:induction false} WorkCovers(max: nat, workers: map<nat, Held>, p: seq<Message>)
    requires forall i :: 0 <= i < |p| ==> StepsLeft(max, workers, p[i]) >= 1
    ensures Work(max, workers, p) >= |p|
  {
    if p != [] { WorkCovers(max, workers, p[1..]); }
  }

  lemma {:induction false} WorkBounded(max: nat, workers: map<nat, Held>, p: seq<Message>)
    ensures Work(max, workers, p) <= (3 * max + 1) * |p|
  {
    if p != [] { WorkBounded(max, workers, p[1..]); }
  }

  ghost function WorkOf(cfg: Config, x: World): int {
    Work(cfg.maxAttempts, x.workers, x.q.pending)
  }

  /** No work is left exactly when nothing is queued. */
  lemma NoWorkIffEmpty(cfg: Config, x: World)
    requires Inv(cfg, x)
    ensures WorkOf(cfg, x) >= 0 && (WorkOf(cfg, x) == 0 <==> x.q.pending == [])
  {
    forall i | 0 <= i < |x.q.pending| ensures StepsLeft(cfg.maxAttempts, x.workers, x.q.pending[i]) >= 1 {
      QueuedHasWork(cfg, x, i);
    }
    WorkCovers(cfg.maxAttempts, x.workers, x.q.pending);
  }

  lemma PickWorks(cfg: Config, x: World, w: nat, now: int, seen: Recency)
    requires Inv(cfg, x) && Moves(x, PickA(w, now, seen))
    ensures WorkOf(cfg, Step(cfg, x, PickA(w, now, seen))) == WorkOf(cfg, x) - 1
  {
    ChoiceIsArgmax(x.q, now, seen);
    var k := Choose(x.q, now, seen, 0, -1);
    var m := x.q.pending[k];
    var workers := x.workers[w := Picked(m.serial, m.id)];
    PickExclusive(x.q, x.workers, w, k);
    HeldWork(cfg.maxAttempts, x.q.(inFlight := x.q.inFlight + {m.id}), workers, w, m);
    forall v | v in x.workers ensures x.workers[v].serial != m.serial {
      assert x.workers[v].id in HeldIds(x.workers);
    }
    FreeWork(cfg.maxAttempts, x.workers, m);
    OthersAt(cfg.maxAttempts, x.q.pending, x.workers, workers, w, k);
    WorkAt(cfg.maxAttempts, x.workers, x.q.pending, workers, x.q.pending, k);
  }

  lemma OthersAt(max: nat, p: seq<Message>, ws: map<nat, Held>, ws': map<nat, Held>, w: nat, k: nat)
    requires Ordered(p) && k < |p|
    requires forall v :: v != w ==> (v in ws <==> v in ws') && (v in ws ==> ws'[v] == ws[v])
    requires (w in ws ==> ws[w].serial == p[k].serial) && (w in ws' ==> ws'[w].serial == p[k].serial)
    ensures forall i :: 0 <= i < |p| && i != k ==> StepsLeft(max, ws', p[i]) == StepsLeft(max, ws, p[i])
  {
    forall i | 0 <= i < |p| && i != k ensures StepsLeft(max, ws', p[i]) == StepsLeft(max, ws, p[i]) {
      OthersWork(max, ws, ws', w, p[k].serial, p[i]);
    }
  }

  lemma BeginWorks(cfg: Config, x: World, w: nat)
    requires Inv(cfg, x) && w in x.workers && x.workers[w].Picked?
    ensures WorkOf(cfg, Step(cfg, x, BeginA(w))) == WorkOf(cfg, x) - 1
  {
    var k := BeginShape(cfg, x, w);
    var x1, max := Begun(x, w, k), cfg.maxAttempts;
    HeldWork(max, x.q, x.workers, w, x.q.pending[k]);
    BegunExclusive(x, w, k);
    HeldWork(max, x1.q, x1.workers, w, x1.q.pending[k]);
    OthersAt(max, x.q.pending, x.workers, x1.workers, w, k);
    WorkAt(max, x.workers, x.q.pending, x1.workers, x1.q.pending, k);
  }

  /** Letting go of a message that was being sent uses up the settling. */
  lemma ReleaseWorks(max: nat, q: Queue, workers: map<nat, Held>, w: nat, k: nat)
    requires Ordered(q.pending) && Exclusive(q, workers) && w in workers && workers[w].Sending?
    requires k < |q.pending| && q.pending[k].serial == workers[w].serial
    ensures Work(max, workers - {w}, q.pending) == Work(max, workers, q.pending) - 1
    ensures StepsLeft(max, workers - {w}, q.pending[k]) == 3 * (max - q.pending[k].attempts)
  {
    var rest := workers - {w};
    HeldWork(max, q, workers, w, q.pending[k]);
    forall v | v in rest ensures rest[v].serial != q.pending[k].serial { SerialsDiffer(q, workers, v, w); }
    FreeWork(max, rest, q.pending[k]);
    OthersAt(max, q.pending, workers, rest, w, k);
    WorkAt(max, workers, q.pending, rest, q.pending, k);
  }

  lemma DropWorks(cfg: Config, x: World, w: nat, r: Sent, now: int)
    requires Inv(cfg, x) && w in x.workers && x.workers[w].Sending?
    requires r.Delivered? || x.workers[w].attempts >= cfg.maxAttempts
    ensures WorkOf(cfg, Step(cfg, x, FinishA(w, r, now))) <= WorkOf(cfg, x) - 1
  {
    var max, rest := cfg.maxAttempts, x.workers - {w};
    var k := HeldAt(x.q, x.workers, w);
    var x1, p := Step(cfg, x, FinishA(w, r, now)), x.q.pending;
    assert x1.workers == rest && x1.q.pending == p[..k] + p[k + 1..];
    ReleaseWorks(max, x.q, x.workers, w, k);
    WorkWithout(max, rest, p, k);
    assert p[k].attempts == x.sends[p[k].serial] <= max;
  }

  lemma RetryWorks(cfg: Config, x: World, w: nat, r: Sent, now: int)
    requires Inv(cfg, x) && w in x.workers && x.workers[w].Sending? && r.NotSent?
    requires x.workers[w].attempts < cfg.maxAttempts
    ensures WorkOf(cfg, Step(cfg, x, FinishA(w, r, now))) == WorkOf(cfg, x) - 1
  {
    var k, m1 := RetryShape(cfg, x, w, r, now);
    ReleaseWorks(cfg.maxAttempts, x.q, x.workers, w, k);
    WorkSame(cfg.maxAttempts, x.workers - {w}, x.q.pending, x.workers - {w}, x.q.pending[k := m1]);
  }

  lemma StepWorks(cfg: Config, x: World, a: Action)
    requires Inv(cfg, x) && !a.EnqueueA?
    ensures WorkOf(cfg, Step(cfg, x, a)) + (if Moves(x, a) then 1 else 0) <= WorkOf(cfg, x)
  {
    if Moves(x, a) {
      match a
      case PickA(w, now, seen) => PickWorks(cfg, x, w, now, seen);
      case BeginA(w) => BeginWorks(cfg, x, w);
      case FinishA(w, r, now) =>
        if r.Delivered? || x.workers[w].attempts >= cfg.maxAttempts {
          DropWorks(cfg, x, w, r, now);
        } else {
          RetryWorks(cfg, x, w, r, now);
        }
    }
  }

  lemma {:induction false} RunWorks(cfg: Config, x: World, acts: seq<Action>)
    requires cfg.maxAttempts >= 1 && Inv(cfg, x) && forall i :: 0 <= i < |acts| ==> !acts[i].EnqueueA?
    ensures Inv(cfg, Run(cfg, x, acts))
    ensures MovesIn(cfg, x, acts) + WorkOf(cfg, Run(cfg, x, acts)) <= WorkOf(cfg, x)
    decreases |acts|
  {
    if acts != [] {
      StepKeeps(cfg, x, acts[0]);
      StepWorks(cfg, x, acts[0]);
      RunWorks(cfg, Step(cfg, x, acts[0]), acts[1..]);
    }
  }

  /** Attempts the queued messages have left. */
  function AttemptsLeft(max: nat, p: seq<Message>): nat {
    if p == [] then 0 else (if p[0].attempts < max then max - p[0].attempts else 0) + AttemptsLeft(max, p[1..])
  }

  lemma {:induction false} WorkIsAttempts(max: nat, p: seq<Message>)
    requires forall i :: 0 <= i < |p| ==> p[i].attempts <= max
    ensures Work(max, map[], p) == 3 * AttemptsLeft(max, p)
  {
    if p != [] {
      FreeWork(max, map[], p[0]);
      WorkIsAttempts(max, p[1..]);
    }
  }

  lemma WithinMax(cfg: Config, x: World)
    requires Inv(cfg, x)
    ensures forall i :: 0 <= i < |x.q.pending| ==> x.q.pending[i].attempts <= cfg.maxAttempts
  {
    assert forall i :: 0 <= i < |x.q.pending| ==> x.q.pending[i].attempts == x.sends[x.q.pending[i].serial];
  }

  lemma BeginSpends(cfg: Config, x: World, w: nat)
    requires Inv(cfg, x) && w in x.workers && x.workers[w].Picked?
    ensures Work(cfg.maxAttempts, map[], Step(cfg, x, BeginA(w)).q.pending) ==
      Work(cfg.maxAttempts, map[], x.q.pending) - 3
  {
    var k := BeginShape(cfg, x, w);
    var m, max := x.q.pending[k], cfg.maxAttempts;
    FreeWork(max, map[], m);
    FreeWork(max, map[], m.(attempts := m.attempts + 1));
    WorkAt(max, map[], x.q.pending, map[], x.q.pending[k := m.(attempts := m.attempts + 1)], k);
  }

  lemma FinishSpends(cfg: Config, x: World, w: nat, r: Sent, now: int)
    requires Inv(cfg, x) && w in x.workers && x.workers[w].Sending?
    ensures Work(cfg.maxAttempts, map[], Step(cfg, x, FinishA(w, r, now)).q.pending) <=
      Work(cfg.maxAttempts, map[], x.q.pending)
  {
    var max := cfg.maxAttempts;
    if r.Delivered? || x.workers[w].attempts >= max {
      var k := HeldAt(x.q, x.workers, w);
      FreeWork(max, map[], x.q.pending[k]);
      WithinMax(cfg, x);
      WorkWithout(max, map[], x.q.pending, k);
    } else {
      var k, m1 := RetryShape(cfg, x, w, r, now);
      FreeWork(max, map[], m1);
      FreeWork(max, map[], x.q.pending[k]);
      WorkSame(max, map[], x.q.pending, map[], x.q.pending[k := m1]);
    }
  }

  lemma StepSpends(cfg: Config, x: World, a: Action)
    requires Inv(cfg, x) && !a.EnqueueA?
    ensures Work(cfg.maxAttempts, map[], Step(cfg, x, a).q.pending) + (if Begins(x, a) then 3 else 0) <=
      Work(cfg.maxAttempts, map[], x.q.pending)
  {
    match a
    case BeginA(w) => if Begins(x, a) { BeginSpends(cfg, x, w); }
    case FinishA(w, r, now) => if w in x.workers && x.workers[w].Sending? { FinishSpends(cfg, x, w, r, now); }
    case PickA(_, _, _) =>
  }

  /** Draining ends: with no new enqueues, however the workers interleave and whatever fails, the send
      calls made and the attempts the queued messages then have left are no more than they had. */
  lemma {:induction false} DrainBounded(cfg: Config, x: World, acts: seq<Action>)
    requires cfg.maxAttempts >= 1 && Inv(cfg, x)
    requires forall i :: 0 <= i < |acts| ==> !acts[i].EnqueueA?
    ensures Inv(cfg, Run(cfg, x, acts))
    ensures SendCalls(cfg, x, acts) + AttemptsLeft(cfg.maxAttempts, Run(cfg, x, acts).q.pending) <=
      AttemptsLeft(cfg.maxAttempts, x.q.pending)
    decreases |acts|
  {
    if acts != [] {
      var x1 := Step(cfg, x, acts[0]);
      StepKeeps(cfg, x, acts[0]);
      StepSpends(cfg, x, acts[0]);
      WithinMax(cfg, x);
      WithinMax(cfg, x1);
      WorkIsAttempts(cfg.maxAttempts, x.q.pending);
      WorkIsAttempts(cfg.maxAttempts, x1.q.pending);
      DrainBounded(cfg, x1, acts[1..]);
    }
  }

  /** Draining empties the queue: however any number of workers interleave and whatever every send returns,
      a run without enqueues has at most as many steps that do something as the queued messages have left,
      and when it has had that many nothing is pending. */
  lemma DrainEmpties(cfg: Config, x: World, acts: seq<Action>)
    requires cfg.maxAttempts >= 1 && Inv(cfg, x) && forall i :: 0 <= i < |acts| ==> !acts[i].EnqueueA?
    ensures MovesIn(cfg, x, acts) <= WorkOf(cfg, x) <= (3 * cfg.maxAttempts + 1) * |x.q.pending|
    ensures MovesIn(cfg, x, acts) == WorkOf(cfg, x) ==> Run(cfg, x, acts).q.pending == []
  {
    WorkBounded(cfg.maxAttempts, x.workers, x.q.pending);
    RunWorks(cfg, x, acts);
    NoWorkIffEmpty(cfg, Run(cfg, x, acts));
  }

  /** Nothing stalls it: once the waits are over, some worker's step does something exactly when a message
      is pending, and with nobody at work that is any worker's pick. */
  lemma CanMoveIffPending(cfg: Config, x: World, now: int, seen: Recency, r: Sent)
    requires Inv(cfg, x) && AllWaited(x.q.pending, now)
    ensures x.q.pending != [] <==>
      exists w: nat :: Moves(x, PickA(w, now, seen)) || Moves(x, BeginA(w)) || Moves(x, FinishA(w, r, now))
    ensures x.workers == map[] && x.q.pending != [] ==> forall w: nat :: Moves(x, PickA(w, now, seen))
  {
    if x.workers == map[] {
      NothingDueIffEmpty(cfg, x, now, seen);
      assert Moves(x, PickA(0, now, seen)) <==> x.q.pending != [];
    } else {
      var w :| w in x.workers;
      assert Holds(x.q.pending, x.workers[w].serial);
      assert Moves(x, BeginA(w)) || Moves(x, FinishA(w, r, now));
    }
  }

  // ---- waits ----

  /** A new message is due at once, unless its id is being sent. */
  lemma EnqueuedIsDue(cfg: Config, x: World, id: string, recipient: Bytes)
    ensures var y := Step(cfg, x, EnqueueA(id, recipient));
      && |y.q.pending| == |x.q.pending| + 1
      && var m := y.q.pending[|x.q.pending|];
         m.id == id && m.recipient == recipient && forall t :: Due(m, y.q.inFlight, t) <==> id !in x.q.inFlight
  {
  }

  /** The message waits in the queue until then, and nobody is sending it. */
  ghost predicate WaitsUntil(x: World, serial: nat, at: int) {
    && serial !in BeingSent(x.workers)
    && exists i :: 0 <= i < |x.q.pending| && x.q.pending[i].serial == serial && x.q.pending[i].next == Some(at)
  }

  /** A failed attempt with attempts left puts the message off by the wait it earned, from when it finished. */
  lemma FailureWaits(cfg: Config, x: World, w: nat, r: Sent, now: int)
    requires Inv(cfg, x) && w in x.workers && x.workers[w].Sending? && r.NotSent?
    requires x.workers[w].attempts < cfg.maxAttempts
    ensures var h := x.workers[w];
      WaitsUntil(Step(cfg, x, FinishA(w, r, now)), h.serial,
                 now + if r.recipientUnknown && h.attempts > cfg.pathlessTries then cfg.pathWait else cfg.retryWait)
  {
    var h, x1 := x.workers[w], Step(cfg, x, FinishA(w, r, now));
    var k := HeldAt(x.q, x.workers, w);
    var m := RetryIs(cfg, x, w, r, now, k);
    assert x1.q.pending[k] == m;
    forall v | v in x1.workers ensures x1.workers[v].serial != h.serial { SerialsDiffer(x.q, x.workers, v, w); }
  }

  predicate Sends(x: World, a: Action, serial: nat) {
    Begins(x, a) && x.workers[a.worker].serial == serial
  }

  lemma SendsCounted(cfg: Config, x: World, a: Action, serial: nat)
    requires Inv(cfg, x) && serial in x.sends
    ensures var x1 := Step(cfg, x, a);
      serial in x1.sends && x1.sends[serial] == x.sends[serial] + if Sends(x, a, serial) then 1 else 0
  {
    assert a.EnqueueA? ==> serial < x.next;
  }

  /** Whatever the workers do, short of sending it again, it goes on waiting until then. */
  lemma StepWaits(cfg: Config, x: World, a: Action, serial: nat, at: int)
    requires Inv(cfg, x) && WaitsUntil(x, serial, at) && !Sends(x, a, serial)
    ensures WaitsUntil(Step(cfg, x, a), serial, at)
  {
    var i :| 0 <= i < |x.q.pending| && x.q.pending[i].serial == serial && x.q.pending[i].next == Some(at);
    var x1 := Step(cfg, x, a);
    match a
    case EnqueueA(_, _) => assert x1.q.pending[i] == x.q.pending[i];
    case PickA(_, _, _) =>
      assert x1.q.pending == x.q.pending;
      assert BeingSent(x1.workers) <= BeingSent(x.workers);
    case BeginA(w) => if Begins(x, a) { BeginWaits(cfg, x, w, serial, at, i); }
    case FinishA(w, r, now) =>
      if w in x.workers && x.workers[w].Sending? { FinishOtherWaits(cfg, x, w, r, now, serial, at, i); }
  }

  lemma BeginWaits(cfg: Config, x: World, w: nat, serial: nat, at: int, i: nat)
    requires Inv(cfg, x) && Begins(x, BeginA(w)) && x.workers[w].serial != serial && serial !in BeingSent(x.workers)
    requires i < |x.q.pending| && x.q.pending[i].serial == serial && x.q.pending[i].next == Some(at)
    ensures WaitsUntil(Step(cfg, x, BeginA(w)), serial, at)
  {
    var k := BeginShape(cfg, x, w);
    var x1 := Begun(x, w, k);
    assert x1.q.pending[i] == x.q.pending[i];
    forall v | v in x1.workers && x1.workers[v].Sending? ensures x1.workers[v].serial != serial {
      if v != w { assert x.workers[v].serial in BeingSent(x.workers); }
    }
  }

  lemma FinishOtherWaits(cfg: Config, x: World, w: nat, r: Sent, now: int, serial: nat, at: int, i: nat)
    requires Inv(cfg, x) && w in x.workers && x.workers[w].Sending? && serial !in BeingSent(x.workers)
    requires i < |x.q.pending| && x.q.pending[i].serial == serial && x.q.pending[i].next == Some(at)
    ensures WaitsUntil(Step(cfg, x, FinishA(w, r, now)), serial, at)
  {
    var h, x1 := x.workers[w], Step(cfg, x, FinishA(w, r, now));
    assert h.serial in BeingSent(x.workers);
    assert serial !in BeingSent(x1.workers);
    if r.Delivered? || h.attempts >= cfg.maxAttempts {
      OthersStay(x.q.pending, h.serial, i);
    } else {
      var k, m1 := RetryShape(cfg, x, w, r, now);
      assert x1.q.pending[i] == x.q.pending[i];
    }
  }

  lemma OthersStay(pending: seq<Message>, serial: nat, i: nat)
    requires Ordered(pending) && i < |pending| && pending[i].serial != serial
    ensures exists j :: 0 <= j < |Without(pending, serial)| && Without(pending, serial)[j] == pending[i]
  {
    WithoutExact(pending, serial);
    assert pending[i] in Without(pending, serial);
  }

  /** Taking a message that waits means its time has come. */
  lemma TakenIsDue(cfg: Config, x: World, a: Action, serial: nat, at: int)
    requires Inv(cfg, x) && WaitsUntil(x, serial, at) && Takes(x, a, serial)
    ensures a.now >= at
  {
    ChoiceIsArgmax(x.q, a.now, a.seen);
  }

  /** The worker's pick is that message. */
  predicate Takes(x: World, a: Action, serial: nat) {
    && a.PickA? && a.worker !in x.workers && Pick(x.q, a.now, a.seen).1.Some?
    && Pick(x.q, a.now, a.seen).1.value.serial == serial
  }

  /** Some pick of the run by that worker, at that time or later. */
  predicate PickedSince(acts: seq<Action>, w: nat, at: int) {
    exists j :: 0 <= j < |acts| && acts[j].PickA? && acts[j].worker == w && acts[j].now >= at
  }

  /** Over a run that does not send it again a waiting message goes on waiting, and whoever holds it at the end
      picked it when its time had come. */
  lemma {:induction false} RunWaits(cfg: Config, x: World, acts: seq<Action>, serial: nat, at: int)
    requires cfg.maxAttempts >= 1 && Inv(cfg, x) && WaitsUntil(x, serial, at) && serial in x.sends
    requires serial in Run(cfg, x, acts).sends && Run(cfg, x, acts).sends[serial] == x.sends[serial]
    ensures var y := Run(cfg, x, acts);
      && Inv(cfg, y) && WaitsUntil(y, serial, at)
      && forall w :: w in y.workers && y.workers[w].serial == serial ==>
           (w in x.workers && x.workers[w].serial == serial) || PickedSince(acts, w, at)
    decreases |acts|
  {
    if acts != [] {
      var a, rest := acts[0], acts[1..];
      var x1 := Step(cfg, x, a);
      StepKeeps(cfg, x, a);
      SendsCounted(cfg, x, a, serial);
      SendsGrow(cfg, x1, rest, serial);
      StepWaits(cfg, x, a, serial, at);
      RunWaits(cfg, x1, rest, serial, at);
      var y := Run(cfg, x1, rest);
      forall w | w in y.workers && y.workers[w].serial == serial
        ensures (w in x.workers && x.workers[w].serial == serial) || PickedSince(acts, w, at)
      {
        if PickedSince(rest, w, at) {
          var j :| 0 <= j < |rest| && rest[j].PickA? && rest[j].worker == w && rest[j].now >= at;
          assert acts[j + 1] == rest[j];
        } else {
          HolderFrom(cfg, x, a, w, serial, at);
        }
      }
    }
  }

  lemma HolderFrom(cfg: Config, x: World, a: Action, w: nat, serial: nat, at: int)
    requires Inv(cfg, x) && WaitsUntil(x, serial, at)
    requires var x1 := Step(cfg, x, a); w in x1.workers && x1.workers[w].serial == serial
    ensures (w in x.workers && x.workers[w].serial == serial) || (a.PickA? && a.worker == w && a.now >= at)
  {
    if !(w in x.workers && x.workers[w].serial == serial) { TakenIsDue(cfg, x, a, serial, at); }
  }

  lemma {:induction false} SendsGrow(cfg: Config, x: World, acts: seq<Action>, serial: nat)
    requires cfg.maxAttempts >= 1 && Inv(cfg, x) && serial in x.sends
    ensures serial in Run(cfg, x, acts).sends && Run(cfg, x, acts).sends[serial] >= x.sends[serial]
    decreases |acts|
  {
    if acts != [] {
      StepKeeps(cfg, x, acts[0]);
      SendsCounted(cfg, x, acts[0], serial);
      SendsGrow(cfg, Step(cfg, x, acts[0]), acts[1..], serial);
    }
  }

  /** The worker's send has failed with attempts left. */
  predicate Fails(cfg: Config, x: World, w: nat, r: Sent) {
    w in x.workers && x.workers[w].Sending? && x.workers[w].attempts < cfg.maxAttempts && r.NotSent?
  }

  lemma FailedSend(cfg: Config, x: World, w: nat, r: Sent, now: int)
    requires cfg.maxAttempts >= 1 && Inv(cfg, x) && Fails(cfg, x, w, r)
    ensures var h := x.workers[w]; var x1 := Step(cfg, x, FinishA(w, r, now));
      && Inv(cfg, x1) && h.serial in x1.sends && x1.workers == x.workers - {w}
      && WaitsUntil(x1, h.serial, now + WaitAfter(cfg, h.attempts, r.recipientUnknown))
      && forall v :: v in x1.workers ==> x1.workers[v].serial != h.serial
  {
    var h, x1 := x.workers[w], Step(cfg, x, FinishA(w, r, now));
    assert Inv(cfg, x1) by { StepKeeps(cfg, x, FinishA(w, r, now)); }
    FailureWaits(cfg, x, w, r, now);
    assert h.serial in x1.sends by { assert Holds(x.q.pending, h.serial); }
    forall v | v in x1.workers ensures x1.workers[v].serial != h.serial { SerialsDiffer(x.q, x.workers, v, w); }
  }

  /** Due from then on, unless its id is being sent. */
  ghost predicate DueFrom(m: Message, inFlight: set<string>, at: int) {
    forall t :: Due(m, inFlight, t) <==> m.id !in inFlight && t >= at
  }

  /** Retries wait. From the moment a failed attempt with attempts left is settled until the message is sent
      again, in every interleaving: no worker takes it before its wait is over, from then on it is due unless
      its id is being sent, and a worker about to send it took it no sooner. The wait is the path wait iff the
      recipient was unknown and the attempts exceed the pathless tries. */
  lemma RetryWaits(cfg: Config, acts: seq<Action>, w: nat, r: Sent, now: int, more: seq<Action>)
    requires cfg.maxAttempts >= 1 && Fails(cfg, Run(cfg, EMPTY, acts), w, r)
    requires NotSentAgain(cfg, Run(cfg, EMPTY, acts), w, r, now, more)
    ensures var x := Run(cfg, EMPTY, acts); var h := x.workers[w];
      var y := Run(cfg, Step(cfg, x, FinishA(w, r, now)), more);
      WaitedFor(y, more, h.serial, now + WaitAfter(cfg, h.attempts, r.recipientUnknown))
  {
    var x := Run(cfg, EMPTY, acts);
    assert Inv(cfg, x) by {
      assert Inv(cfg, EMPTY);
      RunKeeps(cfg, EMPTY, acts);
    }
    var h, x1 := x.workers[w], Step(cfg, x, FinishA(w, r, now));
    FailedSend(cfg, x, w, r, now);
    WaitsOn(cfg, x1, more, h.serial, now + WaitAfter(cfg, h.attempts, r.recipientUnknown));
  }

  ghost predicate NotSentAgain(cfg: Config, x: World, w: nat, r: Sent, now: int, more: seq<Action>)
    requires Fails(cfg, x, w, r)
  {
    var serial := x.workers[w].serial;
    var x1 := Step(cfg, x, FinishA(w, r, now));
    var y := Run(cfg, x1, more);
    serial in x1.sends && serial in y.sends && y.sends[serial] == x1.sends[serial]
  }

  /** Nobody takes it sooner, it is due from then on, and whoever holds it picked it no sooner. */
  ghost predicate WaitedFor(y: World, more: seq<Action>, serial: nat, at: int) {
    && (forall a :: Takes(y, a, serial) ==> a.now >= at)
    && (exists m :: m in y.q.pending && m.serial == serial && DueFrom(m, y.q.inFlight, at))
    && (forall v :: v in y.workers && y.workers[v].serial == serial ==> PickedSince(more, v, at))
  }

  lemma WaitsOn(cfg: Config, x: World, more: seq<Action>, serial: nat, at: int)
    requires cfg.maxAttempts >= 1 && Inv(cfg, x) && WaitsUntil(x, serial, at) && serial in x.sends
    requires forall v :: v in x.workers ==> x.workers[v].serial != serial
    requires serial in Run(cfg, x, more).sends && Run(cfg, x, more).sends[serial] == x.sends[serial]
    ensures WaitedFor(Run(cfg, x, more), more, serial, at)
  {
    var y := Run(cfg, x, more);
    RunWaits(cfg, x, more, serial, at);
    forall a | Takes(y, a, serial) ensures a.now >= at { TakenIsDue(cfg, y, a, serial, at); }
    WaitingDue(y, serial, at);
  }

  lemma WaitingDue(x: World, serial: nat, at: int)
    requires WaitsUntil(x, serial, at)
    ensures exists m :: m in x.q.pending && m.serial == serial && DueFrom(m, x.q.inFlight, at)
  {
    var i :| 0 <= i < |x.q.pending| && x.q.pending[i].serial == serial && x.q.pending[i].next == Some(at);
    var m := x.q.pending[i];
    assert m in x.q.pending && DueFrom(m, x.q.inFlight, at);
  }
}
