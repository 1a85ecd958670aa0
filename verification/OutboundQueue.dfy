/** The outbound delivery queue: selection, attempts, retries, and N workers interleaving under one lock. */
module OutboundQueue {
  import opened Octets

  /** A queued message. `serial` stands for its address: ids are random and may repeat. `next` is None
      for the zero time. */
  datatype Message = Message(serial: nat, id: string, recipient: Bytes, attempts: nat, next: Option<int>)

  datatype Queue = Queue(pending: seq<Message>, inFlight: set<string>)

  /** The service runs with 5, 1, 10 s and 7 s; nothing here depends on that. */
  datatype Config = Config(maxAttempts: nat, pathlessTries: nat, retryWait: int, pathWait: int)

  datatype Sent = Delivered | NotSent(recipientUnknown: bool)

  /** When a recipient last announced, or None if never. */
  type Recency = Bytes -> Option<int>

  // ---- selection ----

  predicate Due(m: Message, inFlight: set<string>, now: int) {
    m.id !in inFlight && (m.next.None? || m.next.value <= now)
  }

  /** `m` displaces `best`: known beats unknown, then the more recent announce. */
  predicate Beats(seen: Recency, m: Message, best: Message) {
    match (seen(m.recipient), seen(best.recipient))
    case (Some(_), None) => true
    case (Some(a), Some(b)) => a > b
    case _ => false
  }

  /** The index the selection loop would settle on, from position i with `best` so far (-1 for none). */
  function Choose(q: Queue, now: int, seen: Recency, i: nat, best: int): (k: int)
    requires i <= |q.pending| && -1 <= best < |q.pending|
    ensures -1 <= k < |q.pending|
    decreases |q.pending| - i
  {
    if i == |q.pending| then best
    else if !Due(q.pending[i], q.inFlight, now) then Choose(q, now, seen, i + 1, best)
    else if best < 0 || Beats(seen, q.pending[i], q.pending[best]) then Choose(q, now, seen, i + 1, i)
    else Choose(q, now, seen, i + 1, best)
  }

  /** k is a due, free message no due, free message beats, and the earliest such. */
  ghost predicate IsChoice(q: Queue, now: int, seen: Recency, k: int, upto: nat)
    requires upto <= |q.pending|
  {
    if k < 0 then k == -1 && forall j :: 0 <= j < upto ==> !Due(q.pending[j], q.inFlight, now)
    else
      && k < upto && Due(q.pending[k], q.inFlight, now)
      && (forall j :: 0 <= j < upto && Due(q.pending[j], q.inFlight, now) ==> !Beats(seen, q.pending[j], q.pending[k]))
      && (forall j :: 0 <= j < k && Due(q.pending[j], q.inFlight, now) ==> Beats(seen, q.pending[k], q.pending[j]))
  }

  lemma {:induction false} ChooseFrom(q: Queue, now: int, seen: Recency, i: nat, best: int)
    requires i <= |q.pending| && -1 <= best < |q.pending| && IsChoice(q, now, seen, best, i)
    ensures IsChoice(q, now, seen, Choose(q, now, seen, i, best), |q.pending|)
    decreases |q.pending| - i
  {
    if i < |q.pending| {
      if !Due(q.pending[i], q.inFlight, now) {
        ChooseFrom(q, now, seen, i + 1, best);
      } else if best < 0 || Beats(seen, q.pending[i], q.pending[best]) {
        ChooseFrom(q, now, seen, i + 1, i);
      } else {
        ChooseFrom(q, now, seen, i + 1, best);
      }
    }
  }

  /** Selection refines argmax: the pick is due and free, maximal by (recipient known, last announce),
      the earliest enqueued among equals, and there is none only when nothing is due and free. */
  lemma ChoiceIsArgmax(q: Queue, now: int, seen: Recency)
    ensures IsChoice(q, now, seen, Choose(q, now, seen, 0, -1), |q.pending|)
  {
    ChooseFrom(q, now, seen, 0, -1);
  }

  /** No due, free message has a recipient heard from more recently, and every earlier one's is less recent. */
  ghost predicate Freshest(q: Queue, now: int, seen: Recency, k: nat)
    requires k < |q.pending|
  {
    forall j :: 0 <= j < |q.pending| && Due(q.pending[j], q.inFlight, now) ==>
      var mine, other := seen(q.pending[k].recipient), seen(q.pending[j].recipient);
      && (other.Some? ==> mine.Some? && other.value <= mine.value)
      && (j < k ==> mine.Some? && (other.None? || other.value < mine.value))
  }

  /** The pick, told from announces alone: nothing due and free was heard from more recently, a recipient never
      heard from is picked only if no other is known, and among equals the earliest enqueued goes first. */
  lemma PickIsMostRecent(q: Queue, now: int, seen: Recency)
    ensures match Pick(q, now, seen).1
      case None => forall m :: m in q.pending ==> !Due(m, q.inFlight, now)
      case Some(p) =>
        && Due(p, q.inFlight, now)
        && (exists k :: 0 <= k < |q.pending| && q.pending[k] == p && Freshest(q, now, seen, k))
  {
    ChoiceIsArgmax(q, now, seen);
  }

  /** There is at most one such choice, so the contract fixes the pick. */
  lemma ChoiceUnique(q: Queue, now: int, seen: Recency, a: int, b: int)
    requires IsChoice(q, now, seen, a, |q.pending|) && IsChoice(q, now, seen, b, |q.pending|)
    ensures a == b
  {}

  // ---- the operations on values ----

  function Pick(q: Queue, now: int, seen: Recency): (Queue, Option<Message>) {
    var k := Choose(q, now, seen, 0, -1);
    if k < 0 then (q, None) else (q.(inFlight := q.inFlight + {q.pending[k].id}), Some(q.pending[k]))
  }

  function Enqueue(q: Queue, m: Message): Queue {
    q.(pending := q.pending + [m])
  }

  /** The position of a message in the queue, or -1. */
  function Find(pending: seq<Message>, serial: nat): (k: int)
    ensures -1 <= k < |pending|
    ensures k >= 0 ==> pending[k].serial == serial
    ensures k < 0 ==> forall j :: 0 <= j < |pending| ==> pending[j].serial != serial
  {
    FindFrom(pending, serial, 0)
  }

  function FindFrom(pending: seq<Message>, serial: nat, i: nat): (k: int)
    requires i <= |pending|
    ensures -1 <= k < |pending|
    ensures k >= 0 ==> pending[k].serial == serial
    ensures k < 0 ==> forall j :: i <= j < |pending| ==> pending[j].serial != serial
    decreases |pending| - i
  {
    if i == |pending| then -1 else if pending[i].serial == serial then i else FindFrom(pending, serial, i + 1)
  }

  function Without(pending: seq<Message>, serial: nat): seq<Message> {
    var k := Find(pending, serial);
    if k < 0 then pending else pending[..k] + pending[k + 1..]
  }

  /** attempt, first critical section: count the attempt. */
  function Begin(q: Queue, serial: nat): Queue {
    var k := Find(q.pending, serial);
    if k < 0 then q else q.(pending := q.pending[k := q.pending[k].(attempts := q.pending[k].attempts + 1)])
  }

  function Rescheduled(pending: seq<Message>, serial: nat, at: int): seq<Message> {
    var k := Find(pending, serial);
    if k < 0 then pending else pending[k := pending[k].(next := Some(at))]
  }

  /** What an attempt's outcome does to the queue: drop the message, or put its next attempt off. */
  function Settled(pending: seq<Message>, cfg: Config, serial: nat, attempts: nat, r: Sent, now: int): seq<Message> {
    if r.Delivered? || attempts >= cfg.maxAttempts then Without(pending, serial)
    else if r.recipientUnknown && attempts > cfg.pathlessTries then Rescheduled(pending, serial, now + cfg.pathWait)
    else Rescheduled(pending, serial, now + cfg.retryWait)
  }

  /** attempt, second critical section: settle the outcome and release the message. */
  function Finish(q: Queue, cfg: Config, m: Message, attempts: nat, r: Sent, now: int): Queue {
    Queue(Settled(q.pending, cfg, m.serial, attempts, r, now), q.inFlight - {m.id})
  }

  /** Pending stays in enqueue order. */
  ghost predicate Ordered(pending: seq<Message>) {
    forall i, j :: 0 <= i < j < |pending| ==> pending[i].serial < pending[j].serial
  }

  lemma FindOrdered(pending: seq<Message>, k: nat)
    requires Ordered(pending) && k < |pending|
    ensures Find(pending, pending[k].serial) == k
  {}

  /** Removal takes out exactly that message and keeps enqueue order. */
  lemma WithoutExact(pending: seq<Message>, serial: nat)
    requires Ordered(pending)
    ensures Ordered(Without(pending, serial))
    ensures forall m :: m in Without(pending, serial) <==> m in pending && m.serial != serial
  {
    var k := Find(pending, serial);
    if k >= 0 { SpliceExact(pending, k); }
  }

  lemma SpliceExact(pending: seq<Message>, k: nat)
    requires Ordered(pending) && k < |pending|
    ensures var rest := pending[..k] + pending[k + 1..];
      Ordered(rest) && forall m :: m in rest <==> m in pending && m.serial != pending[k].serial
  {
    var rest := pending[..k] + pending[k + 1..];
    assert forall i :: 0 <= i < |rest| ==> rest[i] == pending[if i < k then i else i + 1];
    forall m | m in pending && m.serial != pending[k].serial ensures m in rest {
      var j :| 0 <= j < |pending| && pending[j] == m;
      assert rest[if j < k then j else j - 1] == m;
    }
  }

  // ---- the class ----

  class OutboundMessage {
    const serial: nat
    const id: string
    const recipient: Bytes
    var attempts: nat
    var next: Option<int>

    constructor (serial: nat, id: string, recipient: Bytes)
      ensures this.serial == serial && Value() == Message(serial, id, recipient, 0, None)
    {
      this.serial, this.id, this.recipient, attempts, next := serial, id, recipient, 0, None;
    }

    ghost function Value(): Message
      reads this
    {
      Message(serial, id, recipient, attempts, next)
    }
  }

  class DeliveryQueue {
    const cfg: Config
    var pending: seq<OutboundMessage>
    var inFlight: set<string>
    ghost var serials: nat

    /** Messages sit in the order they were created. */
    ghost predicate Valid()
      reads this
    {
      && (forall i, j :: 0 <= i < j < |pending| ==> pending[i].serial < pending[j].serial)
      && (forall i :: 0 <= i < |pending| ==> pending[i].serial < serials)
    }

    ghost function View(): (q: Queue)
      reads this, pending
      ensures |q.pending| == |pending| && q.inFlight == inFlight
      ensures forall i :: 0 <= i < |pending| ==> q.pending[i] == pending[i].Value()
    {
      Queue(seq(|pending|, i requires 0 <= i < |pending| reads this, pending => pending[i].Value()), inFlight)
    }

    constructor (config: Config)
      ensures Valid() && View() == Queue([], {}) && cfg == config && serials == 0
    {
      cfg, pending, inFlight, serials := config, [], {}, 0;
    }

    method EnqueueBubble(serial: nat, id: string, recipient: Bytes) returns (m: OutboundMessage)
      requires Valid() && serial == serials
      modifies this
      ensures Valid() && fresh(m) && serials == old(serials) + 1
      ensures View() == Enqueue(old(View()), Message(serial, id, recipient, 0, None))
    {
      m := new OutboundMessage(serial, id, recipient);
      pending := pending + [m];
      serials := serials + 1;
    }

    /** pickDue: scan in enqueue order, mark the choice in flight. */
    method PickDue(now: int, seen: Recency) returns (best: OutboundMessage?)
      requires Valid()
      modifies this`inFlight
      ensures pending == old(pending) && Valid()
      ensures View() == Pick(old(View()), now, seen).0
      ensures best != null ==> best in pending && Pick(old(View()), now, seen).1 == Some(best.Value())
      ensures best == null ==> Pick(old(View()), now, seen).1 == None
    {
      best := null;
      ghost var b := -1;
      for i := 0 to |pending|
        invariant best == null <==> b == -1
        invariant -1 <= b < |pending| && (b >= 0 ==> best == pending[b])
        invariant Choose(View(), now, seen, 0, -1) == Choose(View(), now, seen, i, b)
      {
        var m := pending[i];
        if m.id in inFlight { continue; }
        if m.next.Some? && m.next.value > now { continue; }
        if best == null {
          best, b := m, i;
        } else {
          var mine, other := seen(m.recipient), seen(best.recipient);
          if mine.Some? && (other.None? || mine.value > other.value) { best, b := m, i; }
        }
      }
      if best != null {
        inFlight := inFlight + {best.id};
      }
    }

    lemma FindHere(k: nat)
      requires Valid() && k < |pending|
      ensures Find(View().pending, pending[k].serial) == k
    {
      FindOrdered(View().pending, k);
    }

    method BeginAttempt(m: OutboundMessage) returns (attempts: nat)
      requires Valid() && m in pending
      modifies m
      ensures Valid() && pending == old(pending) && attempts == m.attempts == old(m.attempts) + 1
      ensures View() == Begin(old(View()), m.serial)
    {
      ghost var k :| 0 <= k < |pending| && pending[k] == m;
      FindHere(k);
      m.attempts := m.attempts + 1;
      attempts := m.attempts;
      assert View().pending == Begin(old(View()), m.serial).pending;
    }

    ghost function Values(ms: seq<OutboundMessage>): (vs: seq<Message>)
      reads ms
      ensures |vs| == |ms| && forall i :: 0 <= i < |ms| ==> vs[i] == ms[i].Value()
    {
      seq(|ms|, i requires 0 <= i < |ms| reads ms => ms[i].Value())
    }

    lemma SpliceView(i: nat)
      requires i < |pending|
      ensures Values(pending[..i] + pending[i + 1..]) == View().pending[..i] + View().pending[i + 1..]
    {
    }

    /** removeLocked: find the message by address and splice it out. */
    method RemoveLocked(m: OutboundMessage)
      requires Valid()
      modifies this`pending
      ensures Valid()
      ensures m in old(pending) ==> View().pending == Without(old(View().pending), m.serial)
      ensures m !in old(pending) ==> pending == old(pending)
      ensures forall x :: x in pending ==> x in old(pending)
    {
      for i := 0 to |pending|
        invariant pending == old(pending) && m !in pending[..i]
      {
        if pending[i] == m {
          FindHere(i);
          SpliceView(i);
          pending := pending[..i] + pending[i + 1..];
          return;
        }
      }
    }

    method Reschedule(m: OutboundMessage, at: int)
      requires Valid() && m in pending
      modifies m`next
      ensures Valid()
      ensures View().pending == Rescheduled(old(View().pending), m.serial, at)
    {
      ghost var k :| 0 <= k < |pending| && pending[k] == m;
      FindHere(k);
      m.next := Some(at);
    }

    method Settle(m: OutboundMessage, attempts: nat, r: Sent, now: int)
      requires Valid() && m in pending
      modifies this`pending, m`next
      ensures Valid() && forall x :: x in pending ==> x in old(pending)
      ensures View().pending == Settled(old(View().pending), cfg, m.serial, attempts, r, now)
    {
      if r.Delivered? || attempts >= cfg.maxAttempts {
        RemoveLocked(m);
      } else {
        var wait := if r.recipientUnknown && attempts > cfg.pathlessTries then cfg.pathWait else cfg.retryWait;
        Reschedule(m, now + wait);
      }
    }

    method FinishAttempt(m: OutboundMessage, attempts: nat, r: Sent, now: int)
      requires Valid() && m in pending
      modifies this`pending, this`inFlight, m`next
      ensures Valid() && forall x :: x in pending ==> x in old(pending)
      ensures View() == Finish(old(View()), cfg, old(m.Value()), attempts, r, now)
    {
      Settle(m, attempts, r, now);
      ghost var settled := View().pending;
      inFlight := inFlight - {m.id};
      assert View().pending == settled;
    }

    /** processOnce: attempt every due message until none is left, whatever each send returns and however the
        clock, read before and after each send, moves. Every pass uses up one attempt, so it ends; and if the
        clock only moves on, a message sent twice was sent again no sooner than the shorter wait after. */
    method ProcessOnce(clock: nat -> int, seen: Recency, sends: nat -> Sent) returns (sent: seq<nat>)
      requires Valid() && WithinAttempts(View().pending, cfg.maxAttempts)
      modifies this, pending
      ensures Valid() && Pick(View(), clock(2 * |sent|), seen).1 == None
      ensures |sent| <= Budget(old(View()).pending, cfg.maxAttempts)
      ensures Ticks(clock) && Shortest(cfg) >= 0 ==> Spaced(sent, clock, Shortest(cfg))
    {
      sent := [];
      ghost var scope := set x | x in pending;
      while true
        invariant Valid() && WithinAttempts(View().pending, cfg.maxAttempts)
        invariant forall x :: x in pending ==> x in scope
        invariant |sent| + Budget(View().pending, cfg.maxAttempts) <= Budget(old(View()).pending, cfg.maxAttempts)
        invariant Ticks(clock) && Shortest(cfg) >= 0 ==> Resting(View().pending, sent, clock, Shortest(cfg))
        invariant Ticks(clock) && Shortest(cfg) >= 0 ==> Spaced(sent, clock, Shortest(cfg))
        decreases Budget(View().pending, cfg.maxAttempts)
      {
        ghost var before := View().pending;
        var now, r, later := clock(2 * |sent|), sends(|sent|), clock(2 * |sent| + 1);
        var p := OnePass(now, seen, r, later, scope);
        if p.None? { return; }
        PassSpaces(cfg, before, p.value, now, r, later, View().pending, sent, clock);
        sent := sent + [p.value.serial];
      }
    }

    /** Pick, attempt and settle one message, if any is due; it is returned as it was picked. */
    method OnePass(now: int, seen: Recency, r: Sent, later: int, ghost scope: set<OutboundMessage>)
      returns (p: Option<Message>)
      requires Valid() && WithinAttempts(View().pending, cfg.maxAttempts) && forall x :: x in pending ==> x in scope
      modifies this`pending, this`inFlight, scope
      ensures Valid() && WithinAttempts(View().pending, cfg.maxAttempts) && forall x :: x in pending ==> x in scope
      ensures p == Pick(old(View()), now, seen).1
      ensures match p
        case None => View() == old(View())
        case Some(m) =>
          && m in old(View().pending) && (m.next.Some? ==> m.next.value <= now)
          && Attempted(cfg, old(View().pending), m, r, later, View().pending)
          && Budget(View().pending, cfg.maxAttempts) < Budget(old(View().pending), cfg.maxAttempts)
    {
      ghost var start := View();
      var m := PickDue(now, seen);
      if m == null { return None; }
      p := Some(Message(m.serial, m.id, m.recipient, m.attempts, m.next));
      ghost var picked := View();
      var attempts := BeginAttempt(m);
      ghost var k := PassPicks(start, now, seen, p.value, picked, View());
      PassSpendsBudget(picked, cfg, m.Value(), r, later);
      FinishAttempt(m, attempts, r, later);
      AttemptDoes(cfg, start.pending, k, r, later, View().pending);
    }
  }

  lemma PassPicks(start: Queue, now: int, seen: Recency, p: Message, picked: Queue, begun: Queue) returns (k: nat)
    requires Ordered(start.pending) && Pick(start, now, seen) == (picked, Some(p)) && begun == Begin(picked, p.serial)
    ensures k < |start.pending| && start.pending[k] == p && (p.next.Some? ==> p.next.value <= now)
    ensures picked.pending == start.pending && begun.pending == start.pending[k := p.(attempts := p.attempts + 1)]
  {
    k := PickedAt(start, now, seen, p);
  }

  lemma AttemptDoes(cfg: Config, pending: seq<Message>, k: nat, r: Sent, later: int, after: seq<Message>)
    requires Ordered(pending) && k < |pending|
    requires var p := pending[k];
      after == Settled(pending[k := p.(attempts := p.attempts + 1)], cfg, p.serial, p.attempts + 1, r, later)
    ensures Attempted(cfg, pending, pending[k], r, later, after)
  {
    SettledAt(cfg, pending, k, r, later);
  }

  // ---- waits ----

  /** The wait a failed attempt earns: the path wait iff the recipient was unknown and the attempts that skip
      the path request are used up. */
  function WaitAfter(cfg: Config, attempts: nat, unknown: bool): int {
    if unknown && attempts > cfg.pathlessTries then cfg.pathWait else cfg.retryWait
  }

  function Shortest(cfg: Config): int {
    if cfg.pathWait < cfg.retryWait then cfg.pathWait else cfg.retryWait
  }

  ghost predicate Ticks(clock: nat -> int) {
    forall i: nat, j: nat :: i <= j ==> clock(i) <= clock(j)
  }

  /** The j-th send of a message sent before begins no sooner than the wait after the earlier one ended. */
  ghost predicate Spaced(sent: seq<nat>, clock: nat -> int, wait: int) {
    forall i, j :: 0 <= i < j < |sent| && sent[i] == sent[j] ==> clock(2 * j) >= clock(2 * i + 1) + wait
  }

  /** A message that was sent and is still queued waits that long. */
  ghost predicate Resting(pending: seq<Message>, sent: seq<nat>, clock: nat -> int, wait: int) {
    forall i, m :: 0 <= i < |sent| && m in pending && m.serial == sent[i] ==>
      m.next.Some? && m.next.value >= clock(2 * i + 1) + wait
  }

  /** With positive waits a drain under a standing clock sends each message at most once. */
  lemma StandingClockSendsOnce(sent: seq<nat>, clock: nat -> int, wait: int, i: nat, j: nat)
    requires Spaced(sent, clock, wait) && wait > 0 && (forall k: nat :: clock(k) == clock(0)) && i < j < |sent|
    ensures sent[i] != sent[j]
  {
    assert clock(2 * j) == clock(0) && clock(2 * i + 1) == clock(0);
  }

  /** What an attempt makes of a message it does not remove. */
  function PutOff(cfg: Config, p: Message, r: Sent, later: int): Message
    requires r.NotSent?
  {
    p.(attempts := p.attempts + 1, next := Some(later + WaitAfter(cfg, p.attempts + 1, r.recipientUnknown)))
  }

  /** Every other message is as it was, and this one is gone, or put off by the wait it earned. */
  ghost predicate Attempted(cfg: Config, pending: seq<Message>, p: Message, r: Sent, later: int, after: seq<Message>) {
    && Ordered(after)
    && forall m :: m in after ==>
      || (m in pending && m.serial != p.serial)
      || (r.NotSent? && p.attempts + 1 < cfg.maxAttempts && m == PutOff(cfg, p, r, later))
  }

  /** The queue once its k-th message has been attempted. */
  lemma SettledAt(cfg: Config, pending: seq<Message>, k: nat, r: Sent, later: int)
    requires Ordered(pending) && k < |pending|
    ensures var p := pending[k]; var begun := pending[k := p.(attempts := p.attempts + 1)];
      Attempted(cfg, pending, p, r, later, Settled(begun, cfg, p.serial, p.attempts + 1, r, later))
  {
    var p, n := pending[k], pending[k].attempts + 1;
    var begun := pending[k := p.(attempts := n)];
    FindOrdered(begun, k);
    if r.Delivered? || n >= cfg.maxAttempts {
      WithoutExact(begun, p.serial);
    } else {
      assert Settled(begun, cfg, p.serial, n, r, later) == pending[k := PutOff(cfg, p, r, later)];
    }
  }

  lemma PickedAt(q: Queue, now: int, seen: Recency, p: Message) returns (k: nat)
    requires Ordered(q.pending) && Pick(q, now, seen).1 == Some(p)
    ensures k < |q.pending| && q.pending[k] == p && Find(q.pending, p.serial) == k
    ensures p.next.Some? ==> p.next.value <= now
  {
    ChoiceIsArgmax(q, now, seen);
    k := Choose(q, now, seen, 0, -1);
    FindOrdered(q.pending, k);
  }

  lemma PassSpaces(cfg: Config, q: seq<Message>, p: Message, now: int, r: Sent, later: int, after: seq<Message>,
                   sent: seq<nat>, clock: nat -> int)
    requires p in q && (p.next.Some? ==> p.next.value <= now) && Attempted(cfg, q, p, r, later, after)
    requires now == clock(2 * |sent|) && later == clock(2 * |sent| + 1)
    ensures var wait := Shortest(cfg);
      Ticks(clock) && wait >= 0 && Resting(q, sent, clock, wait) && Spaced(sent, clock, wait) ==>
        Resting(after, sent + [p.serial], clock, wait) && Spaced(sent + [p.serial], clock, wait)
  {
    var wait, all := Shortest(cfg), sent + [p.serial];
    if Ticks(clock) && wait >= 0 && Resting(q, sent, clock, wait) && Spaced(sent, clock, wait) {
      forall i, m | 0 <= i < |all| && m in after && m.serial == all[i]
        ensures m.next.Some? && m.next.value >= clock(2 * i + 1) + wait
      {
        if m.serial == p.serial {
          assert clock(2 * i + 1) <= later;
        } else {
          assert m in q && all[i] == sent[i];
        }
      }
      forall i, j | 0 <= i < j < |all| && all[i] == all[j] ensures clock(2 * j) >= clock(2 * i + 1) + wait {
        if j == |sent| { assert sent[i] == p.serial; }
      }
    }
  }

  function Allowance(m: Message, max: nat): nat {
    if m.attempts <= max then max - m.attempts + 1 else 0
  }

  /** Attempts still allowed over the whole queue, and one more per message for its removal. */
  function Budget(pending: seq<Message>, max: nat): nat {
    if pending == [] then 0 else Allowance(pending[0], max) + Budget(pending[1..], max)
  }

  lemma {:induction false} BudgetSplit(a: seq<Message>, b: seq<Message>, max: nat)
    ensures Budget(a + b, max) == Budget(a, max) + Budget(b, max)
  {
    if a == [] {
      assert a + b == b;
    } else {
      assert (a + b)[1..] == a[1..] + b;
      BudgetSplit(a[1..], b, max);
    }
  }

  lemma BudgetAt(pending: seq<Message>, k: nat, m: Message, max: nat)
    requires k < |pending|
    ensures Budget(pending[k := m], max) == Budget(pending, max) - Allowance(pending[k], max) + Allowance(m, max)
    ensures Budget(pending[..k] + pending[k + 1..], max) == Budget(pending, max) - Allowance(pending[k], max)
  {
    var a, b := pending[..k], pending[k + 1..];
    assert pending == a + ([pending[k]] + b) && pending[k := m] == a + ([m] + b);
    BudgetSplit(a, [pending[k]] + b, max);
    BudgetSplit(a, [m] + b, max);
    BudgetSplit(a, b, max);
  }

  ghost predicate WithinAttempts(pending: seq<Message>, max: nat) {
    forall i :: 0 <= i < |pending| ==> pending[i].attempts <= max
  }

  lemma RescheduleKeepsBudget(pending: seq<Message>, serial: nat, at: int, max: nat)
    ensures Budget(Rescheduled(pending, serial, at), max) == Budget(pending, max)
    ensures WithinAttempts(pending, max) ==> WithinAttempts(Rescheduled(pending, serial, at), max)
  {
    var k := Find(pending, serial);
    if k >= 0 { BudgetAt(pending, k, pending[k].(next := Some(at)), max); }
  }

  lemma RemoveSpendsBudget(pending: seq<Message>, k: nat, max: nat)
    requires Ordered(pending) && k < |pending|
    requires forall j :: 0 <= j < |pending| && j != k ==> pending[j].attempts <= max
    ensures Budget(Without(pending, pending[k].serial), max) == Budget(pending, max) - Allowance(pending[k], max)
    ensures WithinAttempts(Without(pending, pending[k].serial), max)
  {
    FindOrdered(pending, k);
    BudgetAt(pending, k, pending[k], max);
    assert Without(pending, pending[k].serial) == pending[..k] + pending[k + 1..];
  }

  /** Settling an outcome never adds work, and drops a message that has had all its attempts. */
  lemma SettleKeepsBudget(pending: seq<Message>, k: nat, cfg: Config, r: Sent, now: int)
    requires Ordered(pending) && k < |pending|
    requires forall j :: 0 <= j < |pending| && j != k ==> pending[j].attempts <= cfg.maxAttempts
    ensures Budget(Settled(pending, cfg, pending[k].serial, pending[k].attempts, r, now), cfg.maxAttempts) <=
      Budget(pending, cfg.maxAttempts)
    ensures WithinAttempts(Settled(pending, cfg, pending[k].serial, pending[k].attempts, r, now), cfg.maxAttempts)
  {
    if r.Delivered? || pending[k].attempts >= cfg.maxAttempts {
      RemoveSpendsBudget(pending, k, cfg.maxAttempts);
    } else {
      PutOffKeepsBudget(pending, cfg, pending[k].serial, pending[k].attempts, r, now);
    }
  }

  lemma PutOffKeepsBudget(pending: seq<Message>, cfg: Config, serial: nat, attempts: nat, r: Sent, now: int)
    requires WithinAttempts(pending, cfg.maxAttempts) && r.NotSent? && attempts < cfg.maxAttempts
    ensures Budget(Settled(pending, cfg, serial, attempts, r, now), cfg.maxAttempts) <= Budget(pending, cfg.maxAttempts)
    ensures WithinAttempts(Settled(pending, cfg, serial, attempts, r, now), cfg.maxAttempts)
  {
    if r.recipientUnknown && attempts > cfg.pathlessTries {
      RescheduleKeepsBudget(pending, serial, now + cfg.pathWait, cfg.maxAttempts);
    } else {
      RescheduleKeepsBudget(pending, serial, now + cfg.retryWait, cfg.maxAttempts);
    }
  }

  /** One attempt, whatever its outcome, leaves less to do. */
  lemma PassSpendsBudget(q: Queue, cfg: Config, m: Message, r: Sent, now: int)
    requires Ordered(q.pending) && WithinAttempts(q.pending, cfg.maxAttempts)
    requires m.attempts > 0 && m.(attempts := m.attempts - 1) in q.pending
    ensures var q1 := Finish(Begin(q, m.serial), cfg, m, m.attempts, r, now);
      && Budget(q1.pending, cfg.maxAttempts) < Budget(q.pending, cfg.maxAttempts)
      && WithinAttempts(q1.pending, cfg.maxAttempts)
  {
    var k :| 0 <= k < |q.pending| && q.pending[k] == m.(attempts := m.attempts - 1);
    FindOrdered(q.pending, k);
    var begun := q.pending[k := m];
    assert Begin(q, m.serial).pending == begun;
    BudgetAt(q.pending, k, m, cfg.maxAttempts);
    SettleKeepsBudget(begun, k, cfg, r, now);
  }
}
