/** The receiving half of a Resource transfer: placement, hashmap growth, requests, reassembly. */
module ResourceReceiver {
  import opened Octets
  import opened ResourceHash
  import opened ResourceWire
  import Token

  /** What the receiver captures from the advertisement and the link, fixed afterwards. */
  datatype Session = Session(
    prim: Primitives, hash: Bytes, random: Bytes, expectedSize: int, dataSize: int, signing: Bytes, encryption: Bytes)

  /** The mutable fields of a receiver. */
  datatype Rx = Rx(
    hashmap: Bytes, known: int, parts: seq<Bytes>, flags: seq<bool>, count: int, height: int, target: int)

  datatype Placed = Placed(slot: int) | Duplicate | Unknown

  datatype HmuError = WrongResource | WrongSegment | TooLong

  datatype AssembleError = SizeMismatch | DecryptFailed | NoPrefix | HashMismatch

  // ---- state invariants ----

  function CountTrue(flags: seq<bool>): nat {
    if flags == [] then 0 else (if flags[0] then 1 else 0) + CountTrue(flags[1..])
  }

  predicate Shape(x: Rx) {
    && |x.hashmap| == 4 * |x.parts| && |x.flags| == |x.parts|
    && 0 <= x.known <= |x.parts| && -1 <= x.height < |x.parts|
  }

  /** What every receiver state keeps, whatever arrives. */
  ghost predicate Valid(x: Rx) {
    && Shape(x)
    && x.count == CountTrue(x.flags)
    && (forall i :: 0 <= i <= x.height ==> x.flags[i])
    && (x.height + 1 < |x.parts| ==> !x.flags[x.height + 1])
    && (forall i :: 0 <= i < |x.parts| && x.flags[i] ==> i < x.known)
  }

  /** Every filled slot holds a part with that slot's fingerprint. */
  ghost predicate Matched(s: Session, x: Rx)
    requires Shape(x)
  {
    forall i :: 0 <= i < |x.parts| && x.flags[i] ==> MapHash(s.prim, x.parts[i], s.random) == Entry(x.hashmap, i)
  }

  // ---- specification functions ----

  function Open(a: Adv): (x: Rx)
    requires ParseAdv(a).Ok?
    ensures Valid(x) && x.known >= 1 && |x.parts| == a.numParts && x.count == 0
  {
    var n := a.numParts;
    CountNone(seq(n, _ => false));
    Rx(a.hashmap + Repeat(0, 4 * n - |a.hashmap|), |a.hashmap| / 4, seq(n, _ => []), seq(n, _ => false), 0, -1, 0)
  }

  function Base(x: Rx): int { if x.height < 0 then 0 else x.height }

  function End(x: Rx): int { if Base(x) + GUARD > x.known then x.known else Base(x) + GUARD }

  /** The placement scan from slot i, having seen a filled match before iff `dup`. */
  function Scan(x: Rx, mh: Bytes, i: int, end: int, dup: bool): Placed
    requires Shape(x) && 0 <= i && end <= x.known
    decreases end - i
  {
    if i >= end then (if dup then Duplicate else Unknown)
    else if Entry(x.hashmap, i) != mh then Scan(x, mh, i + 1, end, dup)
    else if x.flags[i] then Scan(x, mh, i + 1, end, true)
    else Placed(i)
  }

  function Advance(flags: seq<bool>, h: int): (r: int)
    requires -1 <= h < |flags| || h == -1
    ensures h <= r && (r < |flags| || r == -1)
    ensures forall i :: h < i <= r ==> flags[i]
    ensures r + 1 < |flags| ==> !flags[r + 1]
    decreases |flags| - h
  {
    if h + 1 < |flags| && flags[h + 1] then Advance(flags, h + 1) else h
  }

  function Filled(x: Rx, i: int, part: Bytes): Rx
    requires Shape(x) && 0 <= i < |x.parts|
  {
    var flags := x.flags[i := true];
    x.(parts := x.parts[i := part], flags := flags, count := x.count + 1, height := Advance(flags, x.height))
  }

  lemma {:induction false} ScanBounds(x: Rx, mh: Bytes, i: int, end: int, dup: bool)
    requires Shape(x) && 0 <= i && end <= x.known
    ensures var r := Scan(x, mh, i, end, dup);
      r.Placed? ==> i <= r.slot < end && !x.flags[r.slot] && Entry(x.hashmap, r.slot) == mh
    decreases end - i
  {
    if i < end && (Entry(x.hashmap, i) != mh || x.flags[i]) {
      ScanBounds(x, mh, i + 1, end, dup || Entry(x.hashmap, i) == mh);
    }
  }

  function PlacePart(s: Session, x: Rx, part: Bytes): (r: (Rx, Placed))
    requires Shape(x)
    ensures Shape(r.0) && |r.0.parts| == |x.parts|
  {
    var mh := MapHash(s.prim, part, s.random);
    ScanBounds(x, mh, Base(x), End(x), false);
    match Scan(x, mh, Base(x), End(x), false)
    case Placed(i) => (Filled(x, i, part), Placed(i))
    case r => (x, r)
  }

  function ApplyHmu(s: Session, x: Rx, h: ParsedHmu): (r: Result<Rx, HmuError>)
    requires Shape(x)
    ensures r.Ok? ==> Shape(r.value) && |r.value.parts| == |x.parts|
  {
    if h.resourceHash != s.hash then Err(WrongResource)
    else if h.segment != x.known / SEGMENT then Err(WrongSegment)
    else
      var remaining := |x.parts| - x.known;
      var want := if remaining < SEGMENT then remaining * 4 else SEGMENT * 4;
      if |h.hashmap| > want then Err(TooLong)
      else
        var off := 4 * x.known;
        Ok(x.(hashmap := x.hashmap[..off] + h.hashmap + x.hashmap[off + |h.hashmap|..],
              known := x.known + |h.hashmap| / 4))
  }

  /** The first k unfilled slots of [i, limit). */
  function Missing(flags: seq<bool>, i: int, limit: int, k: nat): seq<int>
    requires 0 <= i && limit <= |flags|
    decreases limit - i
  {
    if i >= limit || k == 0 then []
    else if flags[i] then Missing(flags, i + 1, limit, k)
    else [i] + Missing(flags, i + 1, limit, k - 1)
  }

  /** They start with the first unfilled slot, and there are none without one. */
  lemma {:induction false} MissingStart(flags: seq<bool>, i: int, limit: int, k: nat, f: int)
    requires 0 <= i <= f <= limit <= |flags| && k > 0
    requires (forall j :: i <= j < f ==> flags[j]) && (f < limit ==> !flags[f])
    ensures var m := Missing(flags, i, limit, k); if f < limit then m != [] && m[0] == f else m == []
    decreases f - i
  {
    if i < f { MissingStart(flags, i + 1, limit, k, f); }
  }

  function PrintsAt(hashmap: Bytes, slots: seq<int>): (ms: seq<Bytes>)
    requires SlotsIn(hashmap, slots)
    ensures |ms| == |slots| && AllPrints(ms)
    ensures forall i :: 0 <= i < |slots| ==> ms[i] == Entry(hashmap, slots[i])
  {
    seq(|slots|, i requires 0 <= i < |slots| => Entry(hashmap, slots[i]))
  }

  predicate AllKnownReceived(x: Rx)
    requires Shape(x)
  {
    forall i :: 0 <= i < x.known ==> x.flags[i]
  }

  predicate Exhausted(x: Rx)
    requires Shape(x)
  {
    AllKnownReceived(x) && 0 < x.known < |x.parts|
  }

  function Wanted(x: Rx): (slots: seq<int>)
    requires Shape(x)
    ensures |slots| <= WINDOW
    ensures forall i :: 0 <= i < |slots| ==> 0 <= slots[i] < x.known && !x.flags[slots[i]]
    ensures forall i, j :: 0 <= i < j < |slots| ==> slots[i] < slots[j]
    ensures |slots| < WINDOW ==> forall i :: 0 <= i < x.known && !x.flags[i] ==> i in slots
    ensures slots == [] ==> AllKnownReceived(x)
    ensures slots != [] ==> forall i :: 0 <= i < slots[0] ==> x.flags[i]
  {
    MissingSpec(x.flags, x.known, WINDOW);
    Missing(x.flags, 0, x.known, WINDOW)
  }

  function RequestNext(s: Session, x: Rx): (r: (Rx, Option<Request>))
    requires Shape(x)
    ensures Shape(r.0) && |r.0.parts| == |x.parts|
  {
    var wanted := Wanted(x);
    var last := if Exhausted(x) then Entry(x.hashmap, x.known - 1) else [];
    (x.(target := x.count + |wanted|),
     if wanted == [] && !Exhausted(x) then None
     else Some(Request(Exhausted(x), last, s.hash, PrintsAt(x.hashmap, wanted))))
  }

  function Assemble(s: Session, x: Rx): Result<Bytes, AssembleError> {
    AssembleParts(s, x.parts)
  }

  function AssembleParts(s: Session, parts: seq<Bytes>): Result<Bytes, AssembleError> {
    var stream := Concat(parts);
    if |stream| != s.expectedSize then Err(SizeMismatch)
    else match Token.LinkDecrypt(s.prim, stream, s.signing, s.encryption)
      case Err(_) => Err(DecryptFailed)
      case Ok(plaintext) =>
        if |plaintext| < RANDOM_LEN then Err(NoPrefix)
        else
          var body := plaintext[RANDOM_LEN..];
          if |body| != s.dataSize then Err(SizeMismatch)
          else if Hash(s.prim, body, s.random) != s.hash then Err(HashMismatch)
          else Ok(body)
  }

  /** The proof packet body broadcastProof emits for an assembled resource. */
  function FinalProof(s: Session, x: Rx): Proof
    requires Assemble(s, x).Ok?
  {
    Proof(s.hash, ExpectedProof(s.prim, Assemble(s, x).value, s.hash))
  }

  datatype Event = Timer | PartIn(part: Bytes) | HmuIn(hmu: ParsedHmu) | CancelIn | Deadline

  /** One pass of the select loop for the events that do not end it. */
  function Handle(s: Session, x: Rx, e: Event): (r: (Rx, Option<Request>))
    requires Shape(x)
    ensures Shape(r.0) && |r.0.parts| == |x.parts|
  {
    match e
    case Timer => RequestNext(s, x)
    case PartIn(part) =>
      var (x1, r) := PlacePart(s, x, part);
      if r.Placed? && x1.count >= x1.target && x1.count < |x1.parts| then RequestNext(s, x1) else (x1, None)
    case HmuIn(h) =>
      (match ApplyHmu(s, x, h)
       case Err(_) => (x, None)
       case Ok(x1) => RequestNext(s, x1))
    case CancelIn => (x, None)
    case Deadline => (x, None)
  }

  datatype Outcome = Waiting | Cancelled | TimedOut | Corrupt | Complete(body: Bytes, proof: Proof)

  datatype Trace = Trace(rx: Rx, requests: seq<Request>, outcome: Outcome)

  /** The whole receive loop over the events it selects, in order. */
  function RunLoop(s: Session, x: Rx, events: seq<Event>): (r: Trace)
    requires Shape(x)
    ensures Shape(r.rx) && |r.rx.parts| == |x.parts| && (r.outcome.Waiting? ==> r.rx.count < |x.parts|)
    decreases |events|
  {
    if x.count >= |x.parts| then
      Trace(x, [], match Assemble(s, x) case Err(_) => Corrupt case Ok(body) => Complete(body, FinalProof(s, x)))
    else if events == [] then Trace(x, [], Waiting)
    else if events[0].CancelIn? then Trace(x, [], Cancelled)
    else if events[0].Deadline? then Trace(x, [], TimedOut)
    else
      var (x1, out) := Handle(s, x, events[0]);
      Prefixed(Emitted(out), RunLoop(s, x1, events[1..]))
  }

  /** Run: ask for the first window, then the loop. */
  function Receive(s: Session, x: Rx, events: seq<Event>): Trace
    requires Shape(x)
  {
    var (x1, out) := RequestNext(s, x);
    Prefixed(Emitted(out), RunLoop(s, x1, events))
  }

  function Prefixed(sent: seq<Request>, t: Trace): Trace {
    t.(requests := sent + t.requests)
  }

  function Emitted(out: Option<Request>): seq<Request> {
    match out case None => [] case Some(q) => [q]
  }

  // ---- lemmas about the pieces ----

  lemma {:induction false} CountNone(flags: seq<bool>)
    requires forall i :: 0 <= i < |flags| ==> !flags[i]
    ensures CountTrue(flags) == 0
  {
    if flags != [] { CountNone(flags[1..]); }
  }

  lemma {:induction false} CountSet(flags: seq<bool>, i: int)
    requires 0 <= i < |flags| && !flags[i]
    ensures CountTrue(flags[i := true]) == CountTrue(flags) + 1
  {
    if i == 0 {
      assert flags[0 := true][1..] == flags[1..];
    } else {
      assert flags[i := true][1..] == flags[1..][i - 1 := true];
      CountSet(flags[1..], i - 1);
    }
  }

  lemma {:induction false} CountFull(flags: seq<bool>)
    ensures CountTrue(flags) <= |flags|
    ensures CountTrue(flags) == |flags| <==> forall i :: 0 <= i < |flags| ==> flags[i]
  {
    if flags != [] {
      CountFull(flags[1..]);
      if CountTrue(flags) == |flags| {
        forall i | 0 <= i < |flags| ensures flags[i] { if i > 0 { assert flags[1..][i - 1]; } }
      }
    }
  }

  lemma {:induction false} MissingBounds(flags: seq<bool>, i: int, limit: int, k: nat)
    requires 0 <= i && limit <= |flags|
    ensures var m := Missing(flags, i, limit, k);
      && |m| <= k
      && (forall q :: 0 <= q < |m| ==> i <= m[q] < limit && !flags[m[q]])
      && (forall p, q :: 0 <= p < q < |m| ==> m[p] < m[q])
    decreases limit - i
  {
    if i < limit && k > 0 {
      MissingBounds(flags, i + 1, limit, if flags[i] then k else k - 1);
    }
  }

  lemma {:induction false} MissingCovers(flags: seq<bool>, i: int, limit: int, k: nat, j: int)
    requires 0 <= i <= j < limit <= |flags| && !flags[j] && |Missing(flags, i, limit, k)| < k
    ensures j in Missing(flags, i, limit, k)
    decreases limit - i
  {
    if i < j {
      MissingCovers(flags, i + 1, limit, if flags[i] then k else k - 1, j);
    }
  }

  /** Nothing unfilled comes before the first missing slot. */
  lemma {:induction false} MissingFirst(flags: seq<bool>, i: int, limit: int, k: nat, j: int)
    requires 0 <= i <= j < limit <= |flags| && k > 0 && !flags[j]
    ensures var m := Missing(flags, i, limit, k); m != [] && m[0] <= j
    decreases limit - i
  {
    if flags[i] { MissingFirst(flags, i + 1, limit, k, j); }
  }

  lemma MissingSpec(flags: seq<bool>, limit: int, k: nat)
    requires 0 <= limit <= |flags| && k > 0
    ensures var m := Missing(flags, 0, limit, k);
      && |m| <= k
      && (forall q :: 0 <= q < |m| ==> 0 <= m[q] < limit && !flags[m[q]])
      && (forall p, q :: 0 <= p < q < |m| ==> m[p] < m[q])
      && (|m| < k ==> forall j :: 0 <= j < limit && !flags[j] ==> j in m)
      && (m != [] ==> forall j :: 0 <= j < m[0] ==> flags[j])
      && (m == [] ==> forall j :: 0 <= j < limit ==> flags[j])
  {
    var m := Missing(flags, 0, limit, k);
    MissingBounds(flags, 0, limit, k);
    forall j | 0 <= j < limit && !flags[j] && |m| < k ensures j in m { MissingCovers(flags, 0, limit, k, j); }
    forall j | 0 <= j < limit && !flags[j] ensures m != [] && m[0] <= j { MissingFirst(flags, 0, limit, k, j); }
  }

  predicate SlotsIn(hashmap: Bytes, slots: seq<int>) {
    forall i :: 0 <= i < |slots| ==> 0 <= slots[i] && 4 * slots[i] + 4 <= |hashmap|
  }

  lemma PrintsSnoc(hashmap: Bytes, slots: seq<int>, k: int)
    requires SlotsIn(hashmap, slots) && 0 <= k && 4 * k + 4 <= |hashmap|
    ensures SlotsIn(hashmap, slots + [k])
    ensures PrintsAt(hashmap, slots + [k]) == PrintsAt(hashmap, slots) + [Entry(hashmap, k)]
  {
  }

  lemma MissingTake(flags: seq<bool>, i: int, limit: int, k: nat, done: seq<int>)
    requires 0 <= i < limit <= |flags| && k > 0
    ensures done + Missing(flags, i, limit, k) ==
      if flags[i] then done + Missing(flags, i + 1, limit, k) else (done + [i]) + Missing(flags, i + 1, limit, k - 1)
  {
    if !flags[i] {
      var rest := Missing(flags, i + 1, limit, k - 1);
      assert done + ([i] + rest) == (done + [i]) + rest;
    }
  }

  // ---- the class ----

  class Receiver {
    const s: Session
    var hashmap: Bytes
    var known: int
    var parts: seq<Bytes>
    var flags: seq<bool>
    var count: int
    var height: int
    var target: int

    ghost function View(): Rx
      reads this
    {
      Rx(hashmap, known, parts, flags, count, height, target)
    }

    /** openResourceReceiver on a validated advertisement. */
    constructor (session: Session, a: Adv)
      requires ParseAdv(a).Ok?
      ensures s == session && View() == Open(a)
    {
      s := session;
      var n := a.numParts;
      hashmap := a.hashmap + Repeat(0, 4 * n - |a.hashmap|);
      known := if |a.hashmap| / 4 > n then n else |a.hashmap| / 4;
      parts := seq(n, _ => []);
      flags := seq(n, _ => false);
      count, height, target := 0, -1, 0;
    }

    /** Store the part and move the consecutive frontier. */
    method Fill(i: int, part: Bytes)
      requires Shape(View()) && 0 <= i < |parts|
      modifies this
      ensures View() == Filled(old(View()), i, part)
    {
      parts := parts[i := part];
      flags := flags[i := true];
      count := count + 1;
      ghost var x := View();
      while height + 1 < |parts| && flags[height + 1]
        invariant -1 <= height < |flags|
        invariant View() == x.(height := height)
        invariant Advance(flags, height) == Advance(flags, old(height))
      {
        height := height + 1;
      }
    }

    method Place(part: Bytes) returns (r: Placed)
      requires Shape(View())
      modifies this
      ensures (View(), r) == PlacePart(s, old(View()), part)
    {
      var mh := MapHash(s.prim, part, s.random);
      var base := if height < 0 then 0 else height;
      var end := base + GUARD;
      if end > known { end := known; }
      var dup := false;
      var i := base;
      while i < end
        invariant base <= i && View() == old(View())
        invariant Scan(View(), mh, base, end, false) == Scan(View(), mh, i, end, dup)
      {
        if Entry(hashmap, i) == mh {
          if !flags[i] {
            Fill(i, part);
            return Placed(i);
          }
          dup := true;
        }
        i := i + 1;
      }
      return if dup then Duplicate else Unknown;
    }

    method WindowComplete() returns (b: bool)
      ensures b <==> count >= target
    {
      return count >= target;
    }

    method ExtendHashmap(h: ParsedHmu) returns (ok: bool)
      requires Shape(View())
      modifies this
      ensures match ApplyHmu(s, old(View()), h)
        case Err(_) => !ok && View() == old(View())
        case Ok(x) => ok && View() == x
    {
      if h.resourceHash != s.hash { return false; }
      if h.segment != known / SEGMENT { return false; }
      var want := SEGMENT * 4;
      var remaining := |parts| - known;
      if remaining < SEGMENT { want := remaining * 4; }
      if |h.hashmap| > want { return false; }
      var off := known * 4;
      hashmap := hashmap[..off] + h.hashmap + hashmap[off + |h.hashmap|..];
      known := known + |h.hashmap| / 4;
      return true;
    }

    /** The fingerprints of the first WINDOW unfilled known slots. */
    method CollectWanted() returns (requested: seq<Bytes>)
      requires Shape(View())
      ensures requested == PrintsAt(hashmap, Wanted(View()))
    {
      requested := [];
      ghost var done: seq<int> := [];
      var i := 0;
      while i < known && |requested| < WINDOW
        invariant 0 <= i <= known && |requested| <= WINDOW
        invariant SlotsIn(hashmap, done) && requested == PrintsAt(hashmap, done)
        invariant done + Missing(flags, i, known, WINDOW - |requested|) == Missing(flags, 0, known, WINDOW)
      {
        MissingTake(flags, i, known, WINDOW - |requested|, done);
        if !flags[i] {
          PrintsSnoc(hashmap, done, i);
          requested := requested + [Entry(hashmap, i)];
          done := done + [i];
        }
        i := i + 1;
      }
      assert done == Wanted(View());
    }

    method AllKnown() returns (b: bool)
      requires Shape(View())
      ensures b <==> AllKnownReceived(View())
    {
      for i := 0 to known
        invariant forall j :: 0 <= j < i ==> flags[j]
      {
        if !flags[i] { return false; }
      }
      return true;
    }

    method RequestNextWindow() returns (out: Option<Request>)
      requires Shape(View())
      modifies this
      ensures (View(), out) == RequestNext(s, old(View()))
    {
      var requested := CollectWanted();
      var allKnown := AllKnown();
      var exhausted := allKnown && known < |parts| && known > 0;
      var last: Bytes := [];
      if exhausted { last := Entry(hashmap, known - 1); }
      target := count + |requested|;
      if |requested| == 0 && !exhausted { return None; }
      return Some(Request(exhausted, last, s.hash, requested));
    }

    method Reassemble() returns (r: Result<Bytes, AssembleError>)
      ensures r == Assemble(s, View())
    {
      var stream: Bytes := [];
      for i := 0 to |parts|
        invariant stream == Concat(parts[..i])
      {
        ConcatSnoc(parts[..i], parts[i]);
        assert parts[..i] + [parts[i]] == parts[..i + 1];
        stream := stream + parts[i];
      }
      assert parts[..|parts|] == parts;
      if |stream| != s.expectedSize { return Err(SizeMismatch); }
      var d := Token.LinkDecrypt(s.prim, stream, s.signing, s.encryption);
      if d.Err? { return Err(DecryptFailed); }
      if |d.value| < RANDOM_LEN { return Err(NoPrefix); }
      var body := d.value[RANDOM_LEN..];
      if |body| != s.dataSize { return Err(SizeMismatch); }
      if Hash(s.prim, body, s.random) != s.hash { return Err(HashMismatch); }
      return Ok(body);
    }

    /** One case of the select. */
    method Dispatch(e: Event) returns (out: Option<Request>)
      requires Shape(View())
      modifies this
      ensures (View(), out) == Handle(s, old(View()), e)
    {
      out := None;
      match e {
        case Timer =>
          out := RequestNextWindow();
        case PartIn(part) =>
          var r := Place(part);
          if r.Placed? {
            var drained := WindowComplete();
            if drained && count < |parts| { out := RequestNextWindow(); }
          }
        case HmuIn(h) =>
          var ok := ExtendHashmap(h);
          if ok { out := RequestNextWindow(); }
        case _ =>
      }
    }

    /** The first request and the receive loop, fed the events its select picks. */
    method Run(events: seq<Event>) returns (requests: seq<Request>, outcome: Outcome)
      requires Shape(View())
      modifies this
      ensures Trace(View(), requests, outcome) == Receive(s, old(View()), events)
    {
      var first := RequestNextWindow();
      requests := Emitted(first);
      var k := 0;
      while count < |parts|
        invariant 0 <= k <= |events| && Shape(View())
        invariant Prefixed(requests, RunLoop(s, View(), events[k..])) == Receive(s, old(View()), events)
        decreases |events| - k
      {
        if k == |events| { return requests, Waiting; }
        var e := events[k];
        assert events[k..][0] == e && events[k..][1..] == events[k + 1..];
        if e.CancelIn? { return requests, Cancelled; }
        if e.Deadline? { return requests, TimedOut; }
        RunLoopStep(s, View(), events[k..], requests);
        var out := Dispatch(e);
        requests := requests + Emitted(out);
        k := k + 1;
      }
      var r := Reassemble();
      match r {
        case Err(_) => return requests, Corrupt;
        case Ok(body) => return requests, Complete(body, Proof(s.hash, ExpectedProof(s.prim, body, s.hash)));
      }
    }
  }

  lemma PrefixedTwice(sent: seq<Request>, out: seq<Request>, t: Trace)
    ensures Prefixed(sent, t.(requests := out + t.requests)) == Prefixed(sent + out, t)
  {
    assert sent + (out + t.requests) == sent + out + t.requests;
  }

  lemma RunLoopStep(s: Session, x: Rx, events: seq<Event>, sent: seq<Request>)
    requires Shape(x) && x.count < |x.parts| && events != [] && !events[0].CancelIn? && !events[0].Deadline?
    ensures Prefixed(sent, RunLoop(s, x, events)) ==
            Prefixed(sent + Emitted(Handle(s, x, events[0]).1), RunLoop(s, Handle(s, x, events[0]).0, events[1..]))
  {
    PrefixedTwice(sent, Emitted(Handle(s, x, events[0]).1), RunLoop(s, Handle(s, x, events[0]).0, events[1..]));
  }

  // ---- what any channel keeps ----

  lemma FilledValid(x: Rx, i: int, part: Bytes)
    requires Valid(x) && 0 <= i < x.known && !x.flags[i]
    ensures Valid(Filled(x, i, part))
  {
    CountSet(x.flags, i);
  }

  /** The known prefix never shrinks or passes the part count, and no filled slot is emptied. */
  ghost predicate Grown(x: Rx, x1: Rx) {
    && Valid(x1) && |x1.parts| == |x.parts| && x.known <= x1.known <= |x1.parts| && x.count <= x1.count
    && |x.flags| == |x.parts|
    && forall i :: 0 <= i < |x.parts| && x.flags[i] ==> x1.flags[i] && x1.parts[i] == x.parts[i]
  }

  lemma PlaceGrows(s: Session, x: Rx, part: Bytes)
    requires Valid(x)
    ensures Grown(x, PlacePart(s, x, part).0)
  {
    var mh := MapHash(s.prim, part, s.random);
    ScanBounds(x, mh, Base(x), End(x), false);
    var r := Scan(x, mh, Base(x), End(x), false);
    if r.Placed? { FilledValid(x, r.slot, part); }
  }

  lemma HmuGrows(s: Session, x: Rx, h: ParsedHmu)
    requires Valid(x) && ApplyHmu(s, x, h).Ok?
    ensures Grown(x, ApplyHmu(s, x, h).value)
  {
  }

  lemma RequestGrows(s: Session, x: Rx, x1: Rx)
    requires Grown(x, x1)
    ensures Grown(x, RequestNext(s, x1).0)
  {
  }

  /** Whatever part or parsed HMU arrives, or timer fires, the receiver stays consistent and only grows. */
  lemma AnyEventKeepsValid(s: Session, x: Rx, e: Event)
    requires Valid(x)
    ensures Grown(x, Handle(s, x, e).0)
  {
    match e
    case PartIn(part) =>
      PlaceGrows(s, x, part);
      RequestGrows(s, x, PlacePart(s, x, part).0);
    case HmuIn(h) =>
      if ApplyHmu(s, x, h).Ok? {
        HmuGrows(s, x, h);
        RequestGrows(s, x, ApplyHmu(s, x, h).value);
      }
    case Timer => RequestGrows(s, x, x);
    case _ =>
  }

  lemma HmuEntries(s: Session, x: Rx, h: ParsedHmu)
    requires Valid(x) && ApplyHmu(s, x, h).Ok?
    ensures var x1 := ApplyHmu(s, x, h).value;
      && Shape(x1)
      && (forall i :: 0 <= i < x.known ==> Entry(x1.hashmap, i) == Entry(x.hashmap, i))
      && (forall i :: x.known <= i < x1.known ==> Entry(x1.hashmap, i) == Entry(h.hashmap, i - x.known))
  {
    var x1 := ApplyHmu(s, x, h).value;
    forall i | x.known <= i < x1.known ensures Entry(x1.hashmap, i) == Entry(h.hashmap, i - x.known) {
      assert x1.hashmap[4 * i..4 * i + 4] == h.hashmap[4 * (i - x.known)..4 * (i - x.known) + 4];
    }
  }

  /** A filled slot always matches its fingerprint, whatever was injected. */
  lemma AnyEventKeepsMatched(s: Session, x: Rx, e: Event)
    requires Valid(x) && Matched(s, x)
    ensures Shape(Handle(s, x, e).0) && Matched(s, Handle(s, x, e).0)
  {
    match e
    case PartIn(part) =>
      ScanBounds(x, MapHash(s.prim, part, s.random), Base(x), End(x), false);
    case HmuIn(h) =>
      if ApplyHmu(s, x, h).Ok? { HmuEntries(s, x, h); }
    case _ =>
  }

  /** Over a whole run on any channel the invariants hold at the end. */
  lemma {:induction false} RunKeepsInvariants(s: Session, x: Rx, events: seq<Event>)
    requires Valid(x) && Matched(s, x)
    ensures var t := RunLoop(s, x, events);
      Valid(t.rx) && Matched(s, t.rx) && |t.rx.parts| == |x.parts| && x.known <= t.rx.known
    decreases |events|
  {
    if x.count < |x.parts| && events != [] && !events[0].CancelIn? && !events[0].Deadline? {
      AnyEventKeepsValid(s, x, events[0]);
      AnyEventKeepsMatched(s, x, events[0]);
      RunKeepsInvariants(s, Handle(s, x, events[0]).0, events[1..]);
    }
  }

  /** A hashmap segment for another resource, out of turn, or longer than what is missing changes nothing and
      asks for nothing. */
  lemma ForeignHmuIgnored(s: Session, x: Rx, h: ParsedHmu)
    requires Valid(x)
    requires h.resourceHash != s.hash || h.segment != x.known / SEGMENT || |h.hashmap| > 4 * (|x.parts| - x.known)
      || |h.hashmap| > 4 * SEGMENT
    ensures Handle(s, x, HmuIn(h)) == (x, None)
  {
  }

  /** What reassembly accepts: parts that join to the advertised size and decrypt to four octets and a body of the
      advertised size and hash. */
  lemma AssemblesIff(s: Session, parts: seq<Bytes>, body: Bytes)
    ensures AssembleParts(s, parts) == Ok(body) <==>
      && |Concat(parts)| == s.expectedSize && |body| == s.dataSize && Hash(s.prim, body, s.random) == s.hash
      && exists prefix: Bytes ::
        |prefix| == 4 && Token.LinkDecrypt(s.prim, Concat(parts), s.signing, s.encryption) == Ok(prefix + body)
  {
    var d := Token.LinkDecrypt(s.prim, Concat(parts), s.signing, s.encryption);
    if d.Ok? && |d.value| >= 4 { assert d.value == d.value[..4] + d.value[4..]; }
    if prefix: Bytes :| |prefix| == 4 && d == Ok(prefix + body) { assert d.value[4..] == body; }
  }
}
