/** Which bubbles the cache gives up: the ones least recently registered or answered, no sooner than the cap
    or their expiry demands. */
module IdMapEviction {
  import opened Octets
  import opened IdMap

  // ---- recency, from the operations ----

  /** The bubble an operation touches: the one it registers for, or the one it is answered with. */
  function Touched(c: Index, expires: Expiry, op: Op): Option<nat> {
    match op
    case Reg(b, _, id, _) => if id == "" then None else Some(b)
    case Look(id, now) => Find(c, expires, id, now).1
  }

  /** When a bubble was last touched, or -1. */
  function LastTouch(expires: Expiry, maxSize: nat, ops: seq<Op>, b: nat): (t: int)
    ensures -1 <= t < |ops|
  {
    if ops == [] then -1
    else
      var front := ops[..|ops| - 1];
      if Touched(Run(expires, maxSize, front), expires, ops[|ops| - 1]) == Some(b) then |front|
      else LastTouch(expires, maxSize, front, b)
  }

  lemma LastTouchSnoc(expires: Expiry, maxSize: nat, ops: seq<Op>, op: Op, b: nat)
    ensures LastTouch(expires, maxSize, ops + [op], b) ==
      if Touched(Run(expires, maxSize, ops), expires, op) == Some(b) then |ops| else LastTouch(expires, maxSize, ops, b)
  {
    assert (ops + [op])[..|ops|] == ops;
  }

  /** From newest to oldest. */
  ghost predicate Newest(lru: seq<nat>, at: nat -> int) {
    forall i, j :: 0 <= i < j < |lru| ==> at(lru[i]) > at(lru[j])
  }

  ghost function Touches(expires: Expiry, maxSize: nat, ops: seq<Op>): nat -> int {
    (b: nat) => LastTouch(expires, maxSize, ops, b)
  }

  lemma {:induction false} DropNewest(lru: seq<nat>, b: nat, at: nat -> int)
    requires Newest(lru, at)
    ensures Newest(Drop(lru, b), at)
  {
    if lru != [] {
      assert forall i :: 0 <= i < |lru[1..]| ==> lru[1..][i] == lru[i + 1];
      DropNewest(lru[1..], b, at);
      var r := Drop(lru[1..], b);
      forall i | 0 <= i < |r| ensures at(r[i]) < at(lru[0]) {
        assert r[i] in r;
        var j :| 0 <= j < |lru[1..]| && lru[1..][j] == r[i];
      }
    }
  }

  lemma NewestNoRepeats(lru: seq<nat>, at: nat -> int)
    requires Newest(lru, at)
    ensures NoRepeats(lru)
  {
  }

  // ---- dropping from the old end ----

  /** The cache without all but its k newest bubbles. */
  function DropTo(c: Index, k: nat): Index
    decreases |c.lru|
  {
    if |c.lru| <= k then c else DropTo(RemoveBubble(c, c.lru[|c.lru| - 1]), k)
  }

  lemma {:induction false} DropLast(lru: seq<nat>)
    requires lru != [] && NoRepeats(lru)
    ensures Drop(lru, lru[|lru| - 1]) == lru[..|lru| - 1]
  {
    if |lru| > 1 {
      assert lru[0] != lru[|lru| - 1];
      var rest := lru[1..];
      assert forall i :: 0 <= i < |rest| ==> rest[i] == lru[i + 1];
      DropLast(rest);
      assert [lru[0]] + rest[..|rest| - 1] == lru[..|lru| - 1];
    } else {
      DropAlone(lru);
    }
  }

  lemma DropAlone(lru: seq<nat>)
    requires |lru| == 1
    ensures Drop(lru, lru[0]) == []
  {
    assert lru[1..] == [];
  }

  /** Removing the oldest leaves the others in place. */
  lemma RemoveOldest(c: Index)
    requires c.lru != [] && NoRepeats(c.lru)
    ensures RemoveBubble(c, c.lru[|c.lru| - 1]).lru == c.lru[..|c.lru| - 1]
  {
    DropLast(c.lru);
  }

  lemma TakeTake(s: seq<nat>, i: nat, k: nat)
    requires k <= i <= |s|
    ensures s[..i][..k] == s[..k]
  {
  }

  lemma {:induction false} DropToList(c: Index, k: nat)
    requires NoRepeats(c.lru) && k <= |c.lru|
    ensures DropTo(c, k).lru == c.lru[..k]
    decreases |c.lru|
  {
    if k < |c.lru| {
      RemoveOldest(c);
      DropToList(RemoveBubble(c, c.lru[|c.lru| - 1]), k);
      TakeTake(c.lru, |c.lru| - 1, k);
    }
  }

  lemma DropToStep(c: Index, k: nat)
    requires c.lru != [] && k < |c.lru|
    ensures DropTo(c, k) == DropTo(RemoveBubble(c, c.lru[|c.lru| - 1]), k)
  {
  }

  /** Expiry drops exactly the bubbles past the first, from the old end, that has not expired. */
  lemma {:induction false} EvictsExpired(c: Index, expires: Expiry, now: int) returns (k: nat)
    requires NoRepeats(c.lru)
    ensures k <= |c.lru| && EvictExpired(c, expires, now) == DropTo(c, k)
    ensures k > 0 ==> now <= expires(c.lru[k - 1])
    ensures forall j :: k <= j < |c.lru| ==> expires(c.lru[j]) < now
    decreases |c.lru|
  {
    var n := |c.lru|;
    if n > 0 && now > expires(c.lru[n - 1]) {
      var c1 := RemoveBubble(c, c.lru[n - 1]);
      assert c1.lru == c.lru[..n - 1] by { RemoveOldest(c); }
      k := EvictsExpired(c1, expires, now);
      DropToStep(c, k);
      forall j | k <= j < n ensures expires(c.lru[j]) < now { if j < n - 1 { assert c.lru[j] == c1.lru[j]; } }
    } else {
      k := n;
      DropNone(c);
    }
  }

  /** The cap drops as few bubbles as bring the ids within it, or all. */
  lemma {:induction false} CapDropsLeast(c: Index, maxSize: nat) returns (k: nat)
    requires NoRepeats(c.lru) && maxSize > 0
    ensures k <= |c.lru| && EnforceCap(c, maxSize) == DropTo(c, k)
    ensures k == 0 || |DropTo(c, k).byId| <= maxSize
    ensures forall j: nat :: k < j <= |c.lru| ==> |DropTo(c, j).byId| > maxSize
    decreases |c.lru|
  {
    var n := |c.lru|;
    if |c.byId| > maxSize && n > 0 {
      var c1 := RemoveBubble(c, c.lru[n - 1]);
      assert |c1.lru| == n - 1 && NoRepeats(c1.lru) by { RemoveOldest(c); }
      k := CapDropsLeast(c1, maxSize);
      CapStep(c, maxSize);
      DropToStep(c, k);
      forall j: nat | k < j <= n ensures |DropTo(c, j).byId| > maxSize {
        if j < n { DropToStep(c, j); } else { DropNone(c); }
      }
    } else {
      k := n;
      DropNone(c);
    }
  }

  lemma DropNone(c: Index)
    ensures DropTo(c, |c.lru|) == c
  {
  }

  // ---- the list is in order of recency ----

  lemma RegisterOrder(c: Index, expires: Expiry, maxSize: nat, b: nat, recipient: string, id: string, now: int,
                      at: nat -> int) returns (e: Index, r: Index, i: nat, k: nat)
    requires Newest(c.lru, at) && id != ""
    ensures e == EvictExpired(c, expires, now) && i <= |c.lru| && e.lru == c.lru[..i]
    ensures r == Recorded(e, b, recipient, id) && r.lru == [b] + Drop(c.lru[..i], b) && k <= |r.lru|
    ensures Register(c, expires, maxSize, b, recipient, id, now).lru == r.lru[..k]
  {
    NewestNoRepeats(c.lru, at);
    e, r := EvictExpired(c, expires, now), Recorded(EvictExpired(c, expires, now), b, recipient, id);
    i := EvictsExpired(c, expires, now);
    DropToList(c, i);
    RecordedNoRepeats(e, b, recipient, id);
    if maxSize == 0 {
      k := |r.lru|;
    } else {
      k := CapDropsLeast(r, maxSize);
      DropToList(r, k);
    }
  }

  lemma RecordedNoRepeats(c: Index, b: nat, recipient: string, id: string)
    requires NoRepeats(c.lru)
    ensures NoRepeats(Recorded(c, b, recipient, id).lru)
  {
    DropNoRepeats(c.lru, b);
    var d := Drop(c.lru, b);
    forall i | 0 <= i < |d| ensures d[i] != b { assert d[i] in d; }
  }

  /** Moving a bubble to the front as it is touched keeps the order. */
  lemma FrontOrder(lru: seq<nat>, b: nat, at: nat -> int, at': nat -> int)
    requires Newest(lru, at) && (forall x: nat :: x != b ==> at'(x) == at(x) < at'(b))
    ensures Newest([b] + Drop(lru, b), at')
  {
    DropNewest(lru, b, at);
    var d := Drop(lru, b);
    forall i | 0 <= i < |d| ensures d[i] != b { assert d[i] in d; }
  }

  lemma TouchesAfter(expires: Expiry, maxSize: nat, ops: seq<Op>, op: Op)
    ensures var t := Touched(Run(expires, maxSize, ops), expires, op);
      var at, at' := Touches(expires, maxSize, ops), Touches(expires, maxSize, ops + [op]);
      forall b: nat :: at(b) < |ops| && at'(b) == if t == Some(b) then |ops| else at(b)
  {
    forall b: nat
      ensures LastTouch(expires, maxSize, ops + [op], b) ==
        if Touched(Run(expires, maxSize, ops), expires, op) == Some(b) then |ops|
        else LastTouch(expires, maxSize, ops, b)
    {
      LastTouchSnoc(expires, maxSize, ops, op, b);
    }
  }

  lemma RegKeepsOrder(c: Index, expires: Expiry, maxSize: nat, op: Op, at: nat -> int, at': nat -> int)
    requires op.Reg? && Newest(c.lru, at)
    requires op.id == "" ==> forall x: nat :: at'(x) == at(x)
    requires op.id != "" ==> forall x: nat :: x != op.b ==> at'(x) == at(x) < at'(op.b)
    ensures Newest(Apply(c, expires, maxSize, op).lru, at')
  {
    if op.id != "" {
      var e, r, i, k := RegisterOrder(c, expires, maxSize, op.b, op.recipient, op.id, op.now, at);
      FrontOrder(e.lru, op.b, at, at');
      assert r.lru == [op.b] + Drop(e.lru, op.b);
    }
  }

  lemma LookKeepsOrder(c: Index, expires: Expiry, maxSize: nat, op: Op, at: nat -> int, at': nat -> int)
    requires op.Look? && Newest(c.lru, at)
    requires var t := Touched(c, expires, op);
      if t.None? then forall x: nat :: at'(x) == at(x)
      else forall x: nat :: x != t.value ==> at'(x) == at(x) < at'(t.value)
    ensures Newest(Apply(c, expires, maxSize, op).lru, at')
  {
    if op.id in c.byId {
      var b := c.byId[op.id];
      if op.now > expires(b) {
        DropNewest(c.lru, b, at);
      } else {
        FrontOrder(c.lru, b, at, at');
      }
    }
  }

  /** After any operations the list runs from the bubble touched last to the one touched longest ago. */
  lemma {:induction false} ListByRecency(expires: Expiry, maxSize: nat, ops: seq<Op>)
    ensures Newest(Run(expires, maxSize, ops).lru, Touches(expires, maxSize, ops))
  {
    if ops != [] {
      var front, op := ops[..|ops| - 1], ops[|ops| - 1];
      assert ops == front + [op];
      ListByRecency(expires, maxSize, front);
      var c := Run(expires, maxSize, front);
      TouchesAfter(expires, maxSize, front, op);
      var at, at' := Touches(expires, maxSize, front), Touches(expires, maxSize, ops);
      if op.Reg? {
        RegKeepsOrder(c, expires, maxSize, op, at, at');
      } else {
        LookKeepsOrder(c, expires, maxSize, op, at, at');
      }
    }
  }

  // ---- what is evicted ----

  /** Whatever a registration drops, for expiry or for the cap, was touched longer ago than anything it keeps. */
  lemma EvictedIsOldest(expires: Expiry, maxSize: nat, ops: seq<Op>, op: Op, gone: nat, kept: nat)
    requires op.Reg? && gone in Run(expires, maxSize, ops).lru
    requires gone !in Run(expires, maxSize, ops + [op]).lru && kept in Run(expires, maxSize, ops + [op]).lru
    ensures LastTouch(expires, maxSize, ops + [op], gone) < LastTouch(expires, maxSize, ops + [op], kept)
  {
    var c, at := Run(expires, maxSize, ops), Touches(expires, maxSize, ops);
    RunOf(expires, maxSize, ops, op);
    ListByRecency(expires, maxSize, ops);
    LastTouchSnoc(expires, maxSize, ops, op, gone);
    LastTouchSnoc(expires, maxSize, ops, op, kept);
    var e, r, i, k := RegisterOrder(c, expires, maxSize, op.b, op.recipient, op.id, op.now, at);
    OlderIsGone(c.lru, op.b, i, k, at, gone, kept);
  }

  lemma BeyondPrefix(s: seq<nat>, k: nat, i: nat)
    requires k <= |s| && i < |s| && s[i] !in s[..k]
    ensures i >= k
  {
    forall j | 0 <= j < k ensures s[j] in s[..k] { assert s[..k][j] == s[j]; }
  }

  lemma OlderIsGone(lru: seq<nat>, b: nat, i: nat, k: nat, at: nat -> int, gone: nat, kept: nat)
    requires Newest(lru, at) && i <= |lru| && k <= |[b] + Drop(lru[..i], b)|
    requires gone in lru && gone !in ([b] + Drop(lru[..i], b))[..k] && kept in ([b] + Drop(lru[..i], b))[..k]
    ensures gone != b && (kept != b ==> at(gone) < at(kept))
  {
    var r := [b] + Drop(lru[..i], b);
    assert r[..k][0] == b;
    if kept != b {
      if gone in r { GoneByCap(r, k, lru[..i], b, at, gone, kept); } else { GoneByExpiry(lru, i, at, gone, kept); }
    }
  }

  lemma GoneByCap(r: seq<nat>, k: nat, older: seq<nat>, b: nat, at: nat -> int, gone: nat, kept: nat)
    requires Newest(older, at) && r == [b] + Drop(older, b) && k <= |r|
    requires gone in r && gone !in r[..k] && kept in r[..k] && kept != b
    ensures at(gone) < at(kept)
  {
    DropNewest(older, b, at);
    var x :| 0 <= x < k && r[x] == kept;
    var y :| 0 <= y < |r| && r[y] == gone;
    BeyondPrefix(r, k, y);
    assert Drop(older, b)[x - 1] == kept && Drop(older, b)[y - 1] == gone;
  }

  lemma GoneByExpiry(lru: seq<nat>, i: nat, at: nat -> int, gone: nat, kept: nat)
    requires Newest(lru, at) && i <= |lru| && gone in lru && gone !in lru[..i] && kept in lru[..i]
    ensures at(gone) < at(kept)
  {
    var y :| 0 <= y < |lru| && lru[y] == gone;
    BeyondPrefix(lru, i, y);
    var z :| 0 <= z < i && lru[z] == kept;
  }

  // ---- what a registration finds ----

  /** Nothing registers one id for two bubbles, or gives a recipient two ids for one. */
  ghost predicate Disciplined(ops: seq<Op>) {
    && OncePerRecipient(ops)
    && forall i, j :: 0 <= i < j < |ops| && ops[i].Reg? && ops[j].Reg? && ops[i].id == ops[j].id ==>
        ops[i].b == ops[j].b
  }

  lemma DisciplinedApart(c: Index, ops: seq<Op>)
    requires Consistent(c) && ViewsFromHistory(c, ops) && Disciplined(ops)
    ensures Apart(c)
  {
    forall b, b', id | IsView(c.views, b, id) && IsView(c.views, b', id) ensures b == b' {
      var r :| r in c.views[b] && c.views[b][r] == id;
      var r' :| r' in c.views[b'] && c.views[b'][r'] == id;
      var i :| 0 <= i < |ops| && Registers(ops[i], b, r, c.views[b][r]);
      var j :| 0 <= j < |ops| && Registers(ops[j], b', r', c.views[b'][r']);
    }
  }

  /** The ids indexed to a bubble. */
  function IdsOf(c: Index, b: nat): set<string> {
    set id | id in c.byId && c.byId[id] == b
  }

  /** Dropping another bubble leaves a bubble's ids alone. */
  lemma OthersKeepIds(c: Index, b: nat, other: nat)
    requires Apart(c) && other != b
    ensures IdsOf(RemoveBubble(c, other), b) == IdsOf(c, b)
  {
    forall id ensures id in RemoveBubble(c, other).byId <==> id in c.byId && c.byId[id] != other {
      RemoveIsExact(c, other, id);
    }
  }

  lemma AloneIsAll(c: Index, b: nat)
    requires Consistent(c) && c.lru == [b]
    ensures IdsOf(c, b) == c.byId.Keys && |IdsOf(c, b)| == |c.byId|
  {
    assert forall id :: id in c.byId ==> c.byId[id] in c.lru;
  }

  /** Capping keeps the newest bubble's ids exactly if they fit. */
  lemma {:induction false} CapSparesNewest(c: Index, maxSize: nat, b: nat, id: string)
    requires maxSize > 0 && Apart(c) && Consistent(c) && c.lru != [] && c.lru[0] == b && id in IdsOf(c, b)
    ensures id in EnforceCap(c, maxSize).byId <==> |IdsOf(c, b)| <= maxSize
    decreases |c.lru|
  {
    SubsetSize(IdsOf(c, b), c.byId.Keys);
    if |c.byId| > maxSize {
      var last := c.lru[|c.lru| - 1];
      var c1 := RemoveBubble(c, last);
      CapStep(c, maxSize);
      RemoveOldest(c);
      if |c.lru| == 1 {
        AloneIsAll(c, b);
        RemoveIsExact(c, b, id);
        CapShrinksOnly(c1, maxSize);
      } else {
        assert last != b;
        OthersKeepIds(c, b, last);
        RemoveKeepsApart(c, last);
        RemoveKeeps(c, last);
        CapSparesNewest(c1, maxSize, b, id);
      }
    }
  }

  lemma RegisteredIndexedIff(expires: Expiry, maxSize: nat, ops: seq<Op>, op: Op)
    requires op.Reg? && op.id != "" && Disciplined(ops + [op])
    ensures var e := EvictExpired(Run(expires, maxSize, ops), expires, op.now);
      var c1 := Run(expires, maxSize, ops + [op]);
      && (op.id in c1.byId <==> maxSize == 0 || |IdsOf(e, op.b) + {op.id}| <= maxSize)
      && (op.id in c1.byId ==> c1.byId[op.id] == op.b)
  {
    var e := EvictExpired(Run(expires, maxSize, ops), expires, op.now);
    var r := Recorded(e, op.b, op.recipient, op.id);
    RunOf(expires, maxSize, ops, op);
    RecordedIds(e, op.b, op.recipient, op.id);
    if maxSize > 0 {
      assert Consistent(r) && Apart(r) by { RecordedFits(expires, maxSize, ops, op); }
      CapSparesNewest(r, maxSize, op.b, op.id);
    }
    assert Shrunk(EnforceCap(r, maxSize), r) by { CapShrinksOnly(r, maxSize); }
  }

  lemma RecordedIds(c: Index, b: nat, recipient: string, id: string)
    ensures IdsOf(Recorded(c, b, recipient, id), b) == IdsOf(c, b) + {id}
  {
  }

  /** A registration's own id is found afterwards exactly until its bubble expires, if the bubble's indexed ids,
      this one among them, fit the cap. */
  lemma RegisteredFoundIff(expires: Expiry, maxSize: nat, ops: seq<Op>, op: Op, later: int)
    requires op.Reg? && op.id != "" && Disciplined(ops + [op])
    ensures var e := EvictExpired(Run(expires, maxSize, ops), expires, op.now);
      Find(Run(expires, maxSize, ops + [op]), expires, op.id, later).1 == Some(op.b) <==>
        later <= expires(op.b) && (maxSize == 0 || |IdsOf(e, op.b) + {op.id}| <= maxSize)
  {
    RegisteredIndexedIff(expires, maxSize, ops, op);
  }

  lemma RecordedFits(expires: Expiry, maxSize: nat, ops: seq<Op>, op: Op)
    requires op.Reg? && op.id != "" && Disciplined(ops + [op])
    ensures var r := Recorded(EvictExpired(Run(expires, maxSize, ops), expires, op.now), op.b, op.recipient, op.id);
      Consistent(r) && Apart(r)
  {
    var c := Run(expires, maxSize, ops);
    assert OncePerRecipient(ops) by {
      assert forall i :: 0 <= i < |ops| ==> ops[i] == (ops + [op])[i];
    }
    DisciplinedStaysConsistent(expires, maxSize, ops);
    var e := EvictExpired(c, expires, op.now);
    var r := Recorded(e, op.b, op.recipient, op.id);
    EvictKeeps(c, expires, op.now);
    EvictShrinks(c, expires, op.now);
    assert ViewsFromHistory(e, ops);
    assert Consistent(r) by {
      DisciplineIsSafe(e, ops, op);
      RecordKeepsIff(e, op.b, op.recipient, op.id);
    }
    ViewsRecorded(e, ops, op);
    DisciplinedApart(r, ops + [op]);
  }

  // ---- what a lookup buys ----

  /** Only what is touched comes into the list. */
  lemma ListedBefore(c: Index, expires: Expiry, maxSize: nat, op: Op, b: nat)
    requires NoRepeats(c.lru) && b in Apply(c, expires, maxSize, op).lru && Touched(c, expires, op) != Some(b)
    ensures b in c.lru
  {
    if op.Reg? && op.id != "" {
      var r := Recorded(EvictExpired(c, expires, op.now), op.b, op.recipient, op.id);
      var i := EvictsExpired(c, expires, op.now);
      DropToList(c, i);
      RecordedNoRepeats(EvictExpired(c, expires, op.now), op.b, op.recipient, op.id);
      if maxSize > 0 {
        var k := CapDropsLeast(r, maxSize);
        DropToList(r, k);
        assert b in r.lru;
      }
    }
  }

  /** A lookup drops a bubble only when it has expired. */
  lemma LookSpares(c: Index, expires: Expiry, id: string, now: int, a: nat)
    requires a in c.lru && now <= expires(a)
    ensures a in Find(c, expires, id, now).0.lru
  {
  }

  /** No operation touches the bubble, and none comes after the other has expired. */
  ghost predicate Spares(expires: Expiry, maxSize: nat, ops: seq<Op>, more: seq<Op>, a: nat, b: nat) {
    more != [] ==>
      var front, op := more[..|more| - 1], more[|more| - 1];
      && Spares(expires, maxSize, ops, front, a, b)
      && Touched(Run(expires, maxSize, ops + front), expires, op) != Some(b) && op.now <= expires(a)
  }

  /** While the one is listed so is the other, touched more recently. */
  ghost predicate Leads(expires: Expiry, maxSize: nat, ops: seq<Op>, a: nat, b: nat) {
    b in Run(expires, maxSize, ops).lru ==>
      && a in Run(expires, maxSize, ops).lru
      && LastTouch(expires, maxSize, ops, a) > LastTouch(expires, maxSize, ops, b)
  }

  /** A bubble touched since another was, as by a lookup, outlives it: whatever is registered and looked up
      afterwards, while the other is untouched and still listed, so is this one, short of its expiry. */
  lemma {:induction false} TouchedOutlives(expires: Expiry, maxSize: nat, ops: seq<Op>, more: seq<Op>, a: nat, b: nat)
    requires Leads(expires, maxSize, ops, a, b) && Spares(expires, maxSize, ops, more, a, b)
    ensures Leads(expires, maxSize, ops + more, a, b)
    decreases |more|
  {
    if more == [] {
      assert ops + more == ops;
    } else {
      var front, op := more[..|more| - 1], more[|more| - 1];
      TouchedOutlives(expires, maxSize, ops, front, a, b);
      OneMoreLeads(expires, maxSize, ops + front, op, a, b);
      SplitLast(ops, more);
    }
  }

  lemma SplitLast(ops: seq<Op>, more: seq<Op>)
    requires more != []
    ensures ops + more == ops + more[..|more| - 1] + [more[|more| - 1]]
  {
  }

  lemma OneMoreLeads(expires: Expiry, maxSize: nat, ops: seq<Op>, op: Op, a: nat, b: nat)
    requires Touched(Run(expires, maxSize, ops), expires, op) != Some(b) && op.now <= expires(a)
    requires Leads(expires, maxSize, ops, a, b)
    ensures Leads(expires, maxSize, ops + [op], a, b)
  {
    var c, c1 := Run(expires, maxSize, ops), Run(expires, maxSize, ops + [op]);
    if b in c1.lru {
      RunOf(expires, maxSize, ops, op);
      assert NoRepeats(c.lru) by {
        ListByRecency(expires, maxSize, ops);
        NewestNoRepeats(c.lru, Touches(expires, maxSize, ops));
      }
      ListedBefore(c, expires, maxSize, op, b);
      LastTouchSnoc(expires, maxSize, ops, op, a);
      LastTouchSnoc(expires, maxSize, ops, op, b);
      if op.Look? {
        LookSpares(c, expires, op.id, op.now, a);
      } else if a !in c1.lru {
        EvictedIsOldest(expires, maxSize, ops, op, a, b);
      }
    }
  }
}
