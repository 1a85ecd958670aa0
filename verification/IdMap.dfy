/** The LRU+TTL cache from per-recipient message ids to the relayed bubble they are views of. */
module IdMap {
  import opened Octets

  /** Bubbles are handles; `views` is each bubble's recipient-to-id table, kept when it is evicted.
      `lru` runs from newest to oldest, and a bubble's list pointer is set iff it is in it. */
  datatype Index = Index(views: map<nat, map<string, string>>, byId: map<string, nat>, lru: seq<nat>)

  const EMPTY := Index(map[], map[], [])

  /** When each bubble expires; fixed when it is made. */
  type Expiry = nat -> int

  function ViewsOf(c: Index, b: nat): map<string, string> {
    if b in c.views then c.views[b] else map[]
  }

  function Drop(lru: seq<nat>, b: nat): (r: seq<nat>)
    ensures b !in r && forall x :: x in r <==> x in lru && x != b
    ensures |r| <= |lru| && (b in lru ==> |r| < |lru|)
  {
    if lru == [] then [] else if lru[0] == b then Drop(lru[1..], b) else [lru[0]] + Drop(lru[1..], b)
  }

  function RemoveBubble(c: Index, b: nat): Index {
    c.(byId := c.byId - ViewsOf(c, b).Values, lru := Drop(c.lru, b))
  }

  /** Drop expired bubbles from the old end, stopping at the first that is not. */
  function EvictExpired(c: Index, expires: Expiry, now: int): Index
    decreases |c.lru|
  {
    if c.lru == [] || now <= expires(c.lru[|c.lru| - 1]) then c
    else EvictExpired(RemoveBubble(c, c.lru[|c.lru| - 1]), expires, now)
  }

  /** Drop bubbles from the old end until at most maxSize ids are indexed; 0 means no cap. */
  function EnforceCap(c: Index, maxSize: nat): Index
    decreases |c.lru|
  {
    if maxSize == 0 || |c.byId| <= maxSize || c.lru == [] then c
    else EnforceCap(RemoveBubble(c, c.lru[|c.lru| - 1]), maxSize)
  }

  function Recorded(c: Index, b: nat, recipient: string, id: string): Index {
    Index(c.views[b := ViewsOf(c, b)[recipient := id]], c.byId[id := b], [b] + Drop(c.lru, b))
  }

  function Register(c: Index, expires: Expiry, maxSize: nat, b: nat, recipient: string, id: string, now: int): Index {
    if id == "" then c
    else EnforceCap(Recorded(EvictExpired(c, expires, now), b, recipient, id), maxSize)
  }

  function Find(c: Index, expires: Expiry, id: string, now: int): (Index, Option<nat>) {
    if id !in c.byId then (c, None)
    else
      var b := c.byId[id];
      if now > expires(b) then (RemoveBubble(c, b), None)
      else (if b in c.lru then c.(lru := [b] + Drop(c.lru, b)) else c, Some(b))
  }

  // ---- the class ----

  class Cache {
    const expires: Expiry
    const maxSize: nat
    var views: map<nat, map<string, string>>
    var byId: map<string, nat>
    var lru: seq<nat>

    ghost function View(): Index
      reads this
    {
      Index(views, byId, lru)
    }

    constructor (expires: Expiry, maxSize: int)
      ensures View() == EMPTY && this.expires == expires && this.maxSize == if maxSize < 0 then 0 else maxSize
    {
      this.expires := expires;
      this.maxSize := if maxSize < 0 then 0 else maxSize;
      views, byId, lru := map[], map[], [];
    }

    /** removeBubbleLocked: delete the key of every view, then unlink. */
    method RemoveBubbleLocked(b: nat)
      modifies this
      ensures View() == RemoveBubble(old(View()), b)
    {
      var table := if b in views then views[b] else map[];
      var left := table.Keys;
      ghost var done: set<string> := {};
      while left != {}
        invariant left <= table.Keys && views == old(views) && lru == old(lru)
        invariant done == set r | r in table.Keys && r !in left :: table[r]
        invariant byId == old(byId) - done
        decreases left
      {
        var r :| r in left;
        byId := byId - {table[r]};
        left := left - {r};
        done := done + {table[r]};
      }
      assert done == table.Values;
      if b in lru { lru := Drop(lru, b); } else { DropAbsent(lru, b); }
    }

    method EvictExpiredLocked(now: int)
      modifies this
      ensures View() == EvictExpired(old(View()), expires, now)
    {
      while lru != []
        invariant EvictExpired(View(), expires, now) == EvictExpired(old(View()), expires, now)
        decreases |lru|
      {
        var b := lru[|lru| - 1];
        if now <= expires(b) { return; }
        RemoveBubbleLocked(b);
      }
    }

    method EnforceCapLocked()
      modifies this
      ensures View() == EnforceCap(old(View()), maxSize)
    {
      if maxSize == 0 { return; }
      while |byId| > maxSize
        invariant EnforceCap(View(), maxSize) == EnforceCap(old(View()), maxSize)
        decreases |lru|
      {
        if lru == [] { return; }
        RemoveBubbleLocked(lru[|lru| - 1]);
      }
    }

    method RegisterView(b: nat, recipient: string, id: string, now: int)
      modifies this
      ensures View() == Register(old(View()), expires, maxSize, b, recipient, id, now)
    {
      if id == "" { return; }
      EvictExpiredLocked(now);
      var table := if b in views then views[b] else map[];
      views := views[b := table[recipient := id]];
      byId := byId[id := b];
      lru := [b] + Drop(lru, b);
      EnforceCapLocked();
    }

    method Lookup(id: string, now: int) returns (r: Option<nat>)
      modifies this
      ensures (View(), r) == Find(old(View()), expires, id, now)
    {
      if id !in byId { return None; }
      var b := byId[id];
      if now > expires(b) {
        RemoveBubbleLocked(b);
        return None;
      }
      if b in lru { lru := [b] + Drop(lru, b); }
      return Some(b);
    }
  }

  lemma {:induction false} DropAbsent(lru: seq<nat>, b: nat)
    requires b !in lru
    ensures Drop(lru, b) == lru
  {
    if lru != [] {
      assert lru[0] in lru;
      DropAbsent(lru[1..], b);
    }
  }

  // ---- consistency of the index ----

  ghost predicate NoRepeats(s: seq<nat>) {
    forall i, j :: 0 <= i < j < |s| ==> s[i] != s[j]
  }

  /** Every indexed id is a view of its bubble, and that bubble is in the eviction list, once. */
  ghost predicate Consistent(c: Index) {
    && NoRepeats(c.lru)
    && (forall id :: id in c.byId ==> c.byId[id] in c.lru && id in ViewsOf(c, c.byId[id]).Values)
  }

  lemma {:induction false} DropNoRepeats(s: seq<nat>, b: nat)
    requires NoRepeats(s)
    ensures NoRepeats(Drop(s, b))
  {
    if s != [] {
      assert forall i :: 0 <= i < |s[1..]| ==> s[1..][i] == s[i + 1];
      DropNoRepeats(s[1..], b);
      if s[0] != b {
        var r := Drop(s[1..], b);
        forall i | 0 <= i < |r| ensures r[i] != s[0] { assert r[i] in r; }
      }
    }
  }

  lemma RemoveKeeps(c: Index, b: nat)
    requires Consistent(c)
    ensures Consistent(RemoveBubble(c, b))
  {
    DropNoRepeats(c.lru, b);
  }

  lemma {:induction false} EvictKeeps(c: Index, expires: Expiry, now: int)
    requires Consistent(c)
    ensures Consistent(EvictExpired(c, expires, now))
    decreases |c.lru|
  {
    if c.lru != [] && now > expires(c.lru[|c.lru| - 1]) {
      RemoveKeeps(c, c.lru[|c.lru| - 1]);
      EvictKeeps(RemoveBubble(c, c.lru[|c.lru| - 1]), expires, now);
    }
  }

  lemma {:induction false} CapStep(c: Index, maxSize: nat)
    requires maxSize != 0 && |c.byId| > maxSize && c.lru != []
    ensures EnforceCap(c, maxSize) == EnforceCap(RemoveBubble(c, c.lru[|c.lru| - 1]), maxSize)
  {
  }

  lemma {:induction false} CapKeeps(c: Index, maxSize: nat)
    requires Consistent(c)
    ensures Consistent(EnforceCap(c, maxSize))
    decreases |c.lru|
  {
    if maxSize != 0 && |c.byId| > maxSize && c.lru != [] {
      var c1 := RemoveBubble(c, c.lru[|c.lru| - 1]);
      CapStep(c, maxSize);
      assert Consistent(c1) by { RemoveKeeps(c, c.lru[|c.lru| - 1]); }
      CapKeeps(c1, maxSize);
    }
  }

  /** The registration does not overwrite a recipient's id that is still indexed to this bubble and
      is no other recipient's. */
  ghost predicate Safe(c: Index, b: nat, recipient: string, id: string) {
    var t := ViewsOf(c, b);
    recipient in t && t[recipient] != id ==>
      || t[recipient] !in c.byId || c.byId[t[recipient]] != b
      || exists other :: other in t && other != recipient && t[other] == t[recipient]
  }

  /** Recording a view keeps the index consistent exactly when it is safe: overwriting a recipient's
      indexed id is the one thing that leaves an id pointing at a bubble it is no view of. */
  lemma RecordKeepsIff(c: Index, b: nat, recipient: string, id: string)
    requires Consistent(c)
    ensures Consistent(Recorded(c, b, recipient, id)) <==> Safe(c, b, recipient, id)
  {
    var c1 := Recorded(c, b, recipient, id);
    DropNoRepeats(c.lru, b);
    var d := Drop(c.lru, b);
    assert NoRepeats(c1.lru) by { forall i | 0 <= i < |d| ensures d[i] != b { assert d[i] in d; } }
    var t, t1 := ViewsOf(c, b), ViewsOf(c1, b);
    assert t1 == t[recipient := id];
    assert recipient in t1 && t1[recipient] == id;
    if Safe(c, b, recipient, id) {
      forall k | k in c1.byId ensures c1.byId[k] in c1.lru && k in ViewsOf(c1, c1.byId[k]).Values {
        if k != id && c.byId[k] == b {
          var r :| r in t && t[r] == k;
          if r == recipient {
            var other :| other in t && other != recipient && t[other] == k;
            assert other in t1 && t1[other] == k;
          } else {
            assert r in t1 && t1[r] == k;
          }
        }
      }
    } else {
      var stale := t[recipient];
      assert stale in c1.byId && c1.byId[stale] == b;
      assert forall r :: r in t1 && r != recipient ==> r in t && t1[r] == t[r];
      assert stale !in t1.Values;
    }
  }

  // ---- histories ----

  datatype Op = Reg(b: nat, recipient: string, id: string, now: int) | Look(id: string, now: int)

  function Apply(c: Index, expires: Expiry, maxSize: nat, op: Op): Index {
    match op
    case Reg(b, recipient, id, now) => Register(c, expires, maxSize, b, recipient, id, now)
    case Look(id, now) => Find(c, expires, id, now).0
  }

  function Run(expires: Expiry, maxSize: nat, ops: seq<Op>): Index {
    if ops == [] then EMPTY else Apply(Run(expires, maxSize, ops[..|ops| - 1]), expires, maxSize, ops[|ops| - 1])
  }

  /** The bubble last registered for an id. */
  function LastFor(ops: seq<Op>, id: string): Option<nat> {
    if ops == [] then None
    else
      var op := ops[|ops| - 1];
      if op.Reg? && op.id == id && id != "" then Some(op.b) else LastFor(ops[..|ops| - 1], id)
  }

  /** Fan-out discipline: a bubble gives one recipient one id. */
  ghost predicate OncePerRecipient(ops: seq<Op>) {
    forall i, j ::
      0 <= i < j < |ops| && ops[i].Reg? && ops[j].Reg? && ops[i].b == ops[j].b && ops[i].recipient == ops[j].recipient
      ==> ops[i].id == ops[j].id
  }

  /** Eviction only forgets ids and list entries. */
  ghost predicate Shrunk(c1: Index, c: Index) {
    && c1.views == c.views && |c1.byId| <= |c.byId|
    && (forall id :: id in c1.byId ==> id in c.byId && c1.byId[id] == c.byId[id])
  }

  lemma RemoveShrinks(c: Index, b: nat)
    ensures Shrunk(RemoveBubble(c, b), c)
  {
    var c1 := RemoveBubble(c, b);
    assert c1.byId.Keys <= c.byId.Keys;
    SubsetSize(c1.byId.Keys, c.byId.Keys);
  }

  lemma {:induction false} EvictShrinks(c: Index, expires: Expiry, now: int)
    ensures Shrunk(EvictExpired(c, expires, now), c)
    decreases |c.lru|
  {
    if c.lru != [] && now > expires(c.lru[|c.lru| - 1]) {
      RemoveShrinks(c, c.lru[|c.lru| - 1]);
      EvictShrinks(RemoveBubble(c, c.lru[|c.lru| - 1]), expires, now);
    }
  }

  /** Capping ends within the cap, or with the list empty and the ids of every listed bubble gone. */
  lemma {:induction false} CapShrinks(c: Index, maxSize: nat, b: nat, id: string)
    requires maxSize > 0
    ensures var c1 := EnforceCap(c, maxSize);
      && Shrunk(c1, c)
      && (|c1.byId| <= maxSize || (c1.lru == [] && (b in c.lru && id in ViewsOf(c, b).Values ==> id !in c1.byId)))
    decreases |c.lru|
  {
    if |c.byId| > maxSize && c.lru != [] {
      var last := c.lru[|c.lru| - 1];
      RemoveShrinks(c, last);
      CapShrinks(RemoveBubble(c, last), maxSize, b, id);
    }
  }

  /** A registration keeps the number of indexed ids within the cap, whatever was registered before. */
  lemma RegisterCapped(c: Index, expires: Expiry, maxSize: nat, b: nat, recipient: string, id: string, now: int)
    requires maxSize > 0 && |c.byId| <= maxSize
    ensures |Register(c, expires, maxSize, b, recipient, id, now).byId| <= maxSize
  {
    if id != "" {
      var e := EvictExpired(c, expires, now);
      EvictShrinks(c, expires, now);
      var r := Recorded(e, b, recipient, id);
      assert recipient in ViewsOf(r, b) && ViewsOf(r, b)[recipient] == id && b in r.lru;
      CapShrinks(r, maxSize, b, id);
      var c1 := EnforceCap(r, maxSize);
      if |c1.byId| > maxSize {
        assert c1.byId.Keys <= e.byId.Keys;
        SubsetSize(c1.byId.Keys, e.byId.Keys);
      }
    }
  }

  lemma FindShrinks(c: Index, expires: Expiry, id: string, now: int)
    ensures Shrunk(Find(c, expires, id, now).0, c)
  {
    if id in c.byId { RemoveShrinks(c, c.byId[id]); }
  }

  lemma CapShrinksOnly(c: Index, maxSize: nat)
    ensures Shrunk(EnforceCap(c, maxSize), c)
  {
    if maxSize > 0 { CapShrinks(c, maxSize, 0, ""); }
  }

  /** The cache refines its history, for any operations whatever: a lookup answers only with the
      bubble last registered for the id, never an expired one; and with the cap on at most maxSize
      ids are ever indexed. */
  lemma {:induction false} RefinesHistory(expires: Expiry, maxSize: nat, ops: seq<Op>)
    ensures var c := Run(expires, maxSize, ops);
      && (forall id :: id in c.byId ==> LastFor(ops, id) == Some(c.byId[id]))
      && (forall id, now ::
            var r := Find(c, expires, id, now).1;
            r.Some? ==> LastFor(ops, id) == r && now <= expires(r.value))
      && (maxSize > 0 ==> |c.byId| <= maxSize)
  {
    if ops != [] {
      var before, op := Run(expires, maxSize, ops[..|ops| - 1]), ops[|ops| - 1];
      RefinesHistory(expires, maxSize, ops[..|ops| - 1]);
      match op
      case Reg(b, recipient, id, now) =>
        if id != "" {
          EvictShrinks(before, expires, now);
          CapShrinksOnly(Recorded(EvictExpired(before, expires, now), b, recipient, id), maxSize);
        }
        if maxSize > 0 { RegisterCapped(before, expires, maxSize, b, recipient, id, now); }
      case Look(id, now) =>
        FindShrinks(before, expires, id, now);
    }
  }

  predicate Registers(op: Op, b: nat, recipient: string, id: string) {
    op.Reg? && op.b == b && op.recipient == recipient && op.id == id
  }

  /** A recorded view was registered. */
  ghost predicate ViewsFromHistory(c: Index, ops: seq<Op>) {
    forall b, r :: b in c.views && r in c.views[b] ==>
      exists i :: 0 <= i < |ops| && Registers(ops[i], b, r, c.views[b][r])
  }

  lemma ViewsExtend(c: Index, ops: seq<Op>, op: Op)
    requires ViewsFromHistory(c, ops)
    ensures ViewsFromHistory(c, ops + [op])
  {
    forall b, r | b in c.views && r in c.views[b]
      ensures exists i :: 0 <= i < |ops + [op]| && Registers((ops + [op])[i], b, r, c.views[b][r])
    {
      var i :| 0 <= i < |ops| && Registers(ops[i], b, r, c.views[b][r]);
      assert (ops + [op])[i] == ops[i];
    }
  }

  lemma FindKeeps(c: Index, expires: Expiry, id: string, now: int)
    requires Consistent(c)
    ensures Consistent(Find(c, expires, id, now).0)
  {
    if id in c.byId {
      var b := c.byId[id];
      RemoveKeeps(c, b);
      DropNoRepeats(c.lru, b);
      var d := Drop(c.lru, b);
      forall i | 0 <= i < |d| ensures d[i] != b { assert d[i] in d; }
    }
  }

  lemma ViewsRecorded(c: Index, ops: seq<Op>, op: Op)
    requires ViewsFromHistory(c, ops) && op.Reg?
    ensures ViewsFromHistory(Recorded(c, op.b, op.recipient, op.id), ops + [op])
  {
    ViewsExtend(c, ops, op);
    assert (ops + [op])[|ops|] == op;
  }

  /** What the discipline gives: a registration never overwrites an id. */
  lemma DisciplineIsSafe(c: Index, ops: seq<Op>, op: Op)
    requires ViewsFromHistory(c, ops) && op.Reg? && OncePerRecipient(ops + [op])
    ensures Safe(c, op.b, op.recipient, op.id)
  {
    if op.recipient in ViewsOf(c, op.b) {
      var i :| 0 <= i < |ops| && Registers(ops[i], op.b, op.recipient, c.views[op.b][op.recipient]);
      assert (ops + [op])[i] == ops[i] && (ops + [op])[|ops|] == op;
    }
  }

  lemma ApplyStaysConsistent(c: Index, expires: Expiry, maxSize: nat, ops: seq<Op>, op: Op)
    requires Consistent(c) && ViewsFromHistory(c, ops) && OncePerRecipient(ops + [op])
    ensures var c1 := Apply(c, expires, maxSize, op); Consistent(c1) && ViewsFromHistory(c1, ops + [op])
  {
    ViewsExtend(c, ops, op);
    match op
    case Look(id, now) =>
      FindKeeps(c, expires, id, now);
      FindShrinks(c, expires, id, now);
    case Reg(b, recipient, id, now) =>
      if id != "" {
        var e := EvictExpired(c, expires, now);
        assert Consistent(e) by { EvictKeeps(c, expires, now); }
        assert ViewsFromHistory(e, ops) by { EvictShrinks(c, expires, now); }
        var r := Recorded(e, b, recipient, id);
        assert Consistent(r) by { DisciplineIsSafe(e, ops, op); RecordKeepsIff(e, b, recipient, id); }
        assert ViewsFromHistory(r, ops + [op]) by { ViewsRecorded(e, ops, op); }
        CapKeeps(r, maxSize);
        CapShrinksOnly(r, maxSize);
      }
  }

  /** With the fan-out discipline, after every history the index is consistent: each indexed id is a
      view of its bubble and each indexed bubble is in the eviction list exactly once. */
  lemma {:induction false} DisciplinedStaysConsistent(expires: Expiry, maxSize: nat, ops: seq<Op>)
    requires OncePerRecipient(ops)
    ensures Consistent(Run(expires, maxSize, ops)) && ViewsFromHistory(Run(expires, maxSize, ops), ops)
  {
    if ops != [] {
      var earlier, op := ops[..|ops| - 1], ops[|ops| - 1];
      assert ops == earlier + [op];
      DisciplinedStaysConsistent(expires, maxSize, earlier);
      ApplyStaysConsistent(Run(expires, maxSize, earlier), expires, maxSize, earlier, op);
    }
  }

  lemma {:induction false} RunOf(expires: Expiry, maxSize: nat, ops: seq<Op>, op: Op)
    ensures Run(expires, maxSize, ops + [op]) == Apply(Run(expires, maxSize, ops), expires, maxSize, op)
  {
    assert (ops + [op])[..|ops|] == ops;
  }

  /** The cache after one registration. */
  function AfterOne(b: nat, recipient: string, id: string): Index {
    Index(map[b := map[recipient := id]], map[id := b], [b])
  }

  lemma {:induction false} FirstRegistration(expires: Expiry, b: nat, recipient: string, id: string, now: int)
    requires id != ""
    ensures Run(expires, 0, [Reg(b, recipient, id, now)]) == AfterOne(b, recipient, id)
  {
    var op := Reg(b, recipient, id, now);
    assert [op][..0] == [];
    assert Recorded(EMPTY, b, recipient, id) == AfterOne(b, recipient, id);
  }

  lemma {:induction false} SecondRegistration(expires: Expiry, b: nat, recipient: string, id1: string, id2: string,
                                              now: int)
    requires id2 != "" && now <= expires(b)
    ensures Register(AfterOne(b, recipient, id1), expires, 0, b, recipient, id2, now) ==
      Recorded(AfterOne(b, recipient, id1), b, recipient, id2)
  {
  }

  lemma {:induction false} SecondIsUnsafe(b: nat, recipient: string, id1: string, id2: string)
    requires id1 != id2
    ensures Consistent(AfterOne(b, recipient, id1)) && !Safe(AfterOne(b, recipient, id1), b, recipient, id2)
  {
    var c1 := AfterOne(b, recipient, id1);
    assert ViewsOf(c1, b) == map[recipient := id1];
    assert recipient in ViewsOf(c1, b) && ViewsOf(c1, b)[recipient] == id1;
  }

  /** The discipline is needed: giving one recipient two ids, whatever they are, leaves the first indexed
      to a bubble that no longer has it as a view. */
  lemma {:induction false} OverwriteLeavesStaleId(expires: Expiry, b: nat, recipient: string, id1: string, id2: string,
                                                  now: int)
    requires id1 != "" && id2 != "" && id1 != id2 && now <= expires(b)
    ensures !Consistent(Run(expires, 0, [Reg(b, recipient, id1, now)] + [Reg(b, recipient, id2, now)]))
  {
    RunOf(expires, 0, [Reg(b, recipient, id1, now)], Reg(b, recipient, id2, now));
    FirstRegistration(expires, b, recipient, id1, now);
    SecondRegistration(expires, b, recipient, id1, id2, now);
    SecondIsUnsafe(b, recipient, id1, id2);
    RecordKeepsIff(AfterOne(b, recipient, id1), b, recipient, id2);
  }

  /** With no cap and no bubble expiring, nothing is ever forgotten: lookups answer exactly from history. */
  lemma {:induction false} UncappedIsHistory(expires: Expiry, ops: seq<Op>)
    requires forall i :: 0 <= i < |ops| ==> forall b :: ops[i].now <= expires(b)
    ensures forall id ::
      (if id in Run(expires, 0, ops).byId then Some(Run(expires, 0, ops).byId[id]) else None) == LastFor(ops, id)
  {
    if ops != [] {
      UncappedIsHistory(expires, ops[..|ops| - 1]);
      assert forall b :: ops[|ops| - 1].now <= expires(b);
    }
  }

  // ---- several lookups at one time ----

  /** What lookups would answer. */
  function Answers(c: Index, expires: Expiry, now: int): string -> Option<nat> {
    (id: string) => Find(c, expires, id, now).1
  }

  ghost predicate IsView(views: map<nat, map<string, string>>, b: nat, id: string) {
    b in views && id in views[b].Values
  }

  /** No id is a view of two bubbles. */
  ghost predicate OneBubbleEach(views: map<nat, map<string, string>>) {
    forall b, b', id :: IsView(views, b, id) && IsView(views, b', id) ==> b == b'
  }

  /** Every indexed id is a view of its bubble, and no id is a view of two. */
  ghost predicate Apart(c: Index) {
    OneBubbleEach(c.views) && forall id :: id in c.byId ==> IsView(c.views, c.byId[id], id)
  }

  /** Dropping a bubble drops exactly the ids indexed to it. */
  lemma RemoveIsExact(c: Index, b: nat, id: string)
    requires Apart(c)
    ensures id in RemoveBubble(c, b).byId <==> id in c.byId && c.byId[id] != b
  {
    if id in c.byId { assert IsView(c.views, c.byId[id], id); }
    if id in ViewsOf(c, b).Values { assert IsView(c.views, b, id); }
  }

  lemma RemoveKeepsApart(c: Index, b: nat)
    requires Apart(c)
    ensures Apart(RemoveBubble(c, b))
  {
    RemoveShrinks(c, b);
  }

  /** Then a lookup, even one that drops an expired bubble, changes no other lookup's answer. */
  lemma LookupsAgree(c: Index, expires: Expiry, now: int, t: string, id: string)
    requires Apart(c)
    ensures var c1 := Find(c, expires, t, now).0;
      Apart(c1) && Answers(c1, expires, now)(id) == Answers(c, expires, now)(id)
  {
    if t in c.byId && now > expires(c.byId[t]) {
      RemoveIsExact(c, c.byId[t], id);
      RemoveKeepsApart(c, c.byId[t]);
    }
  }
}
