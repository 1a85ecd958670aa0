/** Per-recipient rewriting of the message ids that reactions, comments, continuations and replies point at.
    Field maps are shared heap objects; the rewrite must build new ones. */
module Rewrite {
  import opened Octets
  import Hex
  import IdMap

  const REPLY_TO := 0x30
  const REACTION := 0x40
  const COMMENT := 0x41
  const CONTINUATION := 0x42
  const TARGET := 0x00

  /** A decoded map key: an integer of some Go type, a text, or anything else. */
  datatype Key = Num(kind: string, n: int) | Str(s: string) | Opaque(tag: nat)

  /** A decoded value. A nested map is a reference. */
  datatype Value = Bin(b: Bytes) | Text(t: Bytes) | Dict(ref: FieldMap) | Other(tag: nat)

  class FieldMap {
    var m: map<Key, Value>
    constructor (m: map<Key, Value>)
      ensures this.m == m
    {
      this.m := m;
    }
  }

  // ---- keys and hashes ----

  const TWO63 := 0x8000_0000_0000_0000

  function Digits(s: string): Option<nat> {
    if s == "" || s[|s| - 1] !in "0123456789" then None
    else
      var d := s[|s| - 1] as nat - '0' as nat;
      if |s| == 1 then Some(d)
      else match Digits(s[..|s| - 1]) case Some(n) => Some(10 * n + d) case None => None
  }

  /** Decimal text with an optional sign, in 64-bit range. */
  function Atoi(s: string): Option<int> {
    var signed := s != "" && s[0] in "+-";
    match Digits(if signed then s[1..] else s)
    case None => None
    case Some(n) =>
      var v: int := if signed && s[0] == '-' then 0 - n as int else n as int;
      if -TWO63 <= v < TWO63 then Some(v) else None
  }

  /** Any integer type, an unsigned 64-bit value wrapping, or numeric text. */
  function KeyAsInt(k: Key): Option<int> {
    match k
    case Num(_, n) => Some(if n >= TWO63 then n - 2 * TWO63 else n)
    case Str(s) => Atoi(s)
    case Opaque(_) => None
  }

  predicate IsKey(k: Key, n: int) {
    KeyAsInt(k) == Some(n)
  }

  predicate DictField(n: int) {
    n == REACTION || n == COMMENT || n == CONTINUATION
  }

  function Chars(b: Bytes): string {
    seq(|b|, i requires 0 <= i < |b| => b[i] as char)
  }

  /** A raw hash: octets as they are; text as its octets, unless it is 64 hex digits. */
  function AsHashBytes(v: Value): Option<Bytes> {
    match v
    case Bin(b) => Some(b)
    case Text(t) => if |t| == 64 && Hex.Decode(Chars(t)).Some? then Hex.Decode(Chars(t)) else Some(t)
    case _ => None
  }

  // ---- what a field map holds, nested maps one level down ----

  datatype Flat = Leaf(v: Value) | Sub(inner: map<Key, Value>)

  ghost function Snap(m: map<Key, Value>): (s: map<Key, Flat>)
    reads set k | k in m && m[k].Dict? :: m[k].ref
  {
    map k | k in m :: if m[k].Dict? then Sub(m[k].ref.m) else Leaf(m[k])
  }

  ghost predicate HasTarget(f: Flat) {
    f.Sub? && exists mk :: mk in f.inner && IsKey(mk, TARGET)
  }

  predicate HashLeaf(f: Flat) {
    f.Leaf? && AsHashBytes(f.v).Some?
  }

  ghost predicate OneKey<T>(m: map<Key, T>, n: int) {
    forall a, b :: a in m && b in m && IsKey(a, n) && IsKey(b, n) ==> a == b
  }

  /** No two keys stand for one annotation number, and no annotation has two targets. */
  ghost predicate Unambiguous(m: map<Key, Flat>) {
    && OneKey(m, REPLY_TO) && OneKey(m, REACTION) && OneKey(m, COMMENT) && OneKey(m, CONTINUATION)
    && forall k :: k in m && m[k].Sub? ==> OneKey(m[k].inner, TARGET)
  }

  // ---- the plan: which fields point at cached bubbles ----

  datatype Plan = Plan(dicts: seq<(int, nat)>, reply: Option<nat>)

  function BubbleFor(dicts: seq<(int, nat)>, n: int): Option<nat> {
    if dicts == [] then None
    else if dicts[|dicts| - 1].0 == n then Some(dicts[|dicts| - 1].1)
    else BubbleFor(dicts[..|dicts| - 1], n)
  }

  ghost predicate PlanOk(dicts: seq<(int, nat)>) {
    && (forall i :: 0 <= i < |dicts| ==> DictField(dicts[i].0))
    && forall i, j :: 0 <= i < j < |dicts| ==> dicts[i].0 != dicts[j].0
  }

  ghost function TargetOf(inner: map<Key, Value>): Option<Bytes> {
    if exists mk :: mk in inner && IsKey(mk, TARGET) then
      var mk :| mk in inner && IsKey(mk, TARGET);
      AsHashBytes(inner[mk])
    else None
  }

  /** The cached bubble a reaction, comment or continuation points at. */
  ghost function DictBubble(f: Flat, lookup: string -> Option<nat>): Option<nat> {
    if f.Leaf? then None
    else match TargetOf(f.inner) case Some(b) => if b == [] then None else lookup(Hex.Encode(b)) case None => None
  }

  function ReplyBubble(f: Flat, lookup: string -> Option<nat>): Option<nat> {
    if HashLeaf(f) then lookup(Hex.Encode(AsHashBytes(f.v).value)) else None
  }

  /** The plan names exactly the cached targets among the fields `ks`. */
  ghost predicate PlansFor(m: map<Key, Flat>, ks: set<Key>, lookup: string -> Option<nat>, plan: Plan) {
    && PlanOk(plan.dicts)
    && (forall n, b :: BubbleFor(plan.dicts, n) == Some(b) ==> exists k :: k in ks && k in m && IsKey(k, n))
    && (forall k, n :: k in ks && k in m && IsKey(k, n) && DictField(n) ==>
      BubbleFor(plan.dicts, n) == DictBubble(m[k], lookup))
    && (plan.reply.Some? ==> exists k :: k in ks && k in m && IsKey(k, REPLY_TO))
    && (forall k :: k in ks && k in m && IsKey(k, REPLY_TO) ==> plan.reply == ReplyBubble(m[k], lookup))
  }

  lemma {:induction false} BubbleListed(dicts: seq<(int, nat)>, n: int)
    ensures BubbleFor(dicts, n).Some? <==> exists i :: 0 <= i < |dicts| && dicts[i].0 == n
  {
    if dicts != [] {
      var front := dicts[..|dicts| - 1];
      BubbleListed(front, n);
      if BubbleFor(front, n).Some? {
        var i :| 0 <= i < |front| && front[i].0 == n;
        assert dicts[i].0 == n;
      }
    }
  }

  lemma PlanSnoc(dicts: seq<(int, nat)>, n: int, b: nat)
    requires PlanOk(dicts) && DictField(n) && BubbleFor(dicts, n).None?
    ensures PlanOk(dicts + [(n, b)])
    ensures forall x :: BubbleFor(dicts + [(n, b)], x) == if x == n then Some(b) else BubbleFor(dicts, x)
  {
    BubbleListed(dicts, n);
    assert (dicts + [(n, b)])[..|dicts|] == dicts;
  }

  lemma TargetIs(inner: map<Key, Value>, mk: Key)
    requires OneKey(inner, TARGET) && mk in inner && IsKey(mk, TARGET)
    ensures TargetOf(inner) == AsHashBytes(inner[mk])
  {
  }

  lemma NoTarget(inner: map<Key, Value>)
    requires forall mk :: mk in inner && IsKey(mk, TARGET) ==> AsHashBytes(inner[mk]).None?
    ensures TargetOf(inner).None?
  {
  }

  /** extractDictTarget. */
  method ExtractDictTarget(v: Value) returns (target: string)
    ensures v.Dict? && OneKey(v.ref.m, TARGET) ==>
      target == match TargetOf(v.ref.m) case Some(b) => Hex.Encode(b) case None => ""
    ensures !v.Dict? ==> target == ""
  {
    if !v.Dict? { return ""; }
    var left := v.ref.m.Keys;
    while left != {}
      invariant left <= v.ref.m.Keys
      invariant forall mk :: mk in v.ref.m && mk !in left && IsKey(mk, TARGET) ==> AsHashBytes(v.ref.m[mk]).None?
      decreases left
    {
      var mk :| mk in left;
      left := left - {mk};
      if KeyAsInt(mk) != Some(TARGET) { continue; }
      match AsHashBytes(v.ref.m[mk]) {
        case Some(b) =>
          if OneKey(v.ref.m, TARGET) { TargetIs(v.ref.m, mk); }
          return Hex.Encode(b);
        case None =>
      }
    }
    NoTarget(v.ref.m);
    return "";
  }

  ghost function Flatten(v: Value): Flat
    reads if v.Dict? then {v.ref} else {}
  {
    if v.Dict? then Sub(v.ref.m) else Leaf(v)
  }

  /** One field of the scan. */
  method ScanField(k: Key, v: Value, plan: Plan, cache: IdMap.Cache, now: int,
                   ghost m: map<Key, Flat>, ghost seen: set<Key>, ghost lookup: string -> Option<nat>)
    returns (next: Plan)
    requires k in m && k !in seen && m[k] == Flatten(v)
    modifies cache
    ensures Unambiguous(m) && PlansFor(m, seen, lookup, plan) ==>
      Agrees(old(cache.View()), cache.expires, now, lookup) ==>
      PlansFor(m, seen + {k}, lookup, next) && Agrees(cache.View(), cache.expires, now, lookup)
  {
    ghost var exact := Unambiguous(m) && PlansFor(m, seen, lookup, plan)
      && Agrees(cache.View(), cache.expires, now, lookup);
    next := plan;
    var n := KeyAsInt(k);
    if n.Some? && DictField(n.value) {
      var target := ExtractDictTarget(v);
      var b := None;
      if target != "" { b := LookUp(cache, target, now, lookup); }
      if b.Some? { next := plan.(dicts := plan.dicts + [(n.value, b.value)]); }
      if exact { PlanDict(m, seen, lookup, plan, k, n.value, b); }
    } else if n == Some(REPLY_TO) && AsHashBytes(v).Some? {
      var b := LookUp(cache, Hex.Encode(AsHashBytes(v).value), now, lookup);
      if b.Some? { next := plan.(reply := b); }
      if exact { PlanReply(m, seen, lookup, plan, k, b); }
    } else if exact {
      PlanOther(m, seen, lookup, plan, k);
    }
  }

  /** buildRewrite's scan, in any order over the fields, looking each target up in the cache. When no id
      is a view of two bubbles the plan is what the cache would have answered to begin with. */
  method BuildRewrite(fields: FieldMap, cache: IdMap.Cache, now: int) returns (r: Option<Plan>)
    modifies cache
    ensures fields.m == old(fields.m)
    ensures Unambiguous(Snap(fields.m)) && IdMap.Apart(old(cache.View())) ==>
      PlansFor(Snap(fields.m), fields.m.Keys, IdMap.Answers(old(cache.View()), cache.expires, now),
               if r.Some? then r.value else Plan([], None))
    ensures r.Some? ==> r.value.dicts != [] || r.value.reply.Some?
  {
    var left := fields.m.Keys;
    var plan := Plan([], None);
    ghost var m := Snap(fields.m);
    ghost var lookup := IdMap.Answers(cache.View(), cache.expires, now);
    ghost var exact := Unambiguous(m) && IdMap.Apart(cache.View());
    assert fields.m.Keys - left == {};
    PlansNothing(m, lookup);
    while left != {}
      invariant left <= fields.m.Keys && fields.m == old(fields.m) && Snap(fields.m) == m
      invariant exact ==> PlansFor(m, fields.m.Keys - left, lookup, plan)
      invariant exact ==> Agrees(cache.View(), cache.expires, now, lookup)
      decreases left
    {
      var k :| k in left;
      ghost var seen := fields.m.Keys - left;
      left := left - {k};
      assert fields.m.Keys - left == seen + {k};
      plan := ScanField(k, fields.m[k], plan, cache, now, m, seen, lookup);
    }
    assert fields.m.Keys - left == fields.m.Keys;
    return if plan.dicts == [] && plan.reply.None? then None else Some(plan);
  }

  lemma PlansNothing(m: map<Key, Flat>, lookup: string -> Option<nat>)
    ensures PlansFor(m, {}, lookup, Plan([], None))
  {
  }

  /** The cache still answers as it did when the scan began. */
  ghost predicate Agrees(c: IdMap.Index, expires: IdMap.Expiry, now: int, lookup: string -> Option<nat>) {
    IdMap.Apart(c) && forall id :: IdMap.Answers(c, expires, now)(id) == lookup(id)
  }

  /** One lookup of the scan. */
  method LookUp(cache: IdMap.Cache, target: string, now: int,
                ghost lookup: string -> Option<nat>) returns (b: Option<nat>)
    modifies cache
    ensures Agrees(old(cache.View()), cache.expires, now, lookup) ==>
      b == lookup(target) && Agrees(cache.View(), cache.expires, now, lookup)
  {
    ghost var c := cache.View();
    b := cache.Lookup(target, now);
    if Agrees(c, cache.expires, now, lookup) {
      assert IdMap.Answers(c, cache.expires, now)(target) == lookup(target);
      forall id ensures IdMap.Apart(cache.View()) && IdMap.Answers(cache.View(), cache.expires, now)(id) == lookup(id) {
        IdMap.LookupsAgree(c, cache.expires, now, target, id);
      }
    }
  }

  lemma PlanReply(m: map<Key, Flat>, seen: set<Key>, lookup: string -> Option<nat>, plan: Plan, k: Key, b: Option<nat>)
    requires Unambiguous(m) && PlansFor(m, seen, lookup, plan) && k in m && k !in seen && IsKey(k, REPLY_TO)
    requires b == ReplyBubble(m[k], lookup)
    ensures PlansFor(m, seen + {k}, lookup, if b.Some? then plan.(reply := b) else plan)
  {
    assert OneKey(m, REPLY_TO);
  }

  lemma PlanOther(m: map<Key, Flat>, seen: set<Key>, lookup: string -> Option<nat>, plan: Plan, k: Key)
    requires Unambiguous(m) && PlansFor(m, seen, lookup, plan) && k in m && k !in seen
    requires forall n :: IsKey(k, n) ==> !DictField(n) && (n == REPLY_TO ==> !HashLeaf(m[k]))
    ensures PlansFor(m, seen + {k}, lookup, plan)
  {
    assert OneKey(m, REPLY_TO);
  }

  lemma PlanDict(m: map<Key, Flat>, seen: set<Key>, lookup: string -> Option<nat>, plan: Plan, k: Key, n: int,
                 b: Option<nat>)
    requires Unambiguous(m) && PlansFor(m, seen, lookup, plan) && k in m && k !in seen && IsKey(k, n) && DictField(n)
    requires b == DictBubble(m[k], lookup)
    ensures PlansFor(m, seen + {k}, lookup, if b.Some? then plan.(dicts := plan.dicts + [(n, b.value)]) else plan)
  {
    assert OneKey(m, n);
    assert BubbleFor(plan.dicts, n).None?;
    if b.Some? {
      PlanSnoc(plan.dicts, n, b.value);
      PlanGrows(m, seen, lookup, plan, plan.dicts + [(n, b.value)], k, n);
    }
  }

  lemma PlanGrows(m: map<Key, Flat>, seen: set<Key>, lookup: string -> Option<nat>, plan: Plan, dicts: seq<(int, nat)>,
                  k: Key, n: int)
    requires OneKey(m, n) && PlansFor(m, seen, lookup, plan) && k in m && k !in seen && IsKey(k, n) && DictField(n)
    requires PlanOk(dicts)
    requires forall x :: BubbleFor(dicts, x) == if x == n then DictBubble(m[k], lookup) else BubbleFor(plan.dicts, x)
    ensures PlansFor(m, seen + {k}, lookup, plan.(dicts := dicts))
  {
  }

  // ---- substitution for one recipient ----

  type Views = map<nat, map<string, string>>

  /** The recipient's own id for the bubble, as octets. */
  function RawView(views: Views, b: nat, recipient: string): Option<Bytes> {
    if b in views && recipient in views[b] then Hex.Decode(views[b][recipient]) else None
  }

  /** Only the target of a nested map is replaced. */
  ghost predicate Retargeted(inner: map<Key, Value>, inner': map<Key, Value>, raw: Bytes) {
    && inner'.Keys == inner.Keys
    && forall k :: k in inner ==> inner'[k] == if IsKey(k, TARGET) then Bin(raw) else inner[k]
  }

  /** What a reaction, comment or continuation field becomes; every other field is untouched. */
  ghost predicate DictFor(k: Key, f: Flat, g: Flat, dicts: seq<(int, nat)>, views: Views, recipient: string) {
    if KeyAsInt(k).Some? && BubbleFor(dicts, KeyAsInt(k).value).Some? && HasTarget(f) then
      var raw := RawView(views, BubbleFor(dicts, KeyAsInt(k).value).value, recipient);
      raw.Some? && g.Sub? && Retargeted(f.inner, g.inner, raw.value)
    else g == f
  }

  ghost predicate DictsDone(m: map<Key, Flat>, m': map<Key, Flat>, dicts: seq<(int, nat)>, views: Views,
                            recipient: string) {
    m'.Keys == m.Keys && forall k :: k in m ==> DictFor(k, m[k], m'[k], dicts, views, recipient)
  }

  /** The recipient never got a bubble that one of these fields annotates. */
  ghost predicate Skipped(m: map<Key, Flat>, dicts: seq<(int, nat)>, views: Views, recipient: string) {
    exists k :: k in m && KeyAsInt(k).Some? && BubbleFor(dicts, KeyAsInt(k).value).Some? && HasTarget(m[k])
      && RawView(views, BubbleFor(dicts, KeyAsInt(k).value).value, recipient).None?
  }

  ghost predicate ReplyMatch(m: map<Key, Flat>, k: Key) {
    k in m && IsKey(k, REPLY_TO) && HashLeaf(m[k])
  }

  /** A cached reply whose target the recipient never got. */
  ghost predicate Unbound(m: map<Key, Flat>, plan: Plan, views: Views, recipient: string) {
    plan.reply.Some? && RawView(views, plan.reply.value, recipient).None? && exists k :: ReplyMatch(m, k)
  }

  /** What one field becomes. */
  ghost predicate FieldFor(k: Key, f: Flat, g: Flat, plan: Plan, views: Views, recipient: string) {
    if IsKey(k, REPLY_TO) && plan.reply.Some? && HashLeaf(f) then
      var raw := RawView(views, plan.reply.value, recipient);
      raw.Some? && g == Leaf(Bin(raw.value))
    else DictFor(k, f, g, plan.dicts, views, recipient)
  }

  /** The recipient's copy: the same map with every cached target replaced by its own view; an unbound
      reply loses field 0x30 and nothing else. */
  ghost predicate CopyFor(m: map<Key, Flat>, m': map<Key, Flat>, plan: Plan, views: Views, recipient: string) {
    && m'.Keys == (set k | k in m && !(Unbound(m, plan, views, recipient) && IsKey(k, REPLY_TO)))
    && forall k :: k in m' ==> FieldFor(k, m[k], m'[k], plan, views, recipient)
  }

  ghost predicate DictMatch(m: map<Key, Flat>, k: Key, n: int) {
    k in m && IsKey(k, n) && HasTarget(m[k])
  }

  /** The nested map of field k, rebuilt with its target replaced. */
  predicate SetsTarget(m: map<Key, Flat>, m': map<Key, Flat>, k: Key, mk: Key, raw: Bytes) {
    && k in m && m[k].Sub? && mk in m[k].inner && IsKey(mk, TARGET)
    && m' == m[k := Sub(m[k].inner[mk := Bin(raw)])]
  }

  /** One call of substituteDictTarget, whichever matching key the iteration meets first. */
  ghost predicate DictStep(m: map<Key, Flat>, m': map<Key, Flat>, n: int, raw: Option<Bytes>, ok: bool) {
    || (ok && m' == m && forall k :: !DictMatch(m, k, n))
    || (!ok && raw.None? && m' == m && exists k :: DictMatch(m, k, n))
    || (ok && raw.Some? && exists k, mk :: DictMatch(m, k, n) && SetsTarget(m, m', k, mk, raw.value))
  }

  ghost predicate ReplyStep(m: map<Key, Flat>, m': map<Key, Flat>, raw: Option<Bytes>, ok: bool) {
    || (ok && m' == m && forall k :: !ReplyMatch(m, k))
    || (!ok && raw.None? && m' == m && exists k :: ReplyMatch(m, k))
    || (ok && raw.Some? && exists k :: ReplyMatch(m, k) && m' == m[k := Leaf(Bin(raw.value))])
  }

  /** A map does not hold itself. */
  ghost predicate Separate(f: FieldMap)
    reads f
  {
    forall k :: k in f.m && f.m[k].Dict? ==> f.m[k].ref != f
  }

  method CloneFields(src: FieldMap) returns (out: FieldMap)
    ensures fresh(out) && out.m == src.m
  {
    out := new FieldMap(map[]);
    var left := src.m.Keys;
    while left != {}
      invariant left <= src.m.Keys && fresh(out)
      invariant out.m == map k | k in src.m && k !in left :: src.m[k]
      decreases left
    {
      var k :| k in left;
      left := left - {k};
      out.m := out.m[k := src.m[k]];
    }
  }

  method FindTargetKey(inner: FieldMap) returns (r: Option<Key>)
    ensures r.Some? ==> r.value in inner.m && IsKey(r.value, TARGET)
    ensures r.None? ==> forall mk :: mk in inner.m ==> !IsKey(mk, TARGET)
  {
    var left := inner.m.Keys;
    while left != {}
      invariant left <= inner.m.Keys
      invariant forall mk :: mk in inner.m && mk !in left ==> !IsKey(mk, TARGET)
      decreases left
    {
      var mk :| mk in left;
      left := left - {mk};
      if KeyAsInt(mk) == Some(TARGET) { return Some(mk); }
    }
    return None;
  }

  /** substituteDictTarget: the nested map is rebuilt, never written. */
  method SubstituteDictTarget(fields: FieldMap, n: int, recipient: string, views: Views, b: nat) returns (ok: bool)
    requires Separate(fields)
    modifies fields
    ensures Separate(fields)
    ensures DictStep(old(Snap(fields.m)), Snap(fields.m), n, RawView(views, b, recipient), ok)
  {
    var left := fields.m.Keys;
    ghost var m := Snap(fields.m);
    while left != {}
      invariant left <= fields.m.Keys && fields.m == old(fields.m)
      invariant forall k :: k in m && k !in left ==> !DictMatch(m, k, n)
      decreases left
    {
      var k :| k in left;
      left := left - {k};
      if KeyAsInt(k) != Some(n) || !fields.m[k].Dict? { continue; }
      var inner := fields.m[k].ref;
      var t := FindTargetKey(inner);
      if t.None? { continue; }
      assert DictMatch(m, k, n);
      var raw := RawView(views, b, recipient);
      if raw.None? { return false; }
      var copy := CloneFields(inner);
      copy.m := copy.m[t.value := Bin(raw.value)];
      fields.m := fields.m[k := Dict(copy)];
      assert Snap(fields.m) == m[k := Sub(m[k].inner[t.value := Bin(raw.value)])];
      assert SetsTarget(m, Snap(fields.m), k, t.value, raw.value);
      return true;
    }
    return true;
  }

  method SubstituteReplyHash(fields: FieldMap, recipient: string, views: Views, b: nat) returns (ok: bool)
    requires Separate(fields)
    modifies fields
    ensures Separate(fields)
    ensures ReplyStep(old(Snap(fields.m)), Snap(fields.m), RawView(views, b, recipient), ok)
  {
    var left := fields.m.Keys;
    ghost var m := Snap(fields.m);
    while left != {}
      invariant left <= fields.m.Keys && fields.m == old(fields.m)
      invariant forall k :: k in m && k !in left ==> !ReplyMatch(m, k)
      decreases left
    {
      var k :| k in left;
      left := left - {k};
      if KeyAsInt(k) != Some(REPLY_TO) || AsHashBytes(fields.m[k]).None? { continue; }
      assert ReplyMatch(m, k);
      var raw := RawView(views, b, recipient);
      if raw.None? { return false; }
      fields.m := fields.m[k := Bin(raw.value)];
      assert Snap(fields.m) == m[k := Leaf(Bin(raw.value))];
      return true;
    }
    return true;
  }

  method StripReplyHash(fields: FieldMap)
    requires Separate(fields)
    modifies fields
    ensures Separate(fields)
    ensures fields.m == map k | k in old(fields.m) && !IsKey(k, REPLY_TO) :: old(fields.m)[k]
  {
    var left := fields.m.Keys;
    while left != {}
      invariant left <= fields.m.Keys <= old(fields.m).Keys
      invariant fields.m == map k | k in old(fields.m) && (k in left || !IsKey(k, REPLY_TO)) :: old(fields.m)[k]
      decreases left
    {
      var k :| k in left;
      left := left - {k};
      if KeyAsInt(k) != Some(REPLY_TO) { continue; }
      fields.m := fields.m - {k};
    }
  }

  lemma DictsDoneStep(m: map<Key, Flat>, cur: map<Key, Flat>, next: map<Key, Flat>, dicts: seq<(int, nat)>, i: nat,
                      views: Views, recipient: string)
    requires Unambiguous(m) && PlanOk(dicts) && i < |dicts| && DictsDone(m, cur, dicts[..i], views, recipient)
    requires DictStep(cur, next, dicts[i].0, RawView(views, dicts[i].1, recipient), true)
    ensures DictsDone(m, next, dicts[..i + 1], views, recipient)
  {
    var n := dicts[i].0;
    BubbleListed(dicts[..i], n);
    assert dicts[..i + 1][..i] == dicts[..i];
    assert OneKey(m, n);
    assert forall x :: BubbleFor(dicts[..i + 1], x) == if x == n then Some(dicts[i].1) else BubbleFor(dicts[..i], x);
    forall k | k in m ensures DictFor(k, m[k], next[k], dicts[..i + 1], views, recipient) {
      if IsKey(k, n) {
        assert cur[k] == m[k];
        if HasTarget(m[k]) { assert DictMatch(cur, k, n); }
      }
    }
  }

  lemma DictSkip(m: map<Key, Flat>, cur: map<Key, Flat>, dicts: seq<(int, nat)>, i: nat, views: Views,
                 recipient: string)
    requires PlanOk(dicts) && i < |dicts| && DictsDone(m, cur, dicts[..i], views, recipient)
    requires DictStep(cur, cur, dicts[i].0, RawView(views, dicts[i].1, recipient), false)
    ensures Skipped(m, dicts, views, recipient)
  {
    BubbleListed(dicts[..i], dicts[i].0);
    var k :| DictMatch(cur, k, dicts[i].0);
    assert cur[k] == m[k];
    BubbleAt(dicts, i);
  }

  lemma {:induction false} BubbleAt(dicts: seq<(int, nat)>, i: nat)
    requires PlanOk(dicts) && i < |dicts|
    ensures BubbleFor(dicts, dicts[i].0) == Some(dicts[i].1)
    decreases |dicts|
  {
    if i < |dicts| - 1 {
      assert dicts[|dicts| - 1].0 != dicts[i].0;
      BubbleAt(dicts[..|dicts| - 1], i);
    }
  }

  lemma DoneNotSkipped(m: map<Key, Flat>, cur: map<Key, Flat>, dicts: seq<(int, nat)>, views: Views, recipient: string)
    requires DictsDone(m, cur, dicts, views, recipient)
    ensures !Skipped(m, dicts, views, recipient)
  {
    forall k | k in m ensures DictFor(k, m[k], cur[k], dicts, views, recipient) {}
  }

  lemma ReplyFieldUntouched(m: map<Key, Flat>, cur: map<Key, Flat>, dicts: seq<(int, nat)>, views: Views,
                            recipient: string, k: Key)
    requires PlanOk(dicts) && DictsDone(m, cur, dicts, views, recipient) && k in m && IsKey(k, REPLY_TO)
    ensures cur[k] == m[k]
  {
    BubbleListed(dicts, REPLY_TO);
    assert DictFor(k, m[k], cur[k], dicts, views, recipient);
  }

  lemma ReplyDone(m: map<Key, Flat>, cur: map<Key, Flat>, next: map<Key, Flat>, plan: Plan, views: Views,
                  recipient: string)
    requires Unambiguous(m) && PlanOk(plan.dicts) && DictsDone(m, cur, plan.dicts, views, recipient) && plan.reply.Some?
    requires ReplyStep(cur, next, RawView(views, plan.reply.value, recipient), true)
    ensures CopyFor(m, next, plan, views, recipient)
  {
    forall k | k in m && IsKey(k, REPLY_TO) ensures cur[k] == m[k] {
      ReplyFieldUntouched(m, cur, plan.dicts, views, recipient, k);
    }
    assert forall k :: ReplyMatch(cur, k) <==> ReplyMatch(m, k);
    assert OneKey(m, REPLY_TO);
    forall k | k in next ensures FieldFor(k, m[k], next[k], plan, views, recipient) {
      assert DictFor(k, m[k], cur[k], plan.dicts, views, recipient);
      if ReplyMatch(m, k) { assert ReplyMatch(cur, k); }
    }
  }

  lemma ReplyStripped(m: map<Key, Flat>, cur: map<Key, Flat>, next: map<Key, Flat>, plan: Plan, views: Views,
                      recipient: string)
    requires Unambiguous(m) && PlanOk(plan.dicts) && DictsDone(m, cur, plan.dicts, views, recipient) && plan.reply.Some?
    requires ReplyStep(cur, cur, RawView(views, plan.reply.value, recipient), false)
    requires next == map k | k in cur && !IsKey(k, REPLY_TO) :: cur[k]
    ensures CopyFor(m, next, plan, views, recipient)
  {
    forall k | k in m && IsKey(k, REPLY_TO) ensures cur[k] == m[k] {
      ReplyFieldUntouched(m, cur, plan.dicts, views, recipient, k);
    }
    var k :| ReplyMatch(cur, k);
    assert ReplyMatch(m, k);
  }

  /** The closure's loop over the dict targets. */
  method RewriteDicts(dicts: seq<(int, nat)>, views: Views, recipient: string, shared: FieldMap)
    returns (copy: FieldMap, ok: bool)
    ensures fresh(copy) && Separate(copy)
    ensures Unambiguous(Snap(shared.m)) && PlanOk(dicts) ==>
      && (!ok <==> Skipped(Snap(shared.m), dicts, views, recipient))
      && (ok ==> DictsDone(Snap(shared.m), Snap(copy.m), dicts, views, recipient))
  {
    ghost var m := Snap(shared.m);
    ghost var exact := Unambiguous(m) && PlanOk(dicts);
    copy := CloneFields(shared);
    for i := 0 to |dicts|
      invariant fresh(copy) && Separate(copy)
      invariant exact ==> DictsDone(m, Snap(copy.m), dicts[..i], views, recipient)
    {
      ghost var cur := Snap(copy.m);
      ok := SubstituteDictTarget(copy, dicts[i].0, recipient, views, dicts[i].1);
      if !ok {
        if exact { DictSkip(m, cur, dicts, i, views, recipient); }
        return;
      }
      if exact { DictsDoneStep(m, cur, Snap(copy.m), dicts, i, views, recipient); }
    }
    ok := true;
    assert dicts[..|dicts|] == dicts;
    if exact { DoneNotSkipped(m, Snap(copy.m), dicts, views, recipient); }
  }

  /** The closure's reply part, on the copy. */
  method RewriteReply(plan: Plan, views: Views, recipient: string, copy: FieldMap, ghost m: map<Key, Flat>)
    requires Separate(copy)
    modifies copy
    ensures Unambiguous(m) && PlanOk(plan.dicts) && DictsDone(m, old(Snap(copy.m)), plan.dicts, views, recipient) ==>
      CopyFor(m, Snap(copy.m), plan, views, recipient)
  {
    ghost var cur := Snap(copy.m);
    ghost var exact := Unambiguous(m) && PlanOk(plan.dicts) && DictsDone(m, cur, plan.dicts, views, recipient);
    if plan.reply.None? { return; }
    var ok := SubstituteReplyHash(copy, recipient, views, plan.reply.value);
    if ok {
      if exact { ReplyDone(m, cur, Snap(copy.m), plan, views, recipient); }
    } else {
      assert Snap(copy.m) == cur;
      StripReplyHash(copy);
      if exact { ReplyStripped(m, cur, Snap(copy.m), plan, views, recipient); }
    }
  }

  /** The per-recipient closure. It writes no object that existed before the call, so the shared outer
      and nested maps, and every copy made for another recipient, are as they were. */
  method RewriteFor(plan: Plan, views: Views, recipient: string, shared: FieldMap) returns (out: FieldMap?)
    ensures out != null ==> fresh(out)
    ensures Unambiguous(Snap(shared.m)) && PlanOk(plan.dicts) ==>
      && (out == null <==> Skipped(Snap(shared.m), plan.dicts, views, recipient))
      && (out != null ==> CopyFor(Snap(shared.m), Snap(out.m), plan, views, recipient))
  {
    ghost var m := Snap(shared.m);
    var copy, ok := RewriteDicts(plan.dicts, views, recipient, shared);
    if !ok { return null; }
    RewriteReply(plan, views, recipient, copy, m);
    assert Snap(shared.m) == m;
    return copy;
  }

  // ---- scan and closure together ----

  lemma PlannedIsCached(m: map<Key, Flat>, lookup: string -> Option<nat>, plan: Plan, k: Key, n: int)
    requires PlansFor(m, m.Keys, lookup, plan) && k in m && IsKey(k, n)
    ensures BubbleFor(plan.dicts, n) == if DictField(n) then DictBubble(m[k], lookup) else None
  {
    BubbleListed(plan.dicts, n);
  }

  /** A cached target the recipient has no view of. */
  ghost predicate Missed(f: Flat, lookup: string -> Option<nat>, views: Views, recipient: string) {
    DictBubble(f, lookup).Some? && RawView(views, DictBubble(f, lookup).value, recipient).None?
  }

  /** With the plan the scan made, a recipient is skipped exactly when a cached reaction, comment or
      continuation target is one it has no view of. */
  lemma SkippedFollowsCache(m: map<Key, Flat>, lookup: string -> Option<nat>, plan: Plan, views: Views,
                            recipient: string)
    requires PlansFor(m, m.Keys, lookup, plan)
    ensures Skipped(m, plan.dicts, views, recipient) <==>
      exists k, n :: k in m && IsKey(k, n) && n in {0x40, 0x41, 0x42} && Missed(m[k], lookup, views, recipient)
  {
    forall k, n | k in m && IsKey(k, n)
      ensures BubbleFor(plan.dicts, n) == if DictField(n) then DictBubble(m[k], lookup) else None
    {
      PlannedIsCached(m, lookup, plan, k, n);
    }
    if Skipped(m, plan.dicts, views, recipient) {
      var k :| k in m && KeyAsInt(k).Some? && BubbleFor(plan.dicts, KeyAsInt(k).value).Some? && HasTarget(m[k])
        && RawView(views, BubbleFor(plan.dicts, KeyAsInt(k).value).value, recipient).None?;
      assert IsKey(k, KeyAsInt(k).value);
    }
  }

  /** Each field of a recipient's copy is, with a cached target, the same field aimed at its own view, and
      without one the very field it was. */
  lemma CopyFollowsCache(m: map<Key, Flat>, m': map<Key, Flat>, lookup: string -> Option<nat>, plan: Plan, views: Views,
                         recipient: string, k: Key)
    requires PlansFor(m, m.Keys, lookup, plan) && CopyFor(m, m', plan, views, recipient) && k in m'
    ensures AimedBy(k, m[k], m'[k], lookup, views, recipient)
  {
    assert FieldFor(k, m[k], m'[k], plan, views, recipient);
    if KeyAsInt(k).Some? {
      assert IsKey(k, KeyAsInt(k).value);
      PlannedIsCached(m, lookup, plan, k, KeyAsInt(k).value);
    }
  }

  /** One field of a copy, told by the cache alone. */
  ghost predicate AimedBy(k: Key, f: Flat, g: Flat, lookup: string -> Option<nat>, views: Views, recipient: string) {
    var n := KeyAsInt(k);
    var b := if n == Some(0x30) then ReplyBubble(f, lookup)
      else if n in {Some(0x40), Some(0x41), Some(0x42)} then DictBubble(f, lookup) else None;
    if b.None? then g == f
    else
      var raw := RawView(views, b.value, recipient);
      raw.Some? && if n == Some(0x30) then g == Leaf(Bin(raw.value))
        else f.Sub? && g.Sub? && Retargeted(f.inner, g.inner, raw.value)
  }

  // ---- with the cache's history ----

  /** End to end with the id cache, under the fan-out discipline: when a cached target t is replaced for a
      recipient, t was last registered for some bubble and the replacement is the id that this very
      recipient was registered for the same bubble. */
  lemma BindsToOwnCopy(expires: IdMap.Expiry, maxSize: nat, ops: seq<IdMap.Op>, t: string, now: int, b: nat,
                       recipient: string, raw: Bytes)
    requires IdMap.OncePerRecipient(ops)
    requires IdMap.Find(IdMap.Run(expires, maxSize, ops), expires, t, now).1 == Some(b)
    requires RawView(IdMap.Run(expires, maxSize, ops).views, b, recipient) == Some(raw)
    ensures IdMap.LastFor(ops, t) == Some(b) && now <= expires(b)
    ensures exists i, id ::
      0 <= i < |ops| && IdMap.Registers(ops[i], b, recipient, id) && Hex.Decode(id) == Some(raw)
    ensures exists j, r :: 0 <= j < |ops| && IdMap.Registers(ops[j], b, r, t)
  {
    IdMap.RefinesHistory(expires, maxSize, ops);
    IdMap.DisciplinedStaysConsistent(expires, maxSize, ops);
    var c := IdMap.Run(expires, maxSize, ops);
    assert t in IdMap.ViewsOf(c, b).Values;
    var r :| r in c.views[b] && c.views[b][r] == t;
  }

  // ---- keys and hashes read back ----

  function Decimal(n: nat): string {
    if n < 10 then ["0123456789"[n]] else Decimal(n / 10) + ["0123456789"[n % 10]]
  }

  lemma DigitValue(d: nat)
    requires d < 10
    ensures var c := "0123456789"[d]; c in "0123456789" && c !in "+-" && c as nat - '0' as nat == d
  {
  }

  lemma {:induction false} DecimalDigits(n: nat)
    ensures var s := Decimal(n); s != "" && s[0] !in "+-" && Digits(s) == Some(n)
    decreases n
  {
    DigitValue(n % 10);
    if n >= 10 {
      DecimalDigits(n / 10);
      DigitsSnoc(Decimal(n / 10), n % 10, n / 10);
    }
  }

  lemma {:induction false} DigitsSnoc(s: string, d: nat, n: nat)
    requires d < 10 && s != "" && Digits(s) == Some(n)
    ensures Digits(s + ["0123456789"[d]]) == Some(10 * n + d)
  {
    DigitValue(d);
    assert (s + ["0123456789"[d]])[..|s|] == s;
  }

  /** A text key reads as the number its digits make exactly within 64 bits, with its sign if it has one. */
  lemma TextKeyReads(s: string, n: nat)
    requires s != "" && s[0] !in "+-" && Digits(s) == Some(n)
    ensures KeyAsInt(Str(s)) == if n < TWO63 then Some(n) else None
    ensures KeyAsInt(Str("+" + s)) == if n < TWO63 then Some(n) else None
    ensures KeyAsInt(Str("-" + s)) == if n <= TWO63 then Some(-(n as int)) else None
  {
    assert ("+" + s)[1..] == s && ("-" + s)[1..] == s;
  }

  /** An integer key reads as itself within 64 bits, and an unsigned one past them wraps. */
  lemma IntegerKeyReads(n: int, kind: string)
    requires -TWO63 <= n < 2 * TWO63
    ensures KeyAsInt(Num(kind, n)) == Some(if n < TWO63 then n else n - 2 * TWO63)
  {
  }

  /** A message id reads the same from its octets and from the 64 hex digits that name it. */
  lemma HashReads(id: Bytes, text: Bytes)
    requires |id| == 32 && Chars(text) == Hex.Encode(id)
    ensures AsHashBytes(Bin(id)) == Some(id) && AsHashBytes(Text(text)) == Some(id)
  {
    Hex.DecodeEncode(id);
  }

  /** Any other text is an id by its own octets. */
  lemma PlainHashReads(text: Bytes)
    requires |text| != 64 || Hex.Decode(Chars(text)).None?
    ensures AsHashBytes(Text(text)) == Some(text)
  {
  }

  /** A field points at a bubble exactly when its nested map has a target that is a message id the cache answers
      with it; an empty id points nowhere. */
  lemma DictBubbleIff(f: Flat, lookup: string -> Option<nat>, b: nat)
    requires f.Sub? ==> OneKey(f.inner, 0)
    ensures DictBubble(f, lookup) == Some(b) <==>
      && f.Sub?
      && exists k :: k in f.inner && KeyAsInt(k) == Some(0) && PointsAt(f.inner[k], lookup, b)
  {
    if f.Sub? {
      if k :| k in f.inner && IsKey(k, TARGET) { TargetIs(f.inner, k); }
    }
  }

  predicate PointsAt(v: Value, lookup: string -> Option<nat>, b: nat) {
    AsHashBytes(v).Some? && AsHashBytes(v).value != [] && lookup(Hex.Encode(AsHashBytes(v).value)) == Some(b)
  }

  /** A reply points at the bubble the cache answers its id with. */
  lemma ReplyBubbleIff(f: Flat, lookup: string -> Option<nat>, b: nat)
    ensures ReplyBubble(f, lookup) == Some(b) <==>
      f.Leaf? && AsHashBytes(f.v).Some? && lookup(Hex.Encode(AsHashBytes(f.v).value)) == Some(b)
  {
  }
}
