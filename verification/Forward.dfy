/** Fan-out of one message to the active roster, and the discipline it gives the id cache. */
module Forward {
  import opened Octets
  import Hex
  import IdMap
  import opened Rewrite

  /** One enqueued message; `name` is the roster key it was made for. */
  datatype Job = Job(name: string, recipient: Bytes, body: Bytes, fields: FieldMap?, bubble: Option<nat>)

  /** A roster key that is a 16-octet destination other than the sender. */
  predicate Addressable(h: string, sender: string) {
    h != sender && Hex.Decode(h).Some? && |Hex.Decode(h).value| == 16
  }

  /** What a possibly absent field map holds. */
  ghost function Content(fields: FieldMap?): map<Key, Flat>
    reads fields, if fields == null then {} else set k | k in fields.m && fields.m[k].Dict? :: fields.m[k].ref
  {
    if fields == null then map[] else Snap(fields.m)
  }

  ghost function Names(jobs: seq<Job>): set<string> {
    set job | job in jobs :: job.name
  }

  ghost predicate Shaped(job: Job, sender: string, body: Bytes, bubble: Option<nat>) {
    && Addressable(job.name, sender) && job.recipient == Hex.Decode(job.name).value
    && job.body == body && job.bubble == bubble
  }

  ghost predicate Distinct(jobs: seq<Job>) {
    forall i, j :: 0 <= i < j < |jobs| ==> jobs[i].name != jobs[j].name
  }

  /** What a job carries: nothing for a text-only member; the shared map when nothing is rewritten;
      otherwise this member's own copy of its content. */
  ghost predicate Carries(job: Job, fields: FieldMap?, content: map<Key, Flat>, plan: Option<Plan>, views: Views,
                          textOnly: bool)
    reads job.fields
    reads if job.fields == null then {} else set k | k in job.fields.m && job.fields.m[k].Dict? :: job.fields.m[k].ref
  {
    if textOnly then job.fields == null
    else if plan.None? then job.fields == fields
    else job.fields != null && CopyFor(content, Snap(job.fields.m), plan.value, views, job.name)
  }

  /** The rewrite is told apart by integer keys alone. */
  ghost predicate Exact(content: map<Key, Flat>, plan: Option<Plan>) {
    plan.Some? ==> Unambiguous(content) && PlanOk(plan.value.dicts)
  }

  /** Who gets a message. */
  ghost predicate Served(h: string, sender: string, body: Bytes, content: map<Key, Flat>, plan: Option<Plan>,
                         views: Views, textOnly: bool) {
    && Addressable(h, sender) && !(textOnly && body == [])
    && (plan.Some? ==> !Skipped(content, plan.value.dicts, views, h))
  }

  /** The loop body for one roster key. */
  method ForwardOne(h: string, sender: string, body: Bytes, fields: FieldMap?, plan: Option<Plan>, bubble: Option<nat>,
                    textOnly: bool, views: Views)
    returns (job: Option<Job>)
    requires plan.Some? ==> fields != null
    ensures job.Some? ==> job.value.name == h && Shaped(job.value, sender, body, bubble)
    ensures job.Some? && textOnly ==> job.value.fields == null && body != []
    ensures Exact(Content(fields), plan) ==>
      (job.Some? <==> Served(h, sender, body, Content(fields), plan, views, textOnly))
    ensures Exact(Content(fields), plan) && job.Some? ==>
      Carries(job.value, fields, Content(fields), plan, views, textOnly)
  {
    if h == sender { return None; }
    var raw := Hex.Decode(h);
    if raw.None? || |raw.value| != 16 { return None; }
    var own := fields;
    if plan.Some? {
      var copy := RewriteFor(plan.value, views, h, fields);
      if copy == null { return None; }
      own := copy;
    }
    if textOnly {
      own := null;
      if body == [] { return None; }
    }
    return Some(Job(h, raw.value, body, own, bubble));
  }

  /** forwardToRoster. Other goroutines may add views meanwhile, so each member's turn sees its own
      `views`. Every copy still reads as it was made when the loop ends, and no shared map changes. */
  method ForwardToRoster(sender: string, body: Bytes, fields: FieldMap?, plan: Option<Plan>, bubble: Option<nat>,
                         active: set<string>, textOnly: string -> bool, views: string -> Views)
    returns (jobs: seq<Job>, enqueued: nat)
    requires plan.Some? ==> fields != null
    ensures enqueued == |jobs| && Distinct(jobs)
    ensures Names(jobs) <= active && forall job :: job in jobs ==> Shaped(job, sender, body, bubble)
    ensures forall job :: job in jobs ==>
      job.name != sender && (textOnly(job.name) ==> job.fields == null && body != [])
    ensures plan.None? ==> forall h :: h in active ==>
      (h in Names(jobs) <==>
        h != sender && Hex.Decode(h).Some? && |Hex.Decode(h).value| == 16 && !(textOnly(h) && body == []))
    ensures Exact(Content(fields), plan) ==>
      forall job :: job in jobs ==> Carries(job, fields, Content(fields), plan, views(job.name), textOnly(job.name))
    ensures Exact(Content(fields), plan) ==> forall h :: h in active ==>
      (h in Names(jobs) <==> Served(h, sender, body, Content(fields), plan, views(h), textOnly(h)))
  {
    jobs, enqueued := [], 0;
    var left := active;
    ghost var content := Content(fields);
    ghost var exact := Exact(content, plan);
    ghost var served := set h | h in active && Served(h, sender, body, content, plan, views(h), textOnly(h));
    while left != {}
      invariant left <= active && enqueued == |jobs| && Distinct(jobs)
      invariant Names(jobs) <= active - left
      invariant forall job :: job in jobs ==>
        && Shaped(job, sender, body, bubble) && (textOnly(job.name) ==> job.fields == null && body != [])
        && (exact ==> Carries(job, fields, content, plan, views(job.name), textOnly(job.name)))
      invariant exact ==> Names(jobs) == served - left
      decreases left
    {
      var h :| h in left;
      left := left - {h};
      var job := ForwardOne(h, sender, body, fields, plan, bubble, textOnly(h), views(h));
      assert Content(fields) == content;
      if job.None? { continue; }
      AppendJob(jobs, job.value);
      jobs := jobs + [job.value];
      enqueued := enqueued + 1;
    }
  }

  lemma AppendJob(jobs: seq<Job>, job: Job)
    ensures forall j :: j in jobs + [job] <==> j in jobs || j == job
    ensures Names(jobs + [job]) == Names(jobs) + {job.name}
    ensures Distinct(jobs) && job.name !in Names(jobs) ==> Distinct(jobs + [job])
  {
    assert (jobs + [job])[|jobs|] == job;
    assert forall i :: 0 <= i < |jobs| ==> jobs[i] in jobs && (jobs + [job])[i] == jobs[i];
  }

  // ---- the discipline ----

  /** What a finished fan-out under one bubble leaves behind, for lower-case roster keys. */
  datatype FanOut = FanOut(sender: string, jobs: seq<Job>)

  ghost predicate FanOutOk(f: FanOut) {
    && Distinct(f.jobs)
    && forall i :: 0 <= i < |f.jobs| ==>
      && Addressable(f.jobs[i].name, f.sender) && Hex.LowerCase(f.jobs[i].name)
      && f.jobs[i].recipient == Hex.Decode(f.jobs[i].name).value
  }

  /** Why a view was registered: the sender's own, before the fan-out, or the delivery of one job. */
  datatype Cause = Original | Delivery(j: nat)

  /** The registrations of a history come from fan-outs, one bubble each, every cause at most once. */
  ghost predicate FromFanOuts(ops: seq<IdMap.Op>, cause: seq<Cause>, fans: map<nat, FanOut>) {
    && |cause| == |ops|
    && (forall i :: 0 <= i < |ops| && ops[i].Reg? ==>
      ops[i].b in fans && Explains(cause[i], fans[ops[i].b], ops[i].recipient))
    && (forall i, j :: 0 <= i < j < |ops| && ops[i].Reg? && ops[j].Reg? && ops[i].b == ops[j].b ==>
      cause[i] != cause[j])
  }

  /** A delivery registers the re-encoded recipient. */
  ghost predicate Explains(c: Cause, f: FanOut, recipient: string) {
    match c
    case Original => recipient == f.sender
    case Delivery(j) => j < |f.jobs| && recipient == Hex.Encode(f.jobs[j].recipient)
  }

  /** Different causes register different recipients: fan-out gives each bubble one id per recipient. */
  lemma FanOutIsDisciplined(ops: seq<IdMap.Op>, cause: seq<Cause>, fans: map<nat, FanOut>)
    requires FromFanOuts(ops, cause, fans) && forall b :: b in fans ==> FanOutOk(fans[b])
    ensures IdMap.OncePerRecipient(ops)
  {
    forall i, j | 0 <= i < j < |ops| && ops[i].Reg? && ops[j].Reg? && ops[i].b == ops[j].b
      ensures ops[i].recipient != ops[j].recipient
    {
      CausesDiffer(fans[ops[i].b], cause[i], cause[j]);
    }
  }

  lemma CausesDiffer(f: FanOut, a: Cause, b: Cause)
    requires FanOutOk(f) && a != b
    ensures forall r :: Explains(a, f, r) ==> !Explains(b, f, r)
  {
    forall i | 0 <= i < |f.jobs| ensures Hex.Encode(f.jobs[i].recipient) == f.jobs[i].name {
      Hex.EncodeDecode(f.jobs[i].name);
    }
  }

  /** Hence, with nothing but fan-outs registering, the cache's index is consistent after any history. */
  lemma FanOutsKeepCacheConsistent(expires: IdMap.Expiry, maxSize: nat, ops: seq<IdMap.Op>, cause: seq<Cause>,
                                   fans: map<nat, FanOut>)
    requires FromFanOuts(ops, cause, fans) && forall b :: b in fans ==> FanOutOk(fans[b])
    ensures IdMap.Consistent(IdMap.Run(expires, maxSize, ops))
  {
    FanOutIsDisciplined(ops, cause, fans);
    IdMap.DisciplinedStaysConsistent(expires, maxSize, ops);
  }
}
