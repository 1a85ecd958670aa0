/** What signatures guarantee over every interleaving: no link opens and no send wakes without one. */
module LinkTrust {
  import opened Octets
  import opened Handshake
  import opened LinkLifecycle
  import opened LinkWorld

  // ---- what a forger cannot do ----

  /** The link was started by its owner. */
  ghost predicate StartedBy(actions: seq<Action>, l: nat, st: LinkState) {
    exists a :: a in actions && Starts(a, l, st) && a.priv == st.priv
  }

  predicate Starts(a: Action, l: nat, st: LinkState) {
    a.Start? && a.link == l && a.id == st.id && st.peerDest == Some(a.dest)
  }

  /** The proof arrived, signed. */
  ghost predicate CameIn(k: Curve, actions: seq<Action>, lr: LRProof, ed: Bytes) {
    exists a :: a in actions && a.ProofIn? && a.ed == ed && SignedBy(k, a.proof, ed) && ParseLRProof(a.proof) == Ok(lr)
  }

  predicate Opens(k: Curve, a: Action, b: Action, l: nat, st: LinkState) {
    && Starts(a, l, st)
    && b.ProofIn? && st.peerEd == Some(b.ed) && SignedBy(k, b.proof, b.ed)
    && b.proof.destHash == st.id && Exchanges(k, a.priv, b.proof)
    && (st.keys.Some? ==> Complete(k, st.id, a.priv, b.proof, b.ed) == Ok(st.keys.value))
  }

  /** An arrived packet with the responder's signature completed the link's own request. */
  ghost predicate OpenedBy(k: Curve, actions: seq<Action>, l: nat, st: LinkState) {
    exists a, b :: a in actions && b in actions && Opens(k, a, b, l, st)
  }

  ghost predicate AnsweredBy(actions: seq<Action>, l: nat) {
    exists a :: a in actions && a.Answer? && a.link == l
  }

  /** Where each link's state came from. */
  ghost predicate Traced(k: Curve, w: World, actions: seq<Action>) {
    && (forall l :: l in w.heap && w.heap[l].phase == Pending ==> StartedBy(actions, l, w.heap[l]))
    && (forall l :: l in w.heap && w.heap[l].peerEd.Some? ==> OpenedBy(k, actions, l, w.heap[l]))
    && (forall l :: l in w.heap && w.heap[l].phase == Active && w.heap[l].peerEd.None? ==> AnsweredBy(actions, l))
    && (forall t :: t in w.threads && w.threads[t].ProofHeld? ==>
          var p := w.threads[t];
          && p.link in w.heap && p.lr.linkId == w.heap[p.link].id && CameIn(k, actions, p.lr, p.ed))
  }

  lemma TracedLater(k: Curve, w: World, actions: seq<Action>, a: Action)
    requires Traced(k, w, actions)
    ensures Traced(k, w, actions + [a])
  {
    var all := actions + [a];
    assert forall b :: b in actions ==> b in all;
    forall l | l in w.heap && w.heap[l].peerEd.Some? ensures OpenedBy(k, all, l, w.heap[l]) {
      var b, c :| b in actions && c in actions && Opens(k, b, c, l, w.heap[l]);
      assert b in all && c in all;
    }
  }

  /** Steps other than a link's birth, a proof's arrival and activation leave all this as it was. */
  ghost predicate TraceFrame(w: World, w1: World) {
    && (forall l :: l in w1.heap ==> l in w.heap && SameTrace(w.heap[l], w1.heap[l]))
    && (forall l :: l in w.heap ==> l in w1.heap)
    && (forall t :: t in w1.threads && w1.threads[t].ProofHeld? ==> t in w.threads && w.threads[t] == w1.threads[t])
  }

  predicate SameTrace(st: LinkState, st1: LinkState) {
    && st1.id == st.id && st1.priv == st.priv && st1.peerEd == st.peerEd && st1.peerDest == st.peerDest
    && ((st1.phase == st.phase && st1.keys == st.keys) || (st1.phase == Closed && st1.keys.None?))
  }

  lemma OthersTraceFrame(k: Curve, w: World, a: Action)
    requires Enabled(k, w, a) && !a.Start? && !a.Answer? && !a.ProofIn? && !a.Activate?
    ensures TraceFrame(w, Step(k, w, a))
  {
  }

  lemma FrameKeepsTraced(k: Curve, w: World, w1: World, actions: seq<Action>)
    requires Traced(k, w, actions) && TraceFrame(w, w1)
    ensures Traced(k, w1, actions)
  {
    forall l | l in w1.heap && w1.heap[l].peerEd.Some? ensures OpenedBy(k, actions, l, w1.heap[l]) {
      var a, b :| a in actions && b in actions && Opens(k, a, b, l, w.heap[l]);
      assert Opens(k, a, b, l, w1.heap[l]);
    }
  }

  lemma BirthKeepsTraced(k: Curve, w: World, a: Action, actions: seq<Action>)
    requires Traced(k, w, actions) && Enabled(k, w, a) && (a.Start? || a.Answer?) && a in actions
    ensures Traced(k, Step(k, w, a), actions)
  {
    var w1 := Step(k, w, a);
    assert forall l :: l in w1.heap && l != a.link ==> l in w.heap && w1.heap[l] == w.heap[l];
  }

  lemma ArrivalKeepsTraced(k: Curve, w: World, a: Action, actions: seq<Action>)
    requires TableOk(w) && Traced(k, w, actions) && Enabled(k, w, a) && a.ProofIn? && a in actions
    ensures Traced(k, Step(k, w, a), actions)
  {
    AcceptedIffSigned(k, a.proof, a.ed);
  }

  lemma ActivateOpens(k: Curve, w: World, t: nat, actions: seq<Action>)
    requires Traced(k, w, actions) && Enabled(k, w, Activate(t)) && w.heap[w.threads[t].link].phase == Pending
    requires var p := w.threads[t]; Activated(k, w.heap[p.link], p.lr, p.ed).1
    ensures var p := w.threads[t]; OpenedBy(k, actions, p.link, Activated(k, w.heap[p.link], p.lr, p.ed).0)
  {
    var p := w.threads[t];
    var st, st1 := w.heap[p.link], Activated(k, w.heap[p.link], p.lr, p.ed).0;
    var a :| a in actions && Starts(a, p.link, st) && a.priv == st.priv;
    var b :|
      b in actions && b.ProofIn? && b.ed == p.ed && SignedBy(k, b.proof, p.ed) && ParseLRProof(b.proof) == Ok(p.lr);
    AcceptedIffSigned(k, b.proof, b.ed);
    CompletesIffSigned(k, st.id, a.priv, b.proof, b.ed);
    assert Opens(k, a, b, p.link, st1);
  }

  lemma ActivateKeepsTraced(k: Curve, w: World, t: nat, actions: seq<Action>)
    requires Traced(k, w, actions) && Enabled(k, w, Activate(t))
    ensures Traced(k, Step(k, w, Activate(t)), actions)
  {
    var p, w1 := w.threads[t], Step(k, w, Activate(t));
    if Activated(k, w.heap[p.link], p.lr, p.ed).1 {
      ActivateOpens(k, w, t, actions);
      assert forall l :: l in w1.heap && l != p.link ==> l in w.heap && w1.heap[l] == w.heap[l];
    } else {
      FrameKeepsTraced(k, w, w1, actions);
    }
  }

  lemma StepKeepsTraced(k: Curve, w: World, a: Action, actions: seq<Action>)
    requires TableOk(w) && Traced(k, w, actions) && Enabled(k, w, a) && a in actions
    ensures Traced(k, Step(k, w, a), actions)
  {
    match a
    case Start(_, _, _, _) => BirthKeepsTraced(k, w, a, actions);
    case Answer(_, _, _, _) => BirthKeepsTraced(k, w, a, actions);
    case ProofIn(_, _, _) => ArrivalKeepsTraced(k, w, a, actions);
    case Activate(t) => ActivateKeepsTraced(k, w, t, actions);
    case _ =>
      OthersTraceFrame(k, w, a);
      FrameKeepsTraced(k, w, Step(k, w, a), actions);
  }

  lemma {:induction false} RunIsTraced(k: Curve, actions: seq<Action>)
    ensures Traced(k, Run(k, NOTHING, actions), actions)
  {
    if actions != [] {
      var front, a := actions[..|actions| - 1], actions[|actions| - 1];
      assert actions == front + [a];
      RunIsTraced(k, front);
      TracedLater(k, Run(k, NOTHING, front), front, a);
      var w := Run(k, NOTHING, front);
      if Enabled(k, w, a) {
        assert TableOk(w) by { RunsAreSafe(k, front); }
        StepKeepsTraced(k, w, a, actions);
      }
    }
  }

  /** No forged proof opens a link. In every reachable state an active link was answered by this end, or a
      packet arrived for its id, signed by the key now held as its peer's over that packet's X25519 key, whose
      exchange with the private key the link was started with gives the link's keys. */
  lemma ActiveOnlyBySignature(k: Curve, actions: seq<Action>, l: nat)
    requires var w := Run(k, NOTHING, actions); l in w.heap && w.heap[l].phase == Active
    ensures var st := Run(k, NOTHING, actions).heap[l];
      if st.peerEd.None? then AnsweredBy(actions, l) else OpenedBy(k, actions, l, st)
  {
    RunIsTraced(k, actions);
  }

  // ---- what wakes a send ----

  /** An arrived packet for the link acknowledges the hash under its peer's key. */
  ghost predicate AcknowledgedBy(k: Curve, actions: seq<Action>, st: LinkState, hash: Bytes) {
    exists a :: a in actions && Acks(k, a, st, hash)
  }

  predicate Acks(k: Curve, a: Action, st: LinkState, hash: Bytes) {
    a.AckIn? && a.proof.destHash == st.id && Acknowledged(k, st, a.proof) == Some(hash)
  }

  ghost predicate Heard(k: Curve, w: World, actions: seq<Action>, l: nat, hash: Bytes) {
    l in w.heap && w.heap[l].peerEd.Some? && AcknowledgedBy(k, actions, w.heap[l], hash)
  }

  /** Every proof in hand arrived for its link, and every send signalled or about to be was acknowledged. */
  ghost predicate Answered(k: Curve, w: World, actions: seq<Action>) {
    && (forall t :: t in w.threads && w.threads[t].AckHeld? ==> HeldIsIn(w, actions, w.threads[t]))
    && (forall t :: t in w.threads && w.threads[t].AckVerified? ==>
          Heard(k, w, actions, w.threads[t].link, w.threads[t].hash))
    && (forall t :: t in w.threads && w.threads[t].Sending? ==>
          w.threads[t].channel in w.channels && HeardFor(k, w, actions, w.threads[t].channel))
    && (forall ch :: ch in w.channels && w.channels[ch].sends > 0 ==> HeardFor(k, w, actions, ch))
  }

  ghost predicate HeardFor(k: Curve, w: World, actions: seq<Action>, ch: nat)
    requires ch in w.channels
  {
    Heard(k, w, actions, w.channels[ch].link, w.channels[ch].hash)
  }

  ghost predicate HeldIsIn(w: World, actions: seq<Action>, p: Thread)
    requires p.AckHeld?
  {
    && p.link in w.heap && p.proof.destHash == w.heap[p.link].id
    && exists a :: a in actions && a.AckIn? && a.proof == p.proof
  }

  lemma HeardStays(k: Curve, w: World, a: Action, actions: seq<Action>, l: nat, hash: Bytes)
    requires PeersOk(w) && Enabled(k, w, a) && Heard(k, w, actions, l, hash)
    ensures Heard(k, Step(k, w, a), actions, l, hash)
  {
    PeerStays(k, w, a, l);
    var w1 := Step(k, w, a);
    var b :| b in actions && Acks(k, b, w.heap[l], hash);
    assert Acks(k, b, w1.heap[l], hash);
  }

  lemma HeardLater(k: Curve, w: World, actions: seq<Action>, a: Action, l: nat, hash: Bytes)
    requires Heard(k, w, actions, l, hash)
    ensures Heard(k, w, actions + [a], l, hash)
  {
    var b :| b in actions && Acks(k, b, w.heap[l], hash);
    assert b in actions + [a];
  }

  lemma AnsweredLater(k: Curve, w: World, actions: seq<Action>, a: Action)
    requires Answered(k, w, actions)
    ensures Answered(k, w, actions + [a])
  {
    forall l, hash | Heard(k, w, actions, l, hash) ensures Heard(k, w, actions + [a], l, hash) {
      HeardLater(k, w, actions, a, l, hash);
    }
    assert forall b :: b in actions ==> b in actions + [a];
  }

  lemma HeldStays(k: Curve, w: World, a: Action, actions: seq<Action>)
    requires TableOk(w) && Answered(k, w, actions) && Enabled(k, w, a) && a in actions
    ensures var w1 := Step(k, w, a);
      forall t :: t in w1.threads && w1.threads[t].AckHeld? ==> HeldIsIn(w1, actions, w1.threads[t])
  {
    var w1 := Step(k, w, a);
    forall t | t in w1.threads && w1.threads[t].AckHeld? ensures HeldIsIn(w1, actions, w1.threads[t]) {
      if t in w.threads && w.threads[t] == w1.threads[t] {
        StepMovesForward(k, w, a, w1.threads[t].link);
      } else {
        assert a == AckIn(t, w1.threads[t].proof);
      }
    }
  }

  lemma CheckedIsHeard(k: Curve, w: World, t: nat, actions: seq<Action>)
    requires Answered(k, w, actions) && Enabled(k, w, AckCheck(t))
    ensures var p := w.threads[t]; var h := Acknowledged(k, w.heap[p.link], p.proof);
      h.Some? ==> Heard(k, w, actions, p.link, h.value)
  {
    var p := w.threads[t];
    var a :| a in actions && a.AckIn? && a.proof == p.proof;
    var h := Acknowledged(k, w.heap[p.link], p.proof);
    if h.Some? { assert Acks(k, a, w.heap[p.link], h.value); }
  }

  /** What was heard before a step still is, and what the step newly relies on was heard before it. */
  lemma VerifiedHeard(k: Curve, w: World, a: Action, actions: seq<Action>, t: nat)
    requires Answered(k, w, actions) && Enabled(k, w, a)
    requires t in Step(k, w, a).threads && Step(k, w, a).threads[t].AckVerified?
    ensures var p := Step(k, w, a).threads[t]; Heard(k, w, actions, p.link, p.hash)
  {
    if a == AckCheck(t) { CheckedIsHeard(k, w, t, actions); }
  }

  lemma SenderHeard(k: Curve, w: World, a: Action, actions: seq<Action>, t: nat)
    requires ChannelsOk(w) && Answered(k, w, actions) && Enabled(k, w, a)
    requires t in Step(k, w, a).threads && Step(k, w, a).threads[t].Sending?
    ensures var ch := Step(k, w, a).threads[t].channel; ch in w.channels && HeardFor(k, w, actions, ch)
  {
  }

  lemma SentHeard(k: Curve, w: World, a: Action, actions: seq<Action>, ch: nat)
    requires Answered(k, w, actions) && Enabled(k, w, a)
    requires ch in Step(k, w, a).channels && Step(k, w, a).channels[ch].sends > 0
    ensures ch in w.channels && HeardFor(k, w, actions, ch)
  {
  }

  lemma HeardForStays(k: Curve, w: World, a: Action, actions: seq<Action>, ch: nat)
    requires PeersOk(w) && Enabled(k, w, a) && ch in w.channels && HeardFor(k, w, actions, ch)
    ensures ch in Step(k, w, a).channels && HeardFor(k, Step(k, w, a), actions, ch)
  {
    ChannelKeepsKey(k, w, a, ch);
    HeardStays(k, w, a, actions, w.channels[ch].link, w.channels[ch].hash);
  }

  lemma StepKeepsAnswered(k: Curve, w: World, a: Action, actions: seq<Action>)
    requires Inv(k, w) && Answered(k, w, actions) && Enabled(k, w, a) && a in actions
    ensures Answered(k, Step(k, w, a), actions)
  {
    var w1 := Step(k, w, a);
    assert PeersOk(w) && TableOk(w) && ChannelsOk(w);
    HeldStays(k, w, a, actions);
    forall t | t in w1.threads && w1.threads[t].AckVerified?
      ensures Heard(k, w1, actions, w1.threads[t].link, w1.threads[t].hash)
    {
      VerifiedHeard(k, w, a, actions, t);
      HeardStays(k, w, a, actions, w1.threads[t].link, w1.threads[t].hash);
    }
    forall t | t in w1.threads && w1.threads[t].Sending?
      ensures w1.threads[t].channel in w1.channels && HeardFor(k, w1, actions, w1.threads[t].channel)
    {
      SenderHeard(k, w, a, actions, t);
      HeardForStays(k, w, a, actions, w1.threads[t].channel);
    }
    forall ch | ch in w1.channels && w1.channels[ch].sends > 0 ensures HeardFor(k, w1, actions, ch) {
      SentHeard(k, w, a, actions, ch);
      HeardForStays(k, w, a, actions, ch);
    }
  }

  lemma {:induction false} RunIsAnswered(k: Curve, actions: seq<Action>)
    ensures Answered(k, Run(k, NOTHING, actions), actions)
  {
    if actions != [] {
      var front, a := actions[..|actions| - 1], actions[|actions| - 1];
      assert actions == front + [a];
      RunIsAnswered(k, front);
      var w := Run(k, NOTHING, front);
      AnsweredLater(k, w, front, a);
      if Enabled(k, w, a) {
        assert Inv(k, w) by { RunsAreSafe(k, front); }
        StepKeepsAnswered(k, w, a, actions);
      }
    }
  }

  /** No forged acknowledgement wakes a send: one that has been signalled was acknowledged by a packet for its
      link whose 64 octets the key of the link's peer accepts over the send's packet hash. */
  lemma WokenOnlyBySignature(k: Curve, actions: seq<Action>, ch: nat)
    requires var w := Run(k, NOTHING, actions); ch in w.channels && w.channels[ch].sends > 0
    ensures var w := Run(k, NOTHING, actions); var c := w.channels[ch];
      c.link in w.heap && w.heap[c.link].peerEd.Some? && AcknowledgedBy(k, actions, w.heap[c.link], c.hash)
  {
    RunIsAnswered(k, actions);
  }
}
