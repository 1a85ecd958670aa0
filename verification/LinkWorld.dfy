/** Every interleaving of the link manager's locked sections, by any number of goroutines. */
module LinkWorld {
  import opened Octets
  import opened Handshake
  import opened LinkLifecycle
  import opened LinkData
  import opened Header = Packet

  /** A goroutine between two locked sections. */
  datatype Thread =
    | ProofHeld(link: nat, lr: LRProof, ed: Bytes)  // HandleLRProof, after finding the link
    | Activating(link: nat)                         // about to close the activation channel
    | AckHeld(link: nat, proof: Packet)             // handleLinkProof, after finding the link
    | AckVerified(link: nat, hash: Bytes)           // signature checked
    | Sending(channel: nat)                         // waiter taken out, about to send on its channel
    | Waiting(link: nat, hash: Bytes, channel: nat) // SendOverLink, from registering to clearing its waiter

  /** A one-slot proof channel and what it was registered for. */
  datatype Channel = Channel(link: nat, hash: Bytes, sends: nat, full: bool)

  /** Link objects by address, the manager's table, goroutines, how often each activation channel was
      closed, and proof channels. */
  datatype World = World(
    heap: map<nat, LinkState>, table: map<Bytes, nat>, threads: map<nat, Thread>, closings: map<nat, nat>,
    channels: map<nat, Channel>)

  const NOTHING := World(map[], map[], map[], map[], map[])

  datatype Action =
    | Start(link: nat, id: Bytes, priv: Bytes, dest: Bytes)
    | Answer(link: nat, id: Bytes, keys: (Bytes, Bytes), priv: Bytes)
    | ProofIn(t: nat, proof: Packet, ed: Bytes)
    | Activate(t: nat)
    | CloseSignal(t: nat)
    | Close(id: Bytes)
    | AckIn(t: nat, proof: Packet)
    | AckCheck(t: nat)
    | Take(t: nat)
    | Push(t: nat)
    | Register(t: nat, link: nat, hash: Bytes, channel: nat)
    | Receive(t: nat)
    | Unregister(t: nat)

  function Count(m: map<nat, nat>, x: nat): nat {
    if x in m then m[x] else 0
  }

  /** A send registers only on a link it saw active as initiator: one that holds the peer's key. */
  predicate Enabled(k: Curve, w: World, a: Action) {
    match a
    case Start(l, _, _, _) => l !in w.heap
    case Answer(l, _, _, _) => l !in w.heap
    case ProofIn(t, p, ed) =>
      && t !in w.threads && ParseLRProof(p).Ok? && Verify(k, ParseLRProof(p).value, ed)
      && ParseLRProof(p).value.linkId in w.table
    case Activate(t) => t in w.threads && w.threads[t].ProofHeld? && w.threads[t].link in w.heap
    case CloseSignal(t) => t in w.threads && w.threads[t].Activating?
    case Close(id) => id in w.table && w.table[id] in w.heap
    case AckIn(t, p) => t !in w.threads && p.destHash in w.table
    case AckCheck(t) => t in w.threads && w.threads[t].AckHeld? && w.threads[t].link in w.heap
    case Take(t) => t in w.threads && w.threads[t].AckVerified? && w.threads[t].link in w.heap
    case Push(t) => t in w.threads && w.threads[t].Sending? && w.threads[t].channel in w.channels
    case Register(t, l, _, ch) => t !in w.threads && l in w.heap && w.heap[l].peerEd.Some? && ch !in w.channels
    case Receive(t) => t in w.threads && w.threads[t].Waiting? && w.threads[t].channel in w.channels
    case Unregister(t) => t in w.threads && w.threads[t].Waiting? && w.threads[t].link in w.heap
  }

  /** What handleLinkProof makes of a proof on this link: the hash it acknowledges, if its signature is the
      peer's. */
  function Acknowledged(k: Curve, l: LinkState, p: Packet): Option<Bytes> {
    if l.peerEd.None? then None
    else match ValidateLinkProof(k, p, l.peerEd.value) case Ok(h) => Some(h) case Err(_) => None
  }

  function Step(k: Curve, w: World, a: Action): World
    requires Enabled(k, w, a)
  {
    match a
    case Start(l, id, priv, dest) => w.(heap := w.heap[l := Started(id, priv, dest)], table := w.table[id := l])
    case Answer(l, id, keys, priv) => w.(heap := w.heap[l := Responding(id, keys, priv)], table := w.table[id := l])
    case ProofIn(t, p, ed) =>
      var lr := ParseLRProof(p).value;
      w.(threads := w.threads[t := ProofHeld(w.table[lr.linkId], lr, ed)])
    case Activate(t) =>
      var p := w.threads[t];
      var r := Activated(k, w.heap[p.link], p.lr, p.ed);
      w.(heap := w.heap[p.link := r.0],
         threads := if r.1 && r.0.signal then w.threads[t := Activating(p.link)] else w.threads - {t})
    case CloseSignal(t) =>
      var l := w.threads[t].link;
      w.(closings := w.closings[l := Count(w.closings, l) + 1], threads := w.threads - {t})
    case Close(id) => w.(heap := w.heap[w.table[id] := Shut(w.heap[w.table[id]])], table := w.table - {id})
    case AckIn(t, p) => w.(threads := w.threads[t := AckHeld(w.table[p.destHash], p)])
    case AckCheck(t) =>
      var held := w.threads[t];
      var hash := Acknowledged(k, w.heap[held.link], held.proof);
      w.(threads := match hash
         case Some(h) => w.threads[t := AckVerified(held.link, h)]
         case None => w.threads - {t})
    case Take(t) =>
      var p := w.threads[t];
      var r := Taken(w.heap[p.link], p.hash);
      w.(heap := w.heap[p.link := r.0],
         threads := match r.1 case Some(ch) => w.threads[t := Sending(ch)] case None => w.threads - {t})
    case Push(t) =>
      var ch := w.threads[t].channel;
      var c := w.channels[ch];
      w.(channels := if c.full then w.channels else w.channels[ch := c.(sends := c.sends + 1, full := true)],
         threads := w.threads - {t})
    case Register(t, l, hash, ch) =>
      w.(heap := w.heap[l := WithWaiter(w.heap[l], hash, ch)],
         channels := w.channels[ch := Channel(l, hash, 0, false)], threads := w.threads[t := Waiting(l, hash, ch)])
    case Receive(t) =>
      var ch := w.threads[t].channel;
      w.(channels := w.channels[ch := w.channels[ch].(full := false)])
    case Unregister(t) =>
      var p := w.threads[t];
      w.(heap := w.heap[p.link := WithoutWaiter(w.heap[p.link], p.hash)], threads := w.threads - {t})
  }

  // ---- each link's life ----

  /** Keys are present exactly while active. */
  ghost predicate KeysOk(w: World) {
    forall l :: l in w.heap ==> (w.heap[l].keys.Some? <==> w.heap[l].phase == Active)
  }

  lemma StepKeepsKeys(k: Curve, w: World, a: Action)
    requires KeysOk(w) && Enabled(k, w, a)
    ensures KeysOk(Step(k, w, a))
  {
  }

  function Rank(p: Phase): nat {
    match p case Pending => 0 case Active => 1 case Closed => 2
  }

  /** No step moves a link back, forgets one, or changes which it is; only a proof activates. */
  lemma StepMovesForward(k: Curve, w: World, a: Action, l: nat)
    requires Enabled(k, w, a) && l in w.heap
    ensures var w' := Step(k, w, a);
      && l in w'.heap && w'.heap[l].id == w.heap[l].id && Rank(w.heap[l].phase) <= Rank(w'.heap[l].phase)
      && (w.heap[l].phase == Pending && w'.heap[l].phase == Active ==> a.Activate? && w.threads[a.t].link == l)
  {
  }

  /** The manager lists a link under its own id, and never a closed one. */
  ghost predicate TableOk(w: World) {
    forall id :: id in w.table ==>
      w.table[id] in w.heap && w.heap[w.table[id]].id == id && w.heap[w.table[id]].phase != Closed
  }

  lemma StepKeepsTable(k: Curve, w: World, a: Action)
    requires TableOk(w) && Enabled(k, w, a)
    ensures TableOk(Step(k, w, a))
  {
  }

  // ---- the activation channel ----

  /** A goroutine about to close an activation channel is the only one ever to do so. */
  ghost predicate ActivationOk(w: World) {
    && (forall t :: t in w.threads && w.threads[t].Activating? ==>
          var l := w.threads[t].link; l in w.heap && w.heap[l].phase != Pending && Count(w.closings, l) == 0)
    && (forall t, u ::
      t in w.threads && u in w.threads && t != u && w.threads[t].Activating? && w.threads[u].Activating? ==>
          w.threads[t].link != w.threads[u].link)
    && (forall l :: l in w.closings ==>
      w.closings[l] <= 1 && l in w.heap && w.heap[l].phase != Pending && w.heap[l].signal)
    && (forall t :: t in w.threads && w.threads[t].Activating? ==>
      w.threads[t].link in w.heap && w.heap[w.threads[t].link].signal)
  }

  /** No new goroutine about to close, no closing, and no link back to pending. */
  ghost predicate ActivationFrame(w: World, w': World) {
    && w'.closings == w.closings
    && (forall t :: t in w'.threads && w'.threads[t].Activating? ==> t in w.threads && w.threads[t] == w'.threads[t])
    && (forall l :: l in w.heap ==> l in w'.heap && w'.heap[l].signal == w.heap[l].signal)
    && (forall l :: l in w.heap && w.heap[l].phase != Pending ==> w'.heap[l].phase != Pending)
  }

  lemma OthersFrame(k: Curve, w: World, a: Action)
    requires Enabled(k, w, a) && !a.Activate? && !a.CloseSignal?
    ensures ActivationFrame(w, Step(k, w, a))
  {
  }

  lemma FrameKeepsActivation(w: World, w': World)
    requires ActivationOk(w) && ActivationFrame(w, w')
    ensures ActivationOk(w')
  {
  }

  lemma ActivateKeepsActivation(k: Curve, w: World, t: nat)
    requires ActivationOk(w) && Enabled(k, w, Activate(t))
    ensures ActivationOk(Step(k, w, Activate(t)))
  {
    var p, w' := w.threads[t], Step(k, w, Activate(t));
    if w.heap[p.link].phase != Pending || !Activated(k, w.heap[p.link], p.lr, p.ed).1 || !w.heap[p.link].signal {
      FrameKeepsActivation(w, w');
    } else {
      assert Count(w.closings, p.link) == 0;
      assert forall u :: u in w'.threads && u != t ==> u in w.threads && w'.threads[u] == w.threads[u];
      assert forall l :: l in w.heap && l != p.link ==> w'.heap[l] == w.heap[l];
    }
  }

  lemma CloseSignalKeepsActivation(k: Curve, w: World, t: nat)
    requires ActivationOk(w) && Enabled(k, w, CloseSignal(t))
    ensures ActivationOk(Step(k, w, CloseSignal(t)))
  {
    var w' := Step(k, w, CloseSignal(t));
    assert forall u :: u in w'.threads ==> u != t && u in w.threads && w'.threads[u] == w.threads[u];
  }

  lemma StepKeepsActivation(k: Curve, w: World, a: Action)
    requires ActivationOk(w) && Enabled(k, w, a)
    ensures ActivationOk(Step(k, w, a))
  {
    match a
    case Activate(t) => ActivateKeepsActivation(k, w, t);
    case CloseSignal(t) => CloseSignalKeepsActivation(k, w, t);
    case _ => OthersFrame(k, w, a); FrameKeepsActivation(w, Step(k, w, a));
  }

  // ---- proof channels ----

  /** A waiting channel is the one registered for that link and hash, and is untouched. */
  ghost predicate WaitersOk(w: World) {
    forall l, h :: l in w.heap && h in w.heap[l].waiters ==>
      var ch := w.heap[l].waiters[h]; ch in w.channels && w.channels[ch] == Channel(l, h, 0, false)
  }

  /** A channel about to be sent on waits nowhere, is in one goroutine's hands, and is untouched. */
  ghost predicate SendersOk(w: World) {
    && (forall t :: t in w.threads && w.threads[t].Sending? ==>
          var ch := w.threads[t].channel;
          && ch in w.channels && w.channels[ch].sends == 0 && !w.channels[ch].full
          && w.channels[ch].link in w.heap && !Listed(w, ch))
    && (forall t, u :: t in w.threads && u in w.threads && t != u && w.threads[t].Sending? && w.threads[u].Sending? ==>
          w.threads[t].channel != w.threads[u].channel)
  }

  /** A channel is in at most one place, the place it was registered for, and is sent on at most once. */
  ghost predicate ChannelsOk(w: World) {
    && WaitersOk(w) && SendersOk(w)
    && (forall ch :: ch in w.channels ==> w.channels[ch].sends <= 1)
    && (forall ch :: ch in w.channels && w.channels[ch].full ==> w.channels[ch].sends == 1)
  }

  /** The channel still waits in its link's table. */
  ghost predicate Listed(w: World, ch: nat)
    requires ch in w.channels
  {
    var c := w.channels[ch];
    c.link in w.heap && c.hash in w.heap[c.link].waiters && w.heap[c.link].waiters[c.hash] == ch
  }

  /** Only waiters go, no goroutine starts sending, and channels are as they were. */
  ghost predicate ChannelFrame(w: World, w': World) {
    && w'.channels == w.channels
    && (forall t :: t in w'.threads && w'.threads[t].Sending? ==> t in w.threads && w.threads[t] == w'.threads[t])
    && (forall l :: l in w.heap ==> l in w'.heap)
    && (forall l :: l in w'.heap ==> forall h :: h in w'.heap[l].waiters ==>
          l in w.heap && h in w.heap[l].waiters && w'.heap[l].waiters[h] == w.heap[l].waiters[h])
  }

  lemma FrameKeepsChannels(w: World, w': World)
    requires ChannelsOk(w) && ChannelFrame(w, w')
    ensures ChannelsOk(w')
  {
  }

  lemma OthersChannelFrame(k: Curve, w: World, a: Action)
    requires Enabled(k, w, a) && !a.Take? && !a.Push? && !a.Register? && !a.Receive?
    ensures ChannelFrame(w, Step(k, w, a))
  {
  }

  lemma TakeKeepsChannels(k: Curve, w: World, t: nat)
    requires ChannelsOk(w) && Enabled(k, w, Take(t))
    ensures ChannelsOk(Step(k, w, Take(t)))
  {
    var p, w' := w.threads[t], Step(k, w, Take(t));
    if p.hash !in w.heap[p.link].waiters {
      FrameKeepsChannels(w, w');
    } else {
      var ch := w.heap[p.link].waiters[p.hash];
      assert w.channels[ch] == Channel(p.link, p.hash, 0, false) && Listed(w, ch);
      assert forall u :: u in w'.threads && u != t ==> u in w.threads && w'.threads[u] == w.threads[u];
      assert forall c :: c in w.channels && c != ch ==> (Listed(w', c) <==> Listed(w, c));
    }
  }

  lemma PushKeepsChannels(k: Curve, w: World, t: nat)
    requires ChannelsOk(w) && Enabled(k, w, Push(t))
    ensures ChannelsOk(Step(k, w, Push(t)))
    ensures var ch := w.threads[t].channel;
      Step(k, w, Push(t)).channels == w.channels[ch := w.channels[ch].(sends := 1, full := true)]
  {
    var ch, w' := w.threads[t].channel, Step(k, w, Push(t));
    assert forall u :: u in w'.threads ==> u != t && u in w.threads && w'.threads[u] == w.threads[u];
    assert forall c :: c in w.channels && c != ch ==> (Listed(w', c) <==> Listed(w, c));
    forall l, h | l in w.heap && h in w.heap[l].waiters ensures w.heap[l].waiters[h] != ch {
      if w.heap[l].waiters[h] == ch { assert Listed(w, ch); }
    }
  }

  lemma RegisterWaiters(k: Curve, w: World, a: Action)
    requires WaitersOk(w) && Enabled(k, w, a) && a.Register?
    ensures WaitersOk(Step(k, w, a))
  {
  }

  lemma RegisterSenders(k: Curve, w: World, a: Action)
    requires SendersOk(w) && Enabled(k, w, a) && a.Register?
    ensures SendersOk(Step(k, w, a))
  {
    var w' := Step(k, w, a);
    assert forall u :: u in w'.threads && u != a.t ==> u in w.threads && w'.threads[u] == w.threads[u];
    assert forall c :: c in w.channels && !Listed(w, c) ==> !Listed(w', c);
  }

  lemma RegisterKeepsChannels(k: Curve, w: World, a: Action)
    requires ChannelsOk(w) && Enabled(k, w, a) && a.Register?
    ensures ChannelsOk(Step(k, w, a))
  {
    RegisterWaiters(k, w, a);
    RegisterSenders(k, w, a);
  }

  lemma ReceiveKeepsChannels(k: Curve, w: World, t: nat)
    requires ChannelsOk(w) && Enabled(k, w, Receive(t))
    ensures ChannelsOk(Step(k, w, Receive(t)))
  {
    var w' := Step(k, w, Receive(t));
    assert forall c :: c in w.channels ==> (Listed(w', c) <==> Listed(w, c));
  }

  lemma StepKeepsChannels(k: Curve, w: World, a: Action)
    requires ChannelsOk(w) && Enabled(k, w, a)
    ensures ChannelsOk(Step(k, w, a))
  {
    match a
    case Take(t) => TakeKeepsChannels(k, w, t);
    case Push(t) => PushKeepsChannels(k, w, t);
    case Register(_, _, _, _) => RegisterKeepsChannels(k, w, a);
    case Receive(t) => ReceiveKeepsChannels(k, w, t);
    case _ => OthersChannelFrame(k, w, a); FrameKeepsChannels(w, Step(k, w, a));
  }

  /** A send registers on a link that a proof has activated; the peer's key stays, the own private key is gone. */
  ghost predicate PeersOk(w: World) {
    && (forall ch :: ch in w.channels ==> w.channels[ch].link in w.heap && w.heap[w.channels[ch].link].peerEd.Some?)
    && (forall l :: l in w.heap && w.heap[l].peerEd.Some? ==> w.heap[l].phase != Pending && w.heap[l].priv == [])
  }

  lemma StepKeepsPeers(k: Curve, w: World, a: Action)
    requires PeersOk(w) && Enabled(k, w, a)
    ensures PeersOk(Step(k, w, a))
  {
    var w' := Step(k, w, a);
    forall l | l in w.heap && w.heap[l].peerEd.Some? ensures l in w'.heap && w'.heap[l].peerEd.Some? {}
  }

  /** A checked acknowledgement is one the link's peer can sign. */
  ghost predicate VerifiedOk(k: Curve, w: World) {
    forall t :: t in w.threads && w.threads[t].AckVerified? ==>
      w.threads[t].link in w.heap && SignableOn(k, w.heap[w.threads[t].link], w.threads[t].hash)
  }

  ghost predicate SignableOn(k: Curve, l: LinkState, hash: Bytes) {
    l.peerEd.Some? && Signable(k, l.peerEd.value, hash)
  }

  /** An activated link keeps its id and its peer's key. */
  lemma PeerStays(k: Curve, w: World, a: Action, l: nat)
    requires PeersOk(w) && Enabled(k, w, a) && l in w.heap && w.heap[l].peerEd.Some?
    ensures var w1 := Step(k, w, a);
      l in w1.heap && w1.heap[l].peerEd == w.heap[l].peerEd && w1.heap[l].id == w.heap[l].id
  {
  }

  lemma StepKeepsVerified(k: Curve, w: World, a: Action)
    requires PeersOk(w) && VerifiedOk(k, w) && Enabled(k, w, a)
    ensures VerifiedOk(k, Step(k, w, a))
  {
    var w1 := Step(k, w, a);
    forall t | t in w1.threads && w1.threads[t].AckVerified?
      ensures w1.threads[t].link in w1.heap && SignableOn(k, w1.heap[w1.threads[t].link], w1.threads[t].hash)
    {
      var l := w1.threads[t].link;
      if a.AckCheck? && a.t == t {
        AcknowledgedIsSignable(k, w.threads[t].proof, w.heap[l].peerEd.value, w1.threads[t].hash);
      }
      assert SignableOn(k, w.heap[l], w1.threads[t].hash);
      PeerStays(k, w, a, l);
    }
  }

  // ---- waiting sends ----

  /** No other send was registered on that link with that packet hash. */
  ghost predicate Alone(w: World, ch: nat)
    requires ch in w.channels
  {
    forall d :: d in w.channels && d != ch ==> !SameKey(w.channels[d], w.channels[ch].link, w.channels[ch].hash)
  }

  predicate SameKey(c: Channel, link: nat, hash: Bytes) {
    c.link == link && c.hash == hash
  }

  ghost predicate BeingSent(w: World, ch: nat) {
    exists t :: t in w.threads && w.threads[t] == Sending(ch)
  }

  /** Not signalled yet, and no goroutine about to. */
  ghost predicate Unsignalled(w: World, ch: nat) {
    ch in w.channels && w.channels[ch].sends == 0 && !BeingSent(w, ch)
  }

  ghost predicate OwnChannels(w: World) {
    && (forall t :: t in w.threads && w.threads[t].Waiting? ==>
          w.threads[t].channel in w.channels
          && SameKey(w.channels[w.threads[t].channel], w.threads[t].link, w.threads[t].hash))
    && (forall t, u :: t in w.threads && u in w.threads && t != u && w.threads[t].Waiting? && w.threads[u].Waiting? ==>
          w.threads[t].channel != w.threads[u].channel)
  }

  /** A send that waits unsignalled, alone with its hash, can still be found by its proof. */
  ghost predicate Findable(w: World) {
    forall t :: t in w.threads && w.threads[t].Waiting? && Unsignalled(w, w.threads[t].channel) ==>
      Alone(w, w.threads[t].channel) ==> Listed(w, w.threads[t].channel)
  }

  ghost predicate WaitingOk(w: World) {
    OwnChannels(w) && Findable(w)
  }

  lemma StepKeepsOwnChannels(k: Curve, w: World, a: Action)
    requires OwnChannels(w) && Enabled(k, w, a)
    ensures OwnChannels(Step(k, w, a))
  {
  }

  lemma AloneBefore(k: Curve, w: World, a: Action, ch: nat)
    requires Enabled(k, w, a) && ch in w.channels && Alone(Step(k, w, a), ch)
    ensures Alone(w, ch)
  {
    var w' := Step(k, w, a);
    forall d | d in w.channels && d != ch
      ensures !SameKey(w.channels[d], w.channels[ch].link, w.channels[ch].hash)
    {
      assert d in w'.channels;
    }
  }

  /** The waiting sends of w' waited in w, are still unsignalled only if they were, and stay listed if alone. */
  ghost predicate WaitFrame(w: World, w': World) {
    forall t :: t in w'.threads && w'.threads[t].Waiting? && Unsignalled(w', w'.threads[t].channel) ==>
      && t in w.threads && w.threads[t] == w'.threads[t] && Unsignalled(w, w.threads[t].channel)
      && (Alone(w', w.threads[t].channel) && Listed(w, w.threads[t].channel) ==> Listed(w', w.threads[t].channel))
  }

  lemma FrameKeepsFindable(k: Curve, w: World, a: Action)
    requires Findable(w) && Enabled(k, w, a) && WaitFrame(w, Step(k, w, a))
    ensures Findable(Step(k, w, a))
  {
    var w' := Step(k, w, a);
    forall t | t in w'.threads && w'.threads[t].Waiting? && Unsignalled(w', w'.threads[t].channel)
      && Alone(w', w'.threads[t].channel)
      ensures Listed(w', w'.threads[t].channel)
    {
      AloneBefore(k, w, a, w.threads[t].channel);
    }
  }

  /** Steps that add no goroutine to those sending and touch no waiter. */
  lemma QuietWaitFrame(k: Curve, w: World, a: Action)
    requires Enabled(k, w, a) && !a.Take? && !a.Push? && !a.Register? && !a.Receive? && !a.Unregister?
    ensures WaitFrame(w, Step(k, w, a))
  {
    var w' := Step(k, w, a);
    assert w'.channels == w.channels;
    forall t | t in w.threads && w.threads[t].Sending? ensures t in w'.threads && w'.threads[t] == w.threads[t] {}
    forall t | t in w'.threads && w'.threads[t].Waiting? ensures t in w.threads && w.threads[t] == w'.threads[t] {}
    forall ch | ch in w.channels && Listed(w, ch) ensures Listed(w', ch) {}
    forall ch | BeingSent(w, ch) ensures BeingSent(w', ch) {
      var t :| t in w.threads && w.threads[t] == Sending(ch);
      assert w'.threads[t] == Sending(ch);
    }
  }

  lemma PushWaitFrame(k: Curve, w: World, t: nat)
    requires ChannelsOk(w) && Enabled(k, w, Push(t))
    ensures WaitFrame(w, Step(k, w, Push(t)))
  {
    PushKeepsChannels(k, w, t);
    var w', ch := Step(k, w, Push(t)), w.threads[t].channel;
    forall c | c in w.channels && c != ch && BeingSent(w, c) ensures BeingSent(w', c) {
      var u :| u in w.threads && w.threads[u] == Sending(c);
      assert u != t && w'.threads[u] == Sending(c);
    }
  }

  lemma ReceiveWaitFrame(k: Curve, w: World, t: nat)
    requires Enabled(k, w, Receive(t))
    ensures WaitFrame(w, Step(k, w, Receive(t)))
  {
    var w' := Step(k, w, Receive(t));
    assert forall c :: BeingSent(w, c) <==> BeingSent(w', c);
  }

  lemma TakeWaitFrame(k: Curve, w: World, t: nat)
    requires ChannelsOk(w) && Enabled(k, w, Take(t))
    ensures WaitFrame(w, Step(k, w, Take(t)))
  {
    var p, w' := w.threads[t], Step(k, w, Take(t));
    forall c | BeingSent(w, c) ensures BeingSent(w', c) {
      var u :| u in w.threads && w.threads[u] == Sending(c);
      assert u != t && w'.threads[u] == Sending(c);
    }
    if p.hash in w.heap[p.link].waiters {
      var ch := w.heap[p.link].waiters[p.hash];
      assert w'.threads[t] == Sending(ch);
      assert BeingSent(w', ch);
      forall c | c in w.channels && c != ch && Listed(w, c) ensures Listed(w', c) {}
    }
  }

  lemma UnregisterWaitFrame(k: Curve, w: World, t: nat)
    requires OwnChannels(w) && Enabled(k, w, Unregister(t))
    ensures WaitFrame(w, Step(k, w, Unregister(t)))
  {
    var p, w' := w.threads[t], Step(k, w, Unregister(t));
    forall c | BeingSent(w, c) ensures BeingSent(w', c) {
      var u :| u in w.threads && w.threads[u] == Sending(c);
      assert u != t && w'.threads[u] == Sending(c);
    }
    forall c | c in w.channels && c != p.channel && Alone(w', c) && Listed(w, c) ensures Listed(w', c) {
      assert !SameKey(w'.channels[p.channel], w.channels[c].link, w.channels[c].hash);
    }
  }

  lemma RegisterKeepsFindable(k: Curve, w: World, a: Action)
    requires OwnChannels(w) && Findable(w) && Enabled(k, w, a) && a.Register?
    ensures Findable(Step(k, w, a))
  {
    var w' := Step(k, w, a);
    forall c | BeingSent(w, c) ensures BeingSent(w', c) {
      var u :| u in w.threads && w.threads[u] == Sending(c);
      assert u != a.t && w'.threads[u] == Sending(c);
    }
    forall c | c in w.channels && Alone(w', c) && Alone(w, c) && Listed(w, c) ensures Listed(w', c) {
      assert !SameKey(w'.channels[a.channel], w.channels[c].link, w.channels[c].hash);
    }
    assert Listed(w', a.channel);
    forall c | c in w.channels && Alone(w', c) ensures Alone(w, c) { AloneBefore(k, w, a, c); }
  }

  lemma StepKeepsWaiting(k: Curve, w: World, a: Action)
    requires ChannelsOk(w) && WaitingOk(w) && Enabled(k, w, a)
    ensures WaitingOk(Step(k, w, a))
  {
    var w' := Step(k, w, a);
    StepKeepsOwnChannels(k, w, a);
    if a.Register? {
      RegisterKeepsFindable(k, w, a);
    } else {
      assert WaitFrame(w, w') by {
        match a
        case Take(t) => TakeWaitFrame(k, w, t);
        case Push(t) => PushWaitFrame(k, w, t);
        case Receive(t) => ReceiveWaitFrame(k, w, t);
        case Unregister(t) => UnregisterWaitFrame(k, w, t);
        case _ => QuietWaitFrame(k, w, a);
      }
      FrameKeepsFindable(k, w, a);
    }
  }

  // ---- whole runs ----

  ghost predicate Inv(k: Curve, w: World) {
    && KeysOk(w) && TableOk(w) && ActivationOk(w) && ChannelsOk(w) && PeersOk(w) && WaitingOk(w)
    && VerifiedOk(k, w)
  }

  lemma StepKeepsInv(k: Curve, w: World, a: Action)
    requires Inv(k, w) && Enabled(k, w, a)
    ensures Inv(k, Step(k, w, a))
  {
    StepKeepsKeys(k, w, a);
    StepKeepsTable(k, w, a);
    StepKeepsActivation(k, w, a);
    StepKeepsChannels(k, w, a);
    StepKeepsPeers(k, w, a);
    StepKeepsWaiting(k, w, a);
    StepKeepsVerified(k, w, a);
  }

  /** A run: actions that are not enabled when their turn comes do nothing. */
  function Run(k: Curve, w: World, actions: seq<Action>): World {
    if actions == [] then w
    else
      var before := Run(k, w, actions[..|actions| - 1]);
      var a := actions[|actions| - 1];
      if Enabled(k, before, a) then Step(k, before, a) else before
  }

  /** Every reachable state: keys exactly while active, closed links unlisted, activation channels closed
      at most once, every proof channel sent on at most once. */
  lemma {:induction false} RunsAreSafe(k: Curve, actions: seq<Action>)
    ensures Inv(k, Run(k, NOTHING, actions))
  {
    if actions != [] {
      var before, a := Run(k, NOTHING, actions[..|actions| - 1]), actions[|actions| - 1];
      RunsAreSafe(k, actions[..|actions| - 1]);
      if Enabled(k, before, a) { StepKeepsInv(k, before, a); }
    }
  }

  /** Over any run a link only moves forward, and closed is where it stays. */
  lemma {:induction false} RunsMoveForward(k: Curve, w: World, actions: seq<Action>, l: nat)
    requires l in w.heap
    ensures var w' := Run(k, w, actions);
      l in w'.heap && w'.heap[l].id == w.heap[l].id && Rank(w.heap[l].phase) <= Rank(w'.heap[l].phase)
    ensures w.heap[l].phase == Closed ==> Run(k, w, actions).heap[l].phase == Closed
  {
    if actions != [] {
      var before, a := Run(k, w, actions[..|actions| - 1]), actions[|actions| - 1];
      RunsMoveForward(k, w, actions[..|actions| - 1], l);
      if Enabled(k, before, a) { StepMovesForward(k, before, a, l); }
    }
  }

  /** Taking the waiter for a listed channel's hash hands out that channel. */
  lemma TakeFindsListed(k: Curve, w: World, u: nat, ch: nat)
    requires ChannelsOk(w) && Enabled(k, w, Take(u)) && ch in w.channels && Listed(w, ch)
    requires w.threads[u].link == w.channels[ch].link && w.threads[u].hash == w.channels[ch].hash
    ensures var w1 := Step(k, w, Take(u));
      && w1.channels == w.channels && w1.threads == w.threads[u := Sending(ch)]
      && Enabled(k, w1, Push(u)) && ChannelsOk(w1)
  {
    TakeKeepsChannels(k, w, u);
  }

  /** A goroutine about to send on a channel keeps it, untouched, until it sends. */
  lemma SendingStays(k: Curve, w: World, a: Action, u: nat)
    requires ChannelsOk(w) && Enabled(k, w, a) && u in w.threads && w.threads[u].Sending? && a != Push(u)
    ensures var w1 := Step(k, w, a); var ch := w.threads[u].channel;
      && u in w1.threads && w1.threads[u] == w.threads[u]
      && ch in w.channels && ch in w1.channels && w1.channels[ch] == w.channels[ch]
  {
  }

  lemma {:induction false} SendingWaits(k: Curve, w: World, actions: seq<Action>, u: nat)
    requires ChannelsOk(w) && u in w.threads && w.threads[u].Sending? && Push(u) !in actions
    ensures var w1 := Run(k, w, actions); var ch := w.threads[u].channel;
      && ChannelsOk(w1) && u in w1.threads && w1.threads[u] == w.threads[u]
      && ch in w.channels && ch in w1.channels && w1.channels[ch] == w.channels[ch]
  {
    if actions != [] {
      var before, a := Run(k, w, actions[..|actions| - 1]), actions[|actions| - 1];
      SendingWaits(k, w, actions[..|actions| - 1], u);
      if Enabled(k, before, a) {
        StepKeepsChannels(k, before, a);
        SendingStays(k, before, a, u);
      }
    }
  }

  /** A verified proof that arrives while its send waits takes out that send's channel; whatever the
      other goroutines do meanwhile, the send that follows finds it empty, fills it and touches no other. */
  lemma ProofWakesItsWaiter(k: Curve, actions: seq<Action>, t: nat, u: nat, more: seq<Action>)
    requires var w := Run(k, NOTHING, actions);
      && t in w.threads && w.threads[t].Waiting?
      && Unsignalled(w, w.threads[t].channel) && Alone(w, w.threads[t].channel)
      && u in w.threads && w.threads[u] == AckVerified(w.threads[t].link, w.threads[t].hash) && Enabled(k, w, Take(u))
      && Push(u) !in more
    ensures var w := Run(k, NOTHING, actions); var ch := w.threads[t].channel;
      var w1 := Step(k, w, Take(u)); var w2 := Run(k, w1, more);
      && w1.threads == w.threads[u := Sending(ch)] && Enabled(k, w2, Push(u))
      && ch in w2.channels && w2.channels[ch] == w.channels[ch]
      && Step(k, w2, Push(u)).channels == w2.channels[ch := w.channels[ch].(sends := 1, full := true)]
  {
    var w := Run(k, NOTHING, actions);
    assert Inv(k, w) by { RunsAreSafe(k, actions); }
    var ch := w.threads[t].channel;
    TakeFindsListed(k, w, u, ch);
    var w1 := Step(k, w, Take(u));
    SendingWaits(k, w1, more, u);
    PushKeepsChannels(k, Run(k, w1, more), u);
  }

  /** A goroutine about to send always finds the channel empty: no signal is dropped. */
  lemma NoSignalDropped(k: Curve, actions: seq<Action>, u: nat)
    requires var w := Run(k, NOTHING, actions); u in w.threads && w.threads[u].Sending?
    ensures var w := Run(k, NOTHING, actions); var ch := w.threads[u].channel;
      ch in w.channels && !w.channels[ch].full && w.channels[ch].sends == 0
  {
    RunsAreSafe(k, actions);
  }

  // ---- which sends a proof can still wake ----

  /** The manager lists the link, under its own id. */
  predicate InTable(w: World, l: nat) {
    l in w.heap && w.heap[l].id in w.table && w.table[w.heap[l].id] == l
  }

  /** An acknowledgement that has found the link: checked for the hash, or about to be. */
  predicate Names(k: Curve, w: World, p: Thread, l: nat, hash: Bytes) {
    || p == AckVerified(l, hash)
    || (p.AckHeld? && p.link == l && l in w.heap && Acknowledged(k, w.heap[l], p.proof) == Some(hash))
  }

  ghost predicate Acked(k: Curve, w: World, l: nat, hash: Bytes) {
    exists u :: u in w.threads && Names(k, w, w.threads[u], l, hash)
  }

  /** The channel waits in its link's table, and the link is still to be found in the manager's by a proof the
      peer can sign, or has already been found by one. */
  ghost predicate Reachable(k: Curve, w: World, ch: nat)
    requires ch in w.channels
  {
    var c := w.channels[ch];
    Listed(w, ch) && ((InTable(w, c.link) && SignableOn(k, w.heap[c.link], c.hash)) || Acked(k, w, c.link, c.hash))
  }

  /** An action that takes the link out of the manager's table. */
  predicate Unfiles(w: World, a: Action, l: nat) {
    InTable(w, l) && (a.Close? || a.Start? || a.Answer?) && a.id == w.heap[l].id
  }

  /** What puts an unsignalled channel out of reach: a send with its link and hash registers or clears its
      waiter, or the link is closed or overwritten before an acknowledgement for the hash has found it. */
  ghost predicate Hides(k: Curve, w: World, a: Action, ch: nat)
    requires Enabled(k, w, a) && ch in w.channels
  {
    var c := w.channels[ch];
    || (a.Register? && a.link == c.link && a.hash == c.hash)
    || (a.Unregister? && w.threads[a.t].link == c.link && w.threads[a.t].hash == c.hash)
    || (Unfiles(w, a, c.link) && !Acked(k, w, c.link, c.hash))
  }

  lemma ChannelKeepsKey(k: Curve, w: World, a: Action, ch: nat)
    requires Enabled(k, w, a) && ch in w.channels
    ensures var w1 := Step(k, w, a);
      ch in w1.channels && SameKey(w1.channels[ch], w.channels[ch].link, w.channels[ch].hash)
  {
  }

  lemma InTableAfter(k: Curve, w: World, a: Action, l: nat)
    requires TableOk(w) && Enabled(k, w, a) && l in w.heap
    ensures InTable(Step(k, w, a), l) <==> InTable(w, l) && !Unfiles(w, a, l)
  {
  }

  /** Nothing registers an old channel again. */
  lemma UnlistedAfter(k: Curve, w: World, a: Action, ch: nat)
    requires Enabled(k, w, a) && ch in w.channels && w.channels[ch].link in w.heap && !Listed(w, ch)
    ensures !Listed(Step(k, w, a), ch)
  {
    ChannelKeepsKey(k, w, a, ch);
  }

  /** A new acknowledgement that names the hash finds the link in the table, and the peer can sign it. */
  lemma AckedBefore(k: Curve, w: World, a: Action, l: nat, hash: Bytes)
    requires PeersOk(w) && TableOk(w) && Enabled(k, w, a) && l in w.heap && w.heap[l].peerEd.Some?
    requires Acked(k, Step(k, w, a), l, hash)
    ensures Acked(k, w, l, hash) || (InTable(w, l) && SignableOn(k, w.heap[l], hash))
  {
    var w1 := Step(k, w, a);
    PeerStays(k, w, a, l);
    var u :| u in w1.threads && Names(k, w1, w1.threads[u], l, hash);
    if a.AckIn? && a.t == u {
      AcknowledgedIsSignable(k, a.proof, w.heap[l].peerEd.value, hash);
    } else {
      assert u in w.threads && Names(k, w, w.threads[u], l, hash);
    }
  }

  lemma NobodyStartsSending(k: Curve, w: World, a: Action, ch: nat)
    requires ChannelsOk(w) && Enabled(k, w, a) && Unsignalled(w, ch)
    requires a.Take? ==>
      var p := w.threads[a.t]; p.hash in w.heap[p.link].waiters ==> w.heap[p.link].waiters[p.hash] != ch
    ensures Unsignalled(Step(k, w, a), ch)
  {
    var w1 := Step(k, w, a);
    forall v | v in w1.threads && w1.threads[v] == Sending(ch) ensures v in w.threads && w.threads[v] == Sending(ch) {}
    assert !BeingSent(w1, ch);
  }

  /** Out of reach is out of reach for good. */
  lemma StepKeepsUnreachable(k: Curve, w: World, a: Action, ch: nat)
    requires Inv(k, w) && Enabled(k, w, a) && Unsignalled(w, ch) && !Reachable(k, w, ch)
    ensures Unsignalled(Step(k, w, a), ch) && !Reachable(k, Step(k, w, a), ch)
  {
    var w1, c := Step(k, w, a), w.channels[ch];
    assert !Reachable(k, w1, ch) by {
      ChannelKeepsKey(k, w, a, ch);
      if !Listed(w, ch) {
        UnlistedAfter(k, w, a, ch);
      } else {
        InTableAfter(k, w, a, c.link);
        PeerStays(k, w, a, c.link);
        if Acked(k, w1, c.link, c.hash) { AckedBefore(k, w, a, c.link, c.hash); }
      }
    }
    assert Unsignalled(w1, ch) by {
      if a.Take? { TakesAnother(k, w, a.t, ch); }
      NobodyStartsSending(k, w, a, ch);
    }
  }

  lemma TakesAnother(k: Curve, w: World, u: nat, ch: nat)
    requires ChannelsOk(w) && Enabled(k, w, Take(u)) && ch in w.channels && !Reachable(k, w, ch)
    ensures var p := w.threads[u]; p.hash in w.heap[p.link].waiters ==> w.heap[p.link].waiters[p.hash] != ch
  {
    var p := w.threads[u];
    assert Names(k, w, p, p.link, p.hash);
  }

  lemma {:induction false} UnreachableStays(k: Curve, w: World, actions: seq<Action>, ch: nat)
    requires Inv(k, w) && Unsignalled(w, ch) && !Reachable(k, w, ch)
    ensures var w1 := Run(k, w, actions); Inv(k, w1) && Unsignalled(w1, ch) && !Reachable(k, w1, ch)
  {
    if actions != [] {
      var before, a := Run(k, w, actions[..|actions| - 1]), actions[|actions| - 1];
      UnreachableStays(k, w, actions[..|actions| - 1], ch);
      if Enabled(k, before, a) {
        StepKeepsInv(k, before, a);
        StepKeepsUnreachable(k, before, a, ch);
      }
    }
  }

  ghost predicate WokenBy(k: Curve, w: World, more: seq<Action>, ch: nat) {
    var w1 := Run(k, w, more);
    ch in w1.channels && w1.channels[ch].sends > 0
  }

  /** In every reachable state, a proof can still wake an unsignalled send exactly when its channel waits in
      its link's table and the manager lists the link or an acknowledgement for it has already found it. */
  lemma WakeableIff(k: Curve, actions: seq<Action>, ch: nat)
    requires Unsignalled(Run(k, NOTHING, actions), ch)
    ensures var w := Run(k, NOTHING, actions);
      (exists more :: WokenBy(k, w, more, ch)) <==> Reachable(k, w, ch)
  {
    var w := Run(k, NOTHING, actions);
    assert Inv(k, w) by { RunsAreSafe(k, actions); }
    if Reachable(k, w, ch) {
      var more := ReachableWakes(k, w, ch);
    } else {
      forall more ensures !WokenBy(k, w, more, ch) { UnreachableStays(k, w, more, ch); }
    }
  }

  /** The waking run is one goroutine's: it finds the link, checks, takes the waiter and sends. */
  lemma ReachableWakes(k: Curve, w: World, ch: nat) returns (more: seq<Action>)
    requires Inv(k, w) && Unsignalled(w, ch) && Reachable(k, w, ch)
    ensures |more| <= 4 && WokenBy(k, w, more, ch)
  {
    var c := w.channels[ch];
    if u :| u in w.threads && Names(k, w, w.threads[u], c.link, c.hash) {
      if w.threads[u].AckVerified? {
        more := [Take(u), Push(u)];
        VerifiedWakes(k, w, u, ch);
      } else {
        more := [AckCheck(u), Take(u), Push(u)];
        HeldWakes(k, w, u, ch);
      }
    } else {
      var l := w.heap[c.link];
      var u := Above(w.threads.Keys);
      var p := SignableIsAcknowledged(k, l.id, l.peerEd.value, c.hash);
      more := [AckIn(u, p), AckCheck(u), Take(u), Push(u)];
      LookupWakes(k, w, u, p, ch);
    }
  }

  lemma LookupWakes(k: Curve, w: World, u: nat, p: Packet, ch: nat)
    requires ChannelsOk(w) && Unsignalled(w, ch) && Listed(w, ch) && InTable(w, w.channels[ch].link) && u !in w.threads
    requires var l := w.heap[w.channels[ch].link];
      p.destHash == l.id && Acknowledged(k, l, p) == Some(w.channels[ch].hash)
    ensures WokenBy(k, w, [AckIn(u, p), AckCheck(u), Take(u), Push(u)], ch)
  {
    var a, rest := AckIn(u, p), [AckCheck(u), Take(u), Push(u)];
    var w1 := Step(k, w, a);
    assert ChannelsOk(w1) by { StepKeepsChannels(k, w, a); }
    assert Unsignalled(w1, ch) by { NobodyStartsSending(k, w, a, ch); }
    assert WokenBy(k, w1, rest, ch) by { HeldWakes(k, w1, u, ch); }
    RunStep(k, w, a, rest);
    assert [a] + rest == [a, AckCheck(u), Take(u), Push(u)];
  }

  lemma VerifiedWakes(k: Curve, w: World, u: nat, ch: nat)
    requires ChannelsOk(w) && Unsignalled(w, ch) && Listed(w, ch)
    requires u in w.threads && w.threads[u] == AckVerified(w.channels[ch].link, w.channels[ch].hash)
    ensures WokenBy(k, w, [Take(u), Push(u)], ch)
  {
    var w1 := Step(k, w, Take(u));
    TakeFindsListed(k, w, u, ch);
    RunStep(k, w, Take(u), [Push(u)]);
    RunStep(k, w1, Push(u), []);
    assert [Take(u), Push(u)] == [Take(u)] + [Push(u)] && [Push(u)] == [Push(u)] + [];
  }

  lemma HeldWakes(k: Curve, w: World, u: nat, ch: nat)
    requires ChannelsOk(w) && Unsignalled(w, ch) && Listed(w, ch) && u in w.threads && w.threads[u].AckHeld?
    requires Names(k, w, w.threads[u], w.channels[ch].link, w.channels[ch].hash)
    ensures WokenBy(k, w, [AckCheck(u), Take(u), Push(u)], ch)
  {
    var a := AckCheck(u);
    var w1 := Step(k, w, a);
    assert ChannelsOk(w1) by { StepKeepsChannels(k, w, a); }
    assert Unsignalled(w1, ch) by { NobodyStartsSending(k, w, a, ch); }
    VerifiedWakes(k, w1, u, ch);
    RunStep(k, w, a, [Take(u), Push(u)]);
    assert [a, Take(u), Push(u)] == [a] + [Take(u), Push(u)];
  }

  /** A number above all of a set. */
  lemma {:induction false} Above(s: set<nat>) returns (u: nat)
    ensures forall x :: x in s ==> x < u
  {
    if s == {} { return 0; }
    var x :| x in s;
    var v := Above(s - {x});
    u := if v <= x then x + 1 else v;
    forall y | y in s ensures y < u {
      if y != x { assert y in s - {x}; }
    }
  }

  lemma {:induction false} RunStep(k: Curve, w: World, a: Action, more: seq<Action>)
    requires Enabled(k, w, a)
    ensures Run(k, w, [a] + more) == Run(k, Step(k, w, a), more)
  {
    var all := [a] + more;
    if more == [] {
      assert all[..0] == [];
    } else {
      assert all[..|all| - 1] == [a] + more[..|more| - 1];
      RunStep(k, w, a, more[..|more| - 1]);
    }
  }

  // ---- what puts a send out of reach ----

  /** A channel that can be reached, unsignalled, stops being reachable without being signalled exactly by
      the actions that hide it. */
  lemma HiddenIff(k: Curve, w: World, a: Action, ch: nat)
    requires Inv(k, w) && Enabled(k, w, a) && Unsignalled(w, ch) && Reachable(k, w, ch)
    ensures var w1 := Step(k, w, a);
      Unsignalled(w1, ch) && !Reachable(k, w1, ch) <==> Hides(k, w, a, ch)
  {
    var p, c := w.threads, w.channels[ch];
    if a.Take? && p[a.t].link == c.link && p[a.t].hash == c.hash {
      TakeFindsListed(k, w, a.t, ch);
      assert Step(k, w, a).threads[a.t] == Sending(ch);
      assert BeingSent(Step(k, w, a), ch);
    } else {
      assert Unsignalled(Step(k, w, a), ch) by { NobodyStartsSending(k, w, a, ch); }
      UnreachableAfter(k, w, a, ch);
    }
  }

  lemma UnreachableAfter(k: Curve, w: World, a: Action, ch: nat)
    requires WaitersOk(w) && PeersOk(w) && TableOk(w) && Enabled(k, w, a) && ch in w.channels && Reachable(k, w, ch)
    requires a.Take? ==> !(w.threads[a.t].link == w.channels[ch].link && w.threads[a.t].hash == w.channels[ch].hash)
    ensures ch in Step(k, w, a).channels && (!Reachable(k, Step(k, w, a), ch) <==> Hides(k, w, a, ch))
  {
    ChannelKeepsKey(k, w, a, ch);
    ListedAfter(k, w, a, ch);
    FoundAfter(k, w, a, ch);
  }

  lemma ListedAfter(k: Curve, w: World, a: Action, ch: nat)
    requires WaitersOk(w) && Enabled(k, w, a) && ch in w.channels && Listed(w, ch)
    requires a.Take? ==> !(w.threads[a.t].link == w.channels[ch].link && w.threads[a.t].hash == w.channels[ch].hash)
    ensures var c := w.channels[ch];
      !Listed(Step(k, w, a), ch) <==>
      || (a.Register? && a.link == c.link && a.hash == c.hash)
      || (a.Unregister? && w.threads[a.t].link == c.link && w.threads[a.t].hash == c.hash)
  {
    ChannelKeepsKey(k, w, a, ch);
  }

  /** The link is still to be found, or has been, unless the table loses it first. */
  lemma FoundAfter(k: Curve, w: World, a: Action, ch: nat)
    requires PeersOk(w) && TableOk(w) && Enabled(k, w, a) && ch in w.channels && Reachable(k, w, ch)
    requires a.Take? ==> !(w.threads[a.t].link == w.channels[ch].link && w.threads[a.t].hash == w.channels[ch].hash)
    ensures var w1 := Step(k, w, a); var c := w.channels[ch];
      && c.link in w1.heap
      && (!(InTable(w1, c.link) && SignableOn(k, w1.heap[c.link], c.hash)) && !Acked(k, w1, c.link, c.hash) <==>
          Unfiles(w, a, c.link) && !Acked(k, w, c.link, c.hash))
  {
    var w1, c := Step(k, w, a), w.channels[ch];
    InTableAfter(k, w, a, c.link);
    PeerStays(k, w, a, c.link);
    if Acked(k, w, c.link, c.hash) {
      AckedAfter(k, w, a, c);
    } else if Unfiles(w, a, c.link) {
      assert w1.threads == w.threads;
    }
  }

  /** Once found, the link stays found until the waiter is taken. */
  lemma AckedAfter(k: Curve, w: World, a: Action, c: Channel)
    requires PeersOk(w) && Enabled(k, w, a) && Acked(k, w, c.link, c.hash)
    requires c.link in w.heap && w.heap[c.link].peerEd.Some?
    requires a.Take? ==> !(w.threads[a.t].link == c.link && w.threads[a.t].hash == c.hash)
    ensures Acked(k, Step(k, w, a), c.link, c.hash)
  {
    var w1 := Step(k, w, a);
    PeerStays(k, w, a, c.link);
    var u :| u in w.threads && Names(k, w, w.threads[u], c.link, c.hash);
    assert u in w1.threads && Names(k, w1, w1.threads[u], c.link, c.hash);
  }

  // ---- runs in which a send is lost ----

  /** A link opened by an initiator and activated by the proof for it. */
  function Opening(id: Bytes, priv: Bytes, dest: Bytes, proof: Packet, ed: Bytes): seq<Action> {
    [Start(0, id, priv, dest), ProofIn(0, proof, ed), Activate(0), CloseSignal(0)]
  }

  function Opened(id: Bytes, dest: Bytes, keys: (Bytes, Bytes), ed: Bytes): World {
    var l := LinkState(id, Active, Some(keys), [], Some(dest), Some(ed), true, map[]);
    World(map[0 := l], map[id := 0], map[], map[0 := 1], map[])
  }

  lemma OpeningOpens(k: Curve, id: Bytes, priv: Bytes, dest: Bytes, proof: Packet, ed: Bytes, keys: (Bytes, Bytes))
    requires Complete(k, id, priv, proof, ed) == Ok(keys)
    ensures Run(k, NOTHING, Opening(id, priv, dest, proof, ed)) == Opened(id, dest, keys, ed)
  {
    var a, b, c, d := Start(0, id, priv, dest), ProofIn(0, proof, ed), Activate(0), CloseSignal(0);
    var w1 := World(map[0 := Started(id, priv, dest)], map[id := 0], map[], map[], map[]);
    assert Run(k, NOTHING, [a]) == w1 by { RunSnoc(k, [], a); assert [] + [a] == [a]; }
    var w2 := w1.(threads := map[0 := ProofHeld(0, ParseLRProof(proof).value, ed)]);
    assert Run(k, NOTHING, [a, b]) == w2 by { RunSnoc(k, [a], b); assert [a] + [b] == [a, b]; }
    var w3 := Opened(id, dest, keys, ed).(threads := map[0 := Activating(0)], closings := map[]);
    assert Run(k, NOTHING, [a, b, c]) == w3 by { RunSnoc(k, [a, b], c); assert [a, b] + [c] == [a, b, c]; }
    RunSnoc(k, [a, b, c], d);
    assert [a, b, c] + [d] == Opening(id, priv, dest, proof, ed);
    assert w3.threads - {0} == map[];
  }

  /** The opened link with two sends waiting on it. */
  function Shared(id: Bytes, dest: Bytes, keys: (Bytes, Bytes), ed: Bytes, hash: Bytes, other: Bytes): World {
    var w := Opened(id, dest, keys, ed);
    w.(heap := map[0 := w.heap[0].(waiters := map[hash := 0, other := 1])],
       threads := map[0 := Waiting(0, hash, 0), 1 := Waiting(0, other, 1)],
       channels := map[0 := Channel(0, hash, 0, false), 1 := Channel(0, other, 0, false)])
  }

  lemma SharedAfter(k: Curve, id: Bytes, dest: Bytes, keys: (Bytes, Bytes), ed: Bytes, hash: Bytes, other: Bytes,
                    opening: seq<Action>)
    requires Run(k, NOTHING, opening) == Opened(id, dest, keys, ed)
    ensures var sends := [Register(0, 0, hash, 0), Register(1, 0, other, 1)];
      Run(k, NOTHING, opening + sends) == Shared(id, dest, keys, ed, hash, other)
  {
    var a, b := Register(0, 0, hash, 0), Register(1, 0, other, 1);
    RunSnoc(k, opening, a);
    RunSnoc(k, opening + [a], b);
    assert opening + [a] + [b] == opening + [a, b];
  }

  /** Two sends with one hash: the first waits where no proof will find it, whatever happens next. */
  lemma ReusedHashHidesWaiter(k: Curve, id: Bytes, priv: Bytes, dest: Bytes, proof: Packet, ed: Bytes, hash: Bytes)
    requires Complete(k, id, priv, proof, ed).Ok?
    ensures var sends := [Register(0, 0, hash, 0), Register(1, 0, hash, 1)];
      var w := Run(k, NOTHING, Opening(id, priv, dest, proof, ed) + sends);
      && 0 in w.threads && w.threads[0] == Waiting(0, hash, 0) && Unsignalled(w, 0)
      && forall more :: !WokenBy(k, w, more, 0)
  {
    var keys := Complete(k, id, priv, proof, ed).value;
    var opening := Opening(id, priv, dest, proof, ed);
    OpeningOpens(k, id, priv, dest, proof, ed, keys);
    SharedAfter(k, id, dest, keys, ed, hash, hash, opening);
    NeverWoken(k, opening + [Register(0, 0, hash, 0), Register(1, 0, hash, 1)], 0);
  }

  lemma NeverWoken(k: Curve, actions: seq<Action>, ch: nat)
    requires var w := Run(k, NOTHING, actions); Unsignalled(w, ch) && !Reachable(k, w, ch)
    ensures forall more :: !WokenBy(k, Run(k, NOTHING, actions), more, ch)
  {
    WakeableIff(k, actions, ch);
  }

  /** Two sends with different hashes share a link; one times out and closes it, as SendOverLink does, and
      the other waits on with no proof able to wake it, though nothing touched its waiter. */
  lemma TimeoutLosesOtherSend(k: Curve, id: Bytes, priv: Bytes, dest: Bytes, proof: Packet, ed: Bytes, hash: Bytes,
                              other: Bytes)
    requires Complete(k, id, priv, proof, ed).Ok? && hash != other
    ensures var sends := [Register(0, 0, hash, 0), Register(1, 0, other, 1)];
      var w := Run(k, NOTHING, Opening(id, priv, dest, proof, ed) + sends + [Close(id), Unregister(0)]);
      && 1 in w.threads && w.threads[1] == Waiting(0, other, 1) && Unsignalled(w, 1) && Listed(w, 1)
      && forall more :: !WokenBy(k, w, more, 1)
  {
    var keys := Complete(k, id, priv, proof, ed).value;
    var opening := Opening(id, priv, dest, proof, ed);
    OpeningOpens(k, id, priv, dest, proof, ed, keys);
    SharedAfter(k, id, dest, keys, ed, hash, other, opening);
    var all := opening + [Register(0, 0, hash, 0), Register(1, 0, other, 1)];
    TimedOut(k, id, dest, keys, ed, hash, other, all);
    NeverWoken(k, all + [Close(id), Unregister(0)], 1);
  }

  lemma TimedOut(k: Curve, id: Bytes, dest: Bytes, keys: (Bytes, Bytes), ed: Bytes, hash: Bytes, other: Bytes,
                 actions: seq<Action>)
    requires hash != other && Run(k, NOTHING, actions) == Shared(id, dest, keys, ed, hash, other)
    ensures var w := Run(k, NOTHING, actions + [Close(id), Unregister(0)]);
      && 1 in w.threads && w.threads[1] == Waiting(0, other, 1) && Unsignalled(w, 1) && Listed(w, 1)
      && !Reachable(k, w, 1)
  {
    var w1 := Shared(id, dest, keys, ed, hash, other);
    var w2 := w1.(heap := map[0 := Shut(w1.heap[0])], table := map[]);
    var w3 := w2.(heap := map[0 := WithoutWaiter(w2.heap[0], hash)], threads := map[1 := Waiting(0, other, 1)]);
    assert Run(k, NOTHING, actions + [Close(id)]) == w2 by {
      RunSnoc(k, actions, Close(id));
      assert w1.table - {id} == map[];
    }
    assert Run(k, NOTHING, actions + [Close(id), Unregister(0)]) == w3 by {
      RunSnoc(k, actions + [Close(id)], Unregister(0));
      assert actions + [Close(id)] + [Unregister(0)] == actions + [Close(id), Unregister(0)];
      assert w2.threads - {0} == w3.threads;
    }
  }

  lemma RunSnoc(k: Curve, actions: seq<Action>, a: Action)
    ensures var w := Run(k, NOTHING, actions);
      Run(k, NOTHING, actions + [a]) == if Enabled(k, w, a) then Step(k, w, a) else w
  {
    assert (actions + [a])[..|actions|] == actions;
  }

  // ---- overwritten entries ----

  ghost predicate Unlisted(w: World, l: nat) {
    l in w.heap && w.heap[l].phase != Closed && forall id :: id in w.table ==> w.table[id] != l
  }

  lemma StepKeepsUnlisted(k: Curve, w: World, a: Action, l: nat)
    requires Unlisted(w, l) && Enabled(k, w, a)
    ensures Unlisted(Step(k, w, a), l)
  {
  }

  /** A link the table no longer lists, as when a repeated LINKREQUEST overwrites its entry, is never
      listed again, so CloseLink can no longer reach it. */
  lemma {:induction false} UnlistedStaysOpen(k: Curve, w: World, actions: seq<Action>, l: nat)
    requires Unlisted(w, l)
    ensures Unlisted(Run(k, w, actions), l)
  {
    if actions != [] {
      var before, a := Run(k, w, actions[..|actions| - 1]), actions[|actions| - 1];
      UnlistedStaysOpen(k, w, actions[..|actions| - 1], l);
      if Enabled(k, before, a) { StepKeepsUnlisted(k, before, a, l); }
    }
  }

  /** Such a run: a LINKREQUEST answered twice leaves the first link open and unlisted. */
  lemma RepeatedRequestUnlists(k: Curve, id: Bytes, keys: (Bytes, Bytes), priv: Bytes, keys': (Bytes, Bytes),
                               priv': Bytes)
    ensures Unlisted(Run(k, NOTHING, [Answer(0, id, keys, priv)] + [Answer(1, id, keys', priv')]), 0)
  {
    var a, b := Answer(0, id, keys, priv), Answer(1, id, keys', priv');
    RunSnoc(k, [], a);
    assert [] + [a] == [a];
    RunSnoc(k, [a], b);
  }

  /** In every reachable state, an open link can still be closed exactly when the table lists it. */
  lemma ClosableIffListed(k: Curve, actions: seq<Action>, l: nat)
    requires var w := Run(k, NOTHING, actions); l in w.heap && w.heap[l].phase != Closed
    ensures var w := Run(k, NOTHING, actions);
      (exists more :: ClosedBy(k, w, more, l)) <==> InTable(w, l)
  {
    var w := Run(k, NOTHING, actions);
    assert Inv(k, w) by { RunsAreSafe(k, actions); }
    if InTable(w, l) {
      var id := w.heap[l].id;
      assert [Close(id)][..0] == [];
      assert Run(k, w, [Close(id)]) == Step(k, w, Close(id));
      assert ClosedBy(k, w, [Close(id)], l);
    } else {
      forall more ensures !ClosedBy(k, w, more, l) { UnlistedStaysOpen(k, w, more, l); }
    }
  }

  ghost predicate ClosedBy(k: Curve, w: World, more: seq<Action>, l: nat) {
    var w1 := Run(k, w, more);
    l in w1.heap && w1.heap[l].phase == Closed
  }
}
