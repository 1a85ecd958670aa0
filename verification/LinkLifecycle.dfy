/** Links and their manager: what each locked section does, and every interleaving of those sections. */
module LinkLifecycle {
  import opened Octets
  import opened Header = Packet
  import opened Handshake
  import opened ResourceIndex

  datatype Phase = Pending | Active | Closed

  /** A link's fields. `signal` says whether it has an activation channel; `waiters` maps a packet hash
      to the channel of the send waiting for its proof. */
  datatype LinkState = LinkState(
    id: Bytes, phase: Phase, keys: Option<(Bytes, Bytes)>, priv: Bytes, peerDest: Option<Bytes>,
    peerEd: Option<Bytes>, signal: bool, waiters: map<Bytes, nat>)

  function Started(id: Bytes, priv: Bytes, dest: Bytes): LinkState {
    LinkState(id, Pending, None, priv, Some(dest), None, true, map[])
  }

  function Responding(id: Bytes, keys: (Bytes, Bytes), priv: Bytes): LinkState {
    LinkState(id, Active, Some(keys), priv, None, None, false, map[])
  }

  /** The section of HandleLRProof under the link's lock. */
  function Activated(k: Curve, l: LinkState, lr: LRProof, ed: Bytes): (LinkState, bool) {
    if l.phase != Pending then (l, false)
    else
      match DeriveLinkSessionKeys(k, l.priv, lr.x, lr.linkId)
      case Err(_) => (l, false)
      case Ok(keys) => (l.(phase := Active, keys := Some(keys), priv := [], peerEd := Some(ed)), true)
  }

  function Shut(l: LinkState): LinkState {
    l.(phase := Closed, keys := None)
  }

  /** The section of signalProof under the link's lock: take the waiter out. */
  function Taken(l: LinkState, hash: Bytes): (LinkState, Option<nat>) {
    if hash in l.waiters then (l.(waiters := l.waiters - {hash}), Some(l.waiters[hash])) else (l, None)
  }

  /** registerProofWaiter: a waiter already there for that hash is replaced. */
  function WithWaiter(l: LinkState, hash: Bytes, channel: nat): LinkState {
    l.(waiters := l.waiters[hash := channel])
  }

  /** clearProofWaiter: whatever waits under that hash goes. */
  function WithoutWaiter(l: LinkState, hash: Bytes): LinkState {
    l.(waiters := l.waiters - {hash})
  }

  // ---- the classes ----

  class Link {
    const id: Bytes
    var phase: Phase
    var keys: Option<(Bytes, Bytes)>
    var priv: Bytes
    const peerDest: Option<Bytes>
    var peerEd: Option<Bytes>
    const signal: bool
    var waiters: map<Bytes, nat>

    ghost function View(): LinkState
      reads this
    {
      LinkState(id, phase, keys, priv, peerDest, peerEd, signal, waiters)
    }

    /** Active, with this destination as its peer; a responder's link has the empty one. */
    predicate Toward(dest: Bytes)
      reads this
    {
      phase == Active && (if peerDest.Some? then peerDest.value else []) == dest
    }

    constructor (l: LinkState)
      ensures View() == l
    {
      id, phase, keys, priv := l.id, l.phase, l.keys, l.priv;
      peerDest, peerEd, signal, waiters := l.peerDest, l.peerEd, l.signal, l.waiters;
    }

    /** The returned flag is what closes the activation channel, after the lock is released. */
    method Activate(k: Curve, lr: LRProof, ed: Bytes) returns (activated: bool)
      modifies this
      ensures (View(), activated) == Activated(k, old(View()), lr, ed)
    {
      if phase != Pending { return false; }
      var derived := DeriveLinkSessionKeys(k, priv, lr.x, lr.linkId);
      if derived.Err? { return false; }
      keys, phase, priv, peerEd := Some(derived.value), Active, [], Some(ed);
      return true;
    }

    method RegisterProofWaiter(hash: Bytes, channel: nat)
      modifies this
      ensures View() == WithWaiter(old(View()), hash, channel)
    {
      waiters := waiters[hash := channel];
    }

    method ClearProofWaiter(hash: Bytes)
      modifies this
      ensures View() == WithoutWaiter(old(View()), hash)
    {
      waiters := waiters - {hash};
    }

    method TakeWaiter(hash: Bytes) returns (channel: Option<nat>)
      modifies this
      ensures (View(), channel) == Taken(old(View()), hash)
    {
      if hash !in waiters { return None; }
      channel := Some(waiters[hash]);
      waiters := waiters - {hash};
    }
  }

  class LinkManager {
    var links: map<Bytes, Link>
    const transfers: Transfers

    /** A link is listed under its own id. */
    ghost predicate Valid()
      reads this, links.Values
    {
      forall id :: id in links ==> links[id].id == id
    }

    constructor ()
      ensures Valid() && links == map[] && fresh(transfers)
    {
      links := map[];
      transfers := new Transfers();
    }

    method StartLinkAsInitiator(c: Primitives, k: Curve, dest: Bytes, sig: Option<Signalling>, priv: Bytes,
                                edPub: Bytes)
      returns (r: Result<(Link, Packet), LinkError>)
      requires Valid() && |priv| == 32 && |edPub| == 32
      modifies this
      ensures Valid()
      ensures r.Err? ==> links == old(links)
      ensures r.Ok? ==>
        && fresh(r.value.0) && links == old(links)[r.value.0.id := r.value.0]
        && PublicOf(k, priv).Some? && BuildLinkRequest(PublicOf(k, priv).value, edPub, dest, sig) == Ok(r.value.1)
        && LinkID(c, r.value.1) == Ok(r.value.0.id) && r.value.0.View() == Started(r.value.0.id, priv, dest)
    {
      if |dest| != ADDRESS_LEN { return Err(BadDest); }
      var x := PublicOf(k, priv);
      if x.None? { return Err(NoSharedSecret); }
      var req := BuildLinkRequest(x.value, edPub, dest, sig);
      if req.Err? { return Err(req.error); }
      var id := LinkID(c, req.value);
      if id.Err? { return Err(id.error); }
      var l := new Link(Started(id.value, priv, dest));
      links := links[id.value := l];
      return Ok((l, req.value));
    }

    method AcceptIncomingLinkRequest(c: Primitives, k: Curve, req: Packet, edPriv: Bytes, edPub: Bytes, priv: Bytes,
                                     sig: Option<Signalling>)
      returns (r: Result<(Link, Packet), LinkError>)
      requires Valid()
      modifies this
      ensures Valid()
      ensures var a := Accept(c, k, req, edPriv, edPub, priv, sig);
        if a.Err? then r == Err(a.error) && links == old(links)
        else
          && r.Ok? && r.value.1 == a.value.proof && fresh(r.value.0) && links == old(links)[a.value.linkId := r.value.0]
          && r.value.0.View() == Responding(a.value.linkId, a.value.keys, priv)
    {
      var a := Accept(c, k, req, edPriv, edPub, priv, sig);
      if a.Err? { return Err(a.error); }
      var l := new Link(Responding(a.value.linkId, a.value.keys, priv));
      links := links[a.value.linkId := l];
      return Ok((l, a.value.proof));
    }

    /** HandleLRProof run alone: it succeeds exactly on a proof the responder's key signs, for a pending listed
        link whose exchange succeeds; that link then holds the keys the pure handshake gives, and otherwise
        nothing changes. */
    method HandleLRProof(k: Curve, p: Packet, ed: Bytes) returns (l: Link?)
      requires Valid()
      modifies links.Values
      ensures Valid() && links == old(links)
      ensures l == null ==> forall id :: id in links ==> links[id].View() == old(links[id].View())
      ensures l != null <==>
        && p.destHash in links && old(links[p.destHash].phase) == Pending
        && SignedBy(k, p, ed) && Exchanges(k, old(links[p.destHash].priv), p)
      ensures l != null ==>
        && l == links[p.destHash] && l.phase == Active
        && l.keys.Some? && Complete(k, l.id, old(l.priv), p, ed) == Ok(l.keys.value) && l.peerEd == Some(ed)
        && forall id :: id in links && links[id] != l ==> links[id].View() == old(links[id].View())
    {
      AcceptedIffSigned(k, p, ed);
      var lr := ParseLRProof(p);
      if lr.Err? || !Verify(k, lr.value, ed) { return null; }
      if lr.value.linkId !in links { return null; }
      l := links[lr.value.linkId];
      var activated := l.Activate(k, lr.value, ed);
      if !activated { return null; }
    }

    /** The link goes, and with it every transfer on it and no other. */
    method CloseLink(id: Bytes) returns (cancelled: set<nat>)
      requires Valid()
      modifies this, links.Values, transfers
      ensures Valid() && links == old(links) - {id}
      ensures id in old(links) ==> old(links)[id].View() == Shut(old(links[id].View()))
      ensures forall o :: o in links ==> links[o].View() == old(links[o].View())
      ensures transfers.senders == Others(old(transfers.senders), id)
      ensures transfers.receivers == Others(old(transfers.receivers), id)
      ensures cancelled == Handles(old(transfers.senders), id) + Handles(old(transfers.receivers), id)
    {
      if id in links {
        var l := links[id];
        l.phase, l.keys := Closed, None;
        links := links - {id};
      }
      cancelled := transfers.CloseForLink(id);
    }

    /** ActiveTo: some active link to the destination, or none exists. */
    method ActiveTo(dest: Bytes) returns (l: Link?)
      ensures l != null ==>
        && l in links.Values && l.phase == Active
        && (l.peerDest == Some(dest) || (l.peerDest.None? && dest == []))
      ensures l == null ==> forall id :: id in links ==>
        links[id].phase != Active || (links[id].peerDest != Some(dest) && (links[id].peerDest.Some? || dest != []))
    {
      var left := links.Keys;
      while left != {}
        invariant left <= links.Keys
        invariant forall id :: id in links && id !in left ==> !links[id].Toward(dest)
        decreases left
      {
        var id :| id in left;
        left := left - {id};
        if links[id].Toward(dest) { return links[id]; }
      }
      return null;
    }
  }
}
