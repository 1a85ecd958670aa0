/** The index of transfers in progress, keyed by link and resource as text. */
module ResourceIndex {
  import opened Octets
  import Hex

  function ResourceKey(link: Bytes, resource: Bytes): string {
    Hex.Encode(link) + ":" + Hex.Encode(resource)
  }

  function LinkPrefix(link: Bytes): string {
    Hex.Encode(link) + ":"
  }

  lemma {:induction false} HexHasNoColon(b: Bytes)
    ensures ':' !in Hex.Encode(b)
  {
    if b != [] { HexHasNoColon(b[1..]); }
  }

  lemma EncodeInjective(a: Bytes, b: Bytes)
    ensures Hex.Encode(a) == Hex.Encode(b) <==> a == b
  {
    Hex.DecodeEncode(a);
    Hex.DecodeEncode(b);
  }

  /** Text up to its first colon. */
  lemma FirstColon(a: string, b: string, rest: string)
    requires ':' !in a && ':' !in b && HasPrefix(a + ":" + rest, b + ":")
    ensures a == b
  {
    var k := a + ":" + rest;
    assert k[..|b| + 1] == b + ":";
    assert k[|b|] == ':' && k[|a|] == ':';
    assert forall i :: 0 <= i < |a| ==> k[i] == a[i];
    assert forall i :: 0 <= i < |b| ==> k[i] == (b + ":")[i] == b[i];
    assert |a| == |b|;
  }

  /** The prefix picks out a link's own transfers, whatever lengths ids and hashes have. */
  lemma PrefixIffLink(link: Bytes, resource: Bytes, other: Bytes)
    ensures HasPrefix(ResourceKey(link, resource), LinkPrefix(other)) <==> link == other
  {
    HexHasNoColon(link);
    HexHasNoColon(other);
    EncodeInjective(link, other);
    if HasPrefix(ResourceKey(link, resource), LinkPrefix(other)) {
      FirstColon(Hex.Encode(link), Hex.Encode(other), Hex.Encode(resource));
    }
  }

  /** No two transfers share a key. */
  lemma KeyIffTransfer(link: Bytes, resource: Bytes, link': Bytes, resource': Bytes)
    ensures ResourceKey(link, resource) == ResourceKey(link', resource') <==> link == link' && resource == resource'
  {
    if ResourceKey(link, resource) == ResourceKey(link', resource') {
      PrefixIffLink(link, resource, link);
      PrefixIffLink(link', resource', link);
      var k, n := ResourceKey(link, resource), |LinkPrefix(link)|;
      assert k[n..] == Hex.Encode(resource) == Hex.Encode(resource');
      EncodeInjective(resource, resource');
    }
  }

  /** Machines by handle. */
  class Transfers {
    var senders: map<string, nat>
    var receivers: map<string, nat>

    constructor ()
      ensures senders == map[] && receivers == map[]
    {
      senders, receivers := map[], map[];
    }

    /** One receiver per link and resource: a second is refused and the first stays. */
    method RegisterReceiver(link: Bytes, resource: Bytes, handle: nat) returns (ok: bool)
      modifies this`receivers
      ensures ok <==> forall l, r :: ResourceKey(l, r) in old(receivers) ==> l != link || r != resource
      ensures receivers == if ok then old(receivers)[ResourceKey(link, resource) := handle] else old(receivers)
    {
      forall l, r ensures ResourceKey(l, r) == ResourceKey(link, resource) <==> l == link && r == resource {
        KeyIffTransfer(l, r, link, resource);
      }
      var key := ResourceKey(link, resource);
      if key in receivers {
        assert ResourceKey(link, resource) in old(receivers);
        return false;
      }
      receivers := receivers[key := handle];
      return true;
    }

    /** How many inbound transfers a link has. */
    method CountReceiversForLink(link: Bytes) returns (n: nat)
      ensures n == |set k | k in receivers && HasPrefix(k, LinkPrefix(link))|
    {
      ghost var found: set<string> := {};
      n := 0;
      var left := receivers.Keys;
      while left != {}
        invariant left <= receivers.Keys && n == |found|
        invariant found == set k | k in receivers && k !in left && HasPrefix(k, LinkPrefix(link))
        decreases left
      {
        var k :| k in left;
        left := left - {k};
        if HasPrefix(k, LinkPrefix(link)) {
          found := found + {k};
          n := n + 1;
        }
      }
      assert found == set k | k in receivers && HasPrefix(k, LinkPrefix(link));
    }

    /** closeResourcesForLink: exactly the link's transfers go, and exactly they are cancelled. */
    method CloseForLink(link: Bytes) returns (cancelled: set<nat>)
      modifies this
      ensures senders == Others(old(senders), link) && receivers == Others(old(receivers), link)
      ensures cancelled == Handles(old(senders), link) + Handles(old(receivers), link)
    {
      var otherSenders, s := RemoveLink(senders, link);
      var otherReceivers, r := RemoveLink(receivers, link);
      senders, receivers := otherSenders, otherReceivers;
      cancelled := s + r;
    }
  }

  /** Delete every entry of a link, collecting its machines. */
  method RemoveLink(index: map<string, nat>, link: Bytes) returns (rest: map<string, nat>, gone: set<nat>)
    ensures rest == Others(index, link) && gone == Handles(index, link)
  {
    rest, gone := index, {};
    var left := index.Keys;
    while left != {}
      invariant left <= index.Keys
      invariant rest == map k | k in index && (k in left || !HasPrefix(k, LinkPrefix(link))) :: index[k]
      invariant gone == set k | k in index && k !in left && HasPrefix(k, LinkPrefix(link)) :: index[k]
      decreases left
    {
      var k :| k in left;
      left := left - {k};
      if HasPrefix(k, LinkPrefix(link)) {
        gone := gone + {index[k]};
        rest := rest - {k};
      }
    }
  }

  /** The entries of other links. */
  ghost function Others(index: map<string, nat>, link: Bytes): map<string, nat> {
    map k | k in index && !HasPrefix(k, LinkPrefix(link)) :: index[k]
  }

  ghost function Handles(index: map<string, nat>, link: Bytes): set<nat> {
    set k | k in index && HasPrefix(k, LinkPrefix(link)) :: index[k]
  }

  /** In terms of links and resources: a transfer survives the closing of a link iff it is another link's. */
  lemma OthersExact(index: map<string, nat>, link: Bytes, l: Bytes, r: Bytes)
    ensures ResourceKey(l, r) in Others(index, link) <==> ResourceKey(l, r) in index && l != link
  {
    PrefixIffLink(l, r, link);
  }
}
