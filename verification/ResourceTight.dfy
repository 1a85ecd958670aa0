/** Two constructed senders that no schedule serves. The guard's reach is exact: with 226 whole parts it
    accepts two different ones under one fingerprint. And the part cap is looser than the receiver's size
    cap: a blob one octet over the latter is built, its fingerprints all distinct. */
module ResourceTight {
  import opened Octets
  import opened ResourceHash
  import opened ResourceWire
  import opened ResourceAgreement
  import opened ResourceProtocol
  import opened ResourceOutcomes
  import Token
  import S = ResourceSender

  /** With the prefix, 6 octets of padding and the token around them, exactly 226 SDUs. */
  const TIGHT := SDU * 226 - 58

  /** With the prefix, a block of padding and the token around them, one octet over the receiver's cap. */
  const OVERSIZE := 1056700

  /** A digest that shows octet 20 of its input, and octet 21 if `wide`, a cipher that hides nothing, and a
      constant MAC. */
  function ToyPrimitives(wide: bool): Primitives {
    Primitives((b: Bytes) => ToySha(wide, b), (k: Bytes, iv: Bytes, p: Bytes) => p,
               (k: Bytes, iv: Bytes, p: Bytes) => p, (k: Bytes, m: Bytes) => Repeat(0, 32))
  }

  function ToySha(wide: bool, b: Bytes): Digest {
    if |b| > 21 then [b[20], if wide then b[21] else 0] + Repeat(0, 30) else Repeat(0, 32)
  }

  /** Octet 0 of every SDU counts modulo 225, octet 1 the times round. */
  function ToyOctet(i: nat): bv8 {
    if i % SDU == 0 then (i / SDU % 225) as bv8
    else if i % SDU == 1 then (i / SDU / 225 % 256) as bv8
    else 0
  }

  function ToyBody(n: nat): (b: Bytes)
    ensures |b| == n && forall i :: 0 <= i < n ==> b[i] == ToyOctet(i)
  {
    seq(n, i requires 0 <= i < n => ToyOctet(i))
  }

  function ToyPlain(n: nat): Bytes {
    Repeat(0, 4) + ToyBody(n)
  }

  function ToyWire(n: nat): Bytes {
    Repeat(0, 16) + Token.Pad(ToyPlain(n), Token.BLOCK) + Repeat(0, 32)
  }

  function ToyParts(n: nat): seq<Bytes> {
    Split(ToyWire(n))
  }

  function ToySender(n: nat, wide: bool): S.Sender {
    var c, random := ToyPrimitives(wide), Repeat(0, 4);
    var hash := Hash(c, ToyBody(n), random);
    S.Sender(c, Repeat(0, 32), Repeat(0, 32), ToyBody(n), Repeat(0, 4), random, ToyWire(n), ToyParts(n),
             HashmapOf(c, ToyParts(n), random), hash, ExpectedProof(c, ToyBody(n), hash))
  }

  // ---- the parts and their fingerprints ----

  lemma WireShape(n: nat)
    ensures |ToyWire(n)| == n + 52 + Token.PadLen(n + 4, Token.BLOCK)
    ensures forall i :: 0 <= i < n ==> ToyWire(n)[20 + i] == ToyOctet(i)
  {
    var plain := ToyPlain(n);
    forall i | 0 <= i < n ensures ToyWire(n)[20 + i] == ToyOctet(i) {
      assert ToyWire(n)[20 + i] == Token.Pad(plain, Token.BLOCK)[4 + i] == plain[4 + i] == ToyBody(n)[i];
    }
  }

  lemma {:induction false} SplitAt(blob: Bytes, i: nat, j: nat)
    requires i < |Split(blob)| && j < |Split(blob)[i]|
    ensures SDU * i + j < |blob| && Split(blob)[i][j] == blob[SDU * i + j]
    decreases |blob|
  {
    if |blob| > SDU && i > 0 {
      assert Split(blob)[i] == Split(blob[SDU..])[i - 1];
      SplitAt(blob[SDU..], i - 1, j);
    }
  }

  /** Part i reaches into the body by its two counting octets. */
  ghost predicate Counts(n: nat, i: nat) {
    i < |ToyParts(n)| && |ToyParts(n)[i]| > 21 && SDU * i + 1 < n
  }

  /** Octet 20 + j of a part is octet j of its share of the body. */
  lemma PartAt(n: nat, i: nat, j: nat)
    requires Counts(n, i) && j < 2
    ensures ToyParts(n)[i][20 + j] == ToyOctet(SDU * i + j)
  {
    var wire, at := ToyWire(n), SDU * i + j;
    assert ToyParts(n)[i][20 + j] == wire[SDU * i + (20 + j)] by { SplitAt(wire, i, 20 + j); }
    assert wire[20 + at] == ToyOctet(at) by { WireShape(n); }
    assert SDU * i + (20 + j) == 20 + at;
  }

  lemma CountingOctets(i: nat)
    ensures ToyOctet(SDU * i) == (i % 225) as bv8 && ToyOctet(SDU * i + 1) == (i / 225 % 256) as bv8
  {
    assert SDU * i % SDU == 0 && SDU * i / SDU == i;
    assert (SDU * i + 1) % SDU == 1 && (SDU * i + 1) / SDU == i;
  }

  /** The two counting octets of part i. */
  lemma PartOctets(n: nat, i: nat)
    requires Counts(n, i)
    ensures ToyParts(n)[i][20] == (i % 225) as bv8 && ToyParts(n)[i][21] == (i / 225 % 256) as bv8
  {
    PartAt(n, i, 0);
    PartAt(n, i, 1);
    CountingOctets(i);
  }

  lemma PartPrint(n: nat, wide: bool, i: nat)
    requires Counts(n, i)
    ensures MapHash(ToyPrimitives(wide), ToyParts(n)[i], Repeat(0, 4)) ==
      [(i % 225) as bv8, if wide then (i / 225 % 256) as bv8 else 0, 0, 0]
  {
    PartOctets(n, i);
    var part := ToyParts(n)[i];
    assert (part + Repeat(0, 4))[20] == part[20] && (part + Repeat(0, 4))[21] == part[21];
  }

  /** So is its entry in the hashmap. */
  lemma EntryIs(n: nat, wide: bool, i: nat)
    requires Counts(n, i)
    ensures var hm := ToySender(n, wide).hashmap;
      && |hm| == 4 * |ToyParts(n)|
      && Entry(hm, i) == [(i % 225) as bv8, if wide then (i / 225 % 256) as bv8 else 0, 0, 0]
  {
    PartPrint(n, wide, i);
    HashmapEntry(ToyPrimitives(wide), ToyParts(n), Repeat(0, 4), i);
  }

  /** Different counters make different octets. */
  lemma OctetsDiffer(a: nat, b: nat)
    requires a < 256 && b < 256 && a != b
    ensures a as bv8 != b as bv8
  {
    OctetValue(a);
    OctetValue(b);
  }

  lemma PrintsDiffer(n: nat, wide: bool, i: nat, j: nat)
    requires Counts(n, i) && Counts(n, j) && i < j < 225 * 256 && (wide || j - i <= GUARD)
    ensures var c := ToyPrimitives(wide);
      MapHash(c, ToyParts(n)[i], Repeat(0, 4)) != MapHash(c, ToyParts(n)[j], Repeat(0, 4))
  {
    PartPrint(n, wide, i);
    PartPrint(n, wide, j);
    var p, q := MapHash(ToyPrimitives(wide), ToyParts(n)[i], Repeat(0, 4)),
                MapHash(ToyPrimitives(wide), ToyParts(n)[j], Repeat(0, 4));
    if i % 225 != j % 225 {
      OctetsDiffer(i % 225, j % 225);
      assert p[0] != q[0];
    } else {
      OctetsDiffer(i / 225, j / 225);
      assert p[1] != q[1];
    }
  }

  ghost predicate AllCount(n: nat) {
    forall i :: 0 <= i < |ToyParts(n)| ==> Counts(n, i)
  }

  lemma ToyIsHonest(n: nat, wide: bool)
    requires 0 < n && AllCount(n) && 0 < |ToyParts(n)| <= MAX_PARTS
    ensures Honest(ToySender(n, wide))
  {
    var s := ToySender(n, wide);
    forall i, j | 0 <= i < j < |s.parts| && j - i <= GUARD
      ensures MapHash(s.prim, s.parts[i], s.random) != MapHash(s.prim, s.parts[j], s.random)
    {
      PrintsDiffer(n, wide, i, j);
    }
    assert Token.LinkEncrypt(s.prim, s.prefix + s.body, s.signing, s.encryption, Repeat(0, 16)) == Ok(s.wire);
  }

  // ---- a blob one octet over the receiver's cap ----

  lemma OversizeShape()
    ensures |ToyWire(OVERSIZE)| == MAX_SIZE + 1 && |ToyParts(OVERSIZE)| == 2278 && AllCount(OVERSIZE)
  {
    var parts := ToyParts(OVERSIZE);
    assert |ToyWire(OVERSIZE)| == MAX_SIZE + 1 by { WireShape(OVERSIZE); }
    SplitCorrect(ToyWire(OVERSIZE));
    LastOf(parts);
  }

  /** How long the last part is when the others are whole. */
  lemma LastOf(parts: seq<Bytes>)
    requires parts != [] && forall i :: 0 <= i < |parts| - 1 ==> |parts[i]| == SDU
    ensures |Concat(parts)| == SDU * (|parts| - 1) + |parts[|parts| - 1]|
  {
    var front, last := parts[..|parts| - 1], parts[|parts| - 1];
    ConcatUniform(front, SDU);
    assert parts == front + [last];
    ConcatSnoc(front, last);
  }

  lemma OversizeDistinct()
    ensures var s := ToySender(OVERSIZE, true); |s.hashmap| == 4 * |s.parts| && Distinct(s.hashmap, |s.parts|)
  {
    var s := ToySender(OVERSIZE, true);
    OversizeShape();
    forall i, j | 0 <= i < j < |s.parts| ensures Entry(s.hashmap, i) != Entry(s.hashmap, j) {
      PrintsDiffer(OVERSIZE, true, i, j);
      HashmapEntry(s.prim, s.parts, s.random, i);
      HashmapEntry(s.prim, s.parts, s.random, j);
    }
  }

  /** The sender's own check lets through a body the receiver's cap does not: with every fingerprint
      distinct, each schedule still ends without a receiver, and the sender gives up or is stopped. */
  lemma SizeCapIsTighter(acts: seq<Action>)
    ensures var s := ToySender(OVERSIZE, true);
      && Honest(s) && |s.wire| == MAX_SIZE + 1 && |s.parts| == 2278 && Faithful(s) && EndsFirst(s)
      && var y := After(s, acts);
      y.rx.None? && y.handed == [] && y.net == {AdvMsg(WireAdv(s))} && Unheard(y.tx)
  {
    var s := ToySender(OVERSIZE, true);
    OversizeShape();
    ToyIsHonest(OVERSIZE, true);
    OversizeDistinct();
    DistinctIsDeliverable(s);
    OversizeNeverOpens(s, acts);
  }

  // ---- one part more than the guard reaches ----

  function TightSender(): S.Sender {
    ToySender(TIGHT, false)
  }

  lemma TightShape()
    ensures |ToyWire(TIGHT)| == SDU * 226 && |ToyParts(TIGHT)| == 226 && AllCount(TIGHT)
    ensures forall i :: 0 <= i < 226 ==> |ToyParts(TIGHT)[i]| == SDU
  {
    var parts := ToyParts(TIGHT);
    WireShape(TIGHT);
    SplitCorrect(ToyWire(TIGHT));
    LastOf(parts);
  }

  /** Parts 225 apart have one fingerprint. */
  lemma TightPrintsRepeat()
    ensures |TightSender().parts| == 226 && |TightSender().hashmap| == 4 * 226
    ensures Entry(TightSender().hashmap, 0) == Entry(TightSender().hashmap, 225)
  {
    TightShape();
    EntryIs(TIGHT, false, 0);
    EntryIs(TIGHT, false, 225);
  }

  /** Parts 0 and 225 are whole SDUs, and differ. */
  lemma TightPartsDiffer()
    ensures |TightSender().parts| == 226 && |TightSender().parts[0]| == |TightSender().parts[225]| == SDU
    ensures TightSender().parts[0] != TightSender().parts[225]
  {
    TightShape();
    PartOctets(TIGHT, 0);
    PartOctets(TIGHT, 225);
    OctetsDiffer(0, 1);
    assert TightSender().parts[0][21] != TightSender().parts[225][21];
  }

  /** What is served: whole SDUs, and part 0 at the end. */
  lemma TightServed()
    ensures var s := TightSender();
      && |s.hashmap| == 4 * |s.parts| && |s.parts| == 226 && Served(s)[225] == s.parts[0]
      && forall i :: 0 <= i < 226 ==> |Served(s)[i]| == SDU
  {
    var s := TightSender();
    TightPrintsRepeat();
    assert First(s, 225) == First(s, 0) == 0;
    TightShape();
    forall i | 0 <= i < 226 ensures |Served(s)[i]| == SDU { assert First(s, i) <= i; }
  }

  lemma PartZeroEnd()
    ensures |ToyParts(TIGHT)| == 226 && |ToyParts(TIGHT)[0]| == SDU && ToyParts(TIGHT)[0][431] == 0
  {
    TightShape();
    SplitAt(ToyWire(TIGHT), 0, 431);
    assert ToyWire(TIGHT)[20 + 411] == ToyOctet(411) by { WireShape(TIGHT); }
  }

  /** Where the mixture's padding should be there is an octet of part 0, and it is no padding. */
  lemma MixtureEnd()
    ensures |TightSender().hashmap| == 4 * |TightSender().parts|
    ensures var stream := Concat(Served(TightSender())); |stream| == SDU * 226 && stream[|stream| - 33] == 0
  {
    TightServed();
    PartZeroEnd();
    ConcatLast(Served(TightSender()), SDU, 431);
  }

  /** An octet of the last of several strings of one length. */
  lemma ConcatLast(parts: seq<Bytes>, n: nat, j: nat)
    requires parts != [] && j < n && forall i :: 0 <= i < |parts| ==> |parts[i]| == n
    ensures var all := Concat(parts);
      |all| == n * |parts| && |all| >= n && all[|all| - n + j] == parts[|parts| - 1][j]
  {
    var front, last := parts[..|parts| - 1], parts[|parts| - 1];
    ConcatUniform(parts, n);
    assert parts == front + [last];
    ConcatSnoc(front, last);
  }

  lemma TightNotForged()
    ensures |TightSender().hashmap| == 4 * |TightSender().parts| && !Forged(TightSender())
  {
    MixtureEnd();
    BadPaddingRefused(Concat(Served(TightSender())));
  }

  lemma BadPaddingRefused(stream: Bytes)
    requires |stream| > 64 && stream[|stream| - 33] == 0
    ensures Token.LinkDecrypt(ToyPrimitives(false), stream, Repeat(0, 32), Repeat(0, 32)).Err?
  {
    var ct := stream[16..|stream| - 32];
    assert ct[|ct| - 1] == stream[|stream| - 33];
  }

  lemma TightUndeliverable()
    ensures var s := TightSender();
      && |s.parts| == GUARD + 2 && |s.hashmap| == 4 * |s.parts| && !Deliverable(s)
      && First(s, 225) == 0 && s.parts[First(s, 225)] != s.parts[225]
  {
    var s := TightSender();
    TightPrintsRepeat();
    TightPartsDiffer();
    assert First(s, 225) == First(s, 0) == 0;
    assert !Faithful(s);
  }

  /** One part more than the guard reaches, and the guard accepts a sender whose lookup sends part 0 for
      slot 225: within the size cap, every schedule ends without the body. */
  lemma GuardIsTight(acts: seq<Action>)
    ensures var s := TightSender();
      && Honest(s) && Fits(s) && |s.parts| == GUARD + 2 && First(s, 225) == 0
      && s.parts[First(s, 225)] != s.parts[225]
      && After(s, acts).handed == [] && !After(s, acts).tx.status.Complete?
  {
    TightShape();
    ToyIsHonest(TIGHT, false);
    TightUndeliverable();
    TightNotForged();
    UndeliverableNeverArrives(TightSender(), acts);
  }
}
