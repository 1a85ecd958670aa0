/** What sender and receiver agree on, whatever the channel did: which part fills which slot, which
    hashmap prefix is known, and when a transfer can end with the body at all. */
module ResourceAgreement {
  import opened Octets
  import opened ResourceHash
  import opened ResourceWire
  import Token
  import R = ResourceReceiver
  import S = ResourceSender

  function Min(a: int, b: int): int { if a < b then a else b }

  /** A constructed sender, over a cipher whose decryption undoes encryption. Fingerprints may repeat
      beyond the guard's reach, and the blob may be over the receiver's cap. */
  ghost predicate Honest(s: S.Sender) {
    S.Built(s) && CipherSound(s.prim)
  }

  /** The blob is within the size the receiver accepts: the sender's own check, of the part count, is looser. */
  predicate Fits(s: S.Sender) {
    |s.wire| <= MAX_SIZE
  }

  /** The advertisement as it goes on the wire. */
  ghost function WireAdv(s: S.Sender): (a: Adv)
    requires Honest(s)
    ensures ParseAdv(a) == if Fits(s) then Ok(a) else Err(TooLarge)
    ensures a.numParts == |s.parts| && a.hashmap == s.hashmap[..4 * Min(|s.parts|, SEGMENT)]
  {
    BodyShorter(s);
    PackAdv(S.FullAdv(s)).value
  }

  lemma BodyShorter(s: S.Sender)
    requires Honest(s)
    ensures 0 < |s.body| < |s.wire|
  {
    var iv :| Token.LinkEncrypt(s.prim, s.prefix + s.body, s.signing, s.encryption, iv) == Ok(s.wire);
    Token.LinkEncryptLength(s.prim, s.prefix + s.body, s.signing, s.encryption, iv);
  }

  /** The receiving end of the same link: same keys, the rest read from the advertisement. */
  function SessionOf(s: S.Sender): R.Session {
    R.Session(s.prim, s.hash, s.random, |s.wire|, |s.body|, s.signing, s.encryption)
  }

  // ---- what the sender's lookup can serve ----

  ghost predicate Mapped(s: S.Sender) {
    |s.hashmap| == 4 * |s.parts|
  }

  /** The first slot with slot i's fingerprint: the only part the sender ever sends for it. */
  function First(s: S.Sender, i: nat): (k: nat)
    requires |s.hashmap| == 4 * |s.parts| && i < |s.parts|
    ensures k <= i && Entry(s.hashmap, k) == Entry(s.hashmap, i)
  {
    FindFrom(s.hashmap, |s.parts|, Entry(s.hashmap, i), 0)
  }

  /** What each slot can only ever be filled with. */
  function Served(s: S.Sender): (parts: seq<Bytes>)
    requires |s.hashmap| == 4 * |s.parts|
    ensures |parts| == |s.parts| && forall i :: 0 <= i < |parts| ==> parts[i] == s.parts[First(s, i)]
  {
    seq(|s.parts|, i requires 0 <= i < |s.parts| => s.parts[First(s, i)])
  }

  /** Parts with one fingerprint are one part. */
  ghost predicate Faithful(s: S.Sender)
    requires Mapped(s)
  {
    forall i, j :: 0 <= i < j < |s.parts| && Entry(s.hashmap, i) == Entry(s.hashmap, j) ==> s.parts[i] == s.parts[j]
  }

  /** The fingerprint that ends segment m occurs nowhere before it. */
  ghost predicate EndFirst(s: S.Sender, m: int)
    requires Mapped(s)
  {
    1 <= m && SEGMENT * m <= |s.parts| && First(s, SEGMENT * m - 1) == SEGMENT * m - 1
  }

  /** Every segment can be asked for by the fingerprint that ends the one before. */
  ghost predicate EndsFirst(s: S.Sender)
    requires Mapped(s)
  {
    forall m :: 1 <= m && SEGMENT * m < |s.parts| ==> EndFirst(s, m)
  }

  /** The receiver accepts the size, and the fingerprints leave the transfer a way to end with the body. */
  ghost predicate Deliverable(s: S.Sender)
    requires Mapped(s)
  {
    Fits(s) && Faithful(s) && EndsFirst(s)
  }

  lemma ServedIff(s: S.Sender)
    requires Mapped(s)
    ensures Served(s) == s.parts <==> Faithful(s)
  {
    if Faithful(s) {
      forall i | 0 <= i < |s.parts| ensures Served(s)[i] == s.parts[i] {}
    }
    if Served(s) == s.parts {
      forall i, j | 0 <= i < j < |s.parts| && Entry(s.hashmap, i) == Entry(s.hashmap, j)
        ensures s.parts[i] == s.parts[j]
      {
        assert First(s, i) == First(s, j);
        assert Served(s)[i] == Served(s)[j];
      }
    }
  }

  /** With pairwise distinct fingerprints only the size matters; so it does with at most 225 parts. */
  lemma DistinctIsDeliverable(s: S.Sender)
    requires S.Built(s) && (Distinct(s.hashmap, |s.parts|) || |s.parts| <= GUARD + 1)
    ensures Faithful(s) && EndsFirst(s) && (Deliverable(s) <==> Fits(s))
  {
    if |s.parts| <= GUARD + 1 { GuardMakesDistinct(s.prim, s.parts, s.random); }
    forall m | 1 <= m && SEGMENT * m < |s.parts| ensures EndFirst(s, m) {
      FindInverse(s.hashmap, |s.parts|, SEGMENT * m - 1);
    }
  }

  // ---- what full slots yield ----

  /** What reassembly makes of the only parts that can ever arrive. */
  function Yield(s: S.Sender): Result<Bytes, R.AssembleError>
    requires |s.hashmap| == 4 * |s.parts|
  {
    R.AssembleParts(SessionOf(s), Served(s))
  }

  /** The mixture of parts is a second octet string of the blob's length that passes its MAC. */
  ghost predicate Forged(s: S.Sender)
    requires Mapped(s)
  {
    var stream := Concat(Served(s));
    && stream != s.wire && |stream| == |s.wire|
    && Token.LinkDecrypt(s.prim, stream, s.signing, s.encryption).Ok?
  }

  /** With faithful fingerprints, reassembly yields exactly the sender's body. */
  lemma FaithfulYields(s: S.Sender)
    requires Honest(s) && Faithful(s)
    ensures Yield(s) == Ok(s.body)
  {
    ServedIff(s);
    SplitCorrect(s.wire);
    var iv :| Token.LinkEncrypt(s.prim, s.prefix + s.body, s.signing, s.encryption, iv) == Ok(s.wire);
    Token.LinkDecryptEncrypt(s.prim, s.prefix + s.body, s.signing, s.encryption, iv);
    assert (s.prefix + s.body)[RANDOM_LEN..] == s.body;
  }

  lemma {:induction false} ConcatUniform(parts: seq<Bytes>, n: nat)
    requires forall i :: 0 <= i < |parts| ==> |parts[i]| == n
    ensures |Concat(parts)| == n * |parts|
  {
    if parts != [] {
      ConcatUniform(parts[1..], n);
      assert n * |parts| == n + n * |parts[1..]|;
    }
  }

  lemma {:induction false} ConcatInjective(a: seq<Bytes>, b: seq<Bytes>)
    requires |a| == |b| && (forall i :: 0 <= i < |a| ==> |a[i]| == |b[i]|) && Concat(a) == Concat(b)
    ensures a == b
  {
    if a != [] {
      assert Concat(a)[..|a[0]|] == a[0] && Concat(b)[..|b[0]|] == b[0];
      assert Concat(a)[|a[0]|..] == Concat(a[1..]) && Concat(b)[|b[0]|..] == Concat(b[1..]);
      ConcatInjective(a[1..], b[1..]);
      assert a == [a[0]] + a[1..] && b == [b[0]] + b[1..];
    }
  }

  /** Lists that agree in length everywhere but at the end, and in total, agree at the end too. */
  lemma LastLength(a: seq<Bytes>, b: seq<Bytes>, n: nat)
    requires |a| == |b| > 0 && |Concat(a)| == |Concat(b)|
    requires forall i :: 0 <= i < |a| - 1 ==> |a[i]| == |b[i]| == n
    ensures forall i :: 0 <= i < |a| ==> |a[i]| == |b[i]|
  {
    var k := |a| - 1;
    assert a == a[..k] + [a[k]] && b == b[..k] + [b[k]];
    ConcatSnoc(a[..k], a[k]);
    ConcatSnoc(b[..k], b[k]);
    ConcatUniform(a[..k], n);
    ConcatUniform(b[..k], n);
  }

  /** With unfaithful ones it yields nothing, short of a forged MAC. */
  lemma UnfaithfulYields(s: S.Sender)
    requires S.Built(s) && !Faithful(s) && Yield(s).Ok?
    ensures Forged(s)
  {
    ServedIff(s);
    if Concat(Served(s)) == s.wire { SameBlobSameParts(s); }
  }

  lemma SameBlobSameParts(s: S.Sender)
    requires S.Built(s) && Concat(Served(s)) == s.wire
    ensures Served(s) == s.parts
  {
    var parts, served := s.parts, Served(s);
    SplitCorrect(s.wire);
    forall i | 0 <= i < |parts| - 1 ensures |served[i]| == |parts[i]| == SDU {
      assert First(s, i) <= i;
    }
    LastLength(served, parts, SDU);
    ConcatInjective(served, parts);
  }

  // ---- what the receiver has ----

  /** The prefix is a whole number of segments, cut at the end of the hashmap. */
  ghost predicate Tiled(n: int, known: int) {
    0 < known && known == Min(n, SEGMENT * ((known + SEGMENT - 1) / SEGMENT))
  }

  /** The receiver agrees with the sender on everything it has, and got past a segment only because
      that segment's end could be asked for. */
  ghost predicate RxInv(s: S.Sender, x: R.Rx)
    requires Mapped(s)
  {
    && R.Valid(x) && |x.parts| == |s.parts| && |x.hashmap| == |s.hashmap|
    && Tiled(|s.parts|, x.known)
    && (forall i :: 0 <= i < x.known ==> Entry(x.hashmap, i) == Entry(s.hashmap, i))
    && (forall i :: 0 <= i < |x.parts| && x.flags[i] ==> x.parts[i] == s.parts[First(s, i)])
    && (forall m :: 1 <= m && SEGMENT * m < x.known ==> EndFirst(s, m))
  }

  /** Segment k of the sender's hashmap. */
  function SegmentOf(s: S.Sender, k: int): Hmu
    requires 0 <= k && SEGMENT * k <= |s.parts| && |s.hashmap| == 4 * |s.parts|
  {
    Hmu(s.hash, k, s.hashmap[4 * (SEGMENT * k)..4 * Min(|s.parts|, SEGMENT * k + SEGMENT)])
  }

  /** A request for the segment after m names the fingerprint that ends m. */
  ghost predicate Names(s: S.Sender, q: Request, m: int)
    requires Mapped(s)
  {
    1 <= m && SEGMENT * m < |s.parts| && q.lastMapHash == Entry(s.hashmap, SEGMENT * m - 1)
  }

  /** What can be on the wire. */
  ghost predicate HonestMsg(s: S.Sender, m: Msg)
    requires Honest(s)
  {
    match m
    case AdvMsg(a) => a == WireAdv(s)
    case PartMsg(p) => p in Served(s)
    case HmuMsg(h) => SEGMENT * h.segment < |s.parts| && EndFirst(s, h.segment) && h == SegmentOf(s, h.segment)
    case ReqMsg(q) => q.resourceHash == s.hash && BuildReq(q).Ok? && (q.exhausted ==> exists k :: Names(s, q, k))
    case PrfMsg(p) => Yield(s).Ok? && p == Proof(s.hash, ExpectedProof(s.prim, Yield(s).value, s.hash))
    case RclMsg(h) => h == s.hash
  }

  // ---- the receiver's moves ----

  /** A sender's part goes to a slot of its own fingerprint, so to a slot it is served for, or nowhere. */
  lemma PlaceExact(s: S.Sender, x: R.Rx, part: Bytes)
    requires Honest(s) && RxInv(s, x) && part in Served(s)
    ensures var r := R.PlacePart(SessionOf(s), x, part).1;
      r.Placed? ==> 0 <= r.slot < |s.parts| && part == s.parts[First(s, r.slot)]
  {
    var i :| 0 <= i < |s.parts| && Served(s)[i] == part;
    var j := First(s, i);
    HashmapEntry(s.prim, s.parts, s.random, j);
    R.ScanBounds(x, Entry(s.hashmap, j), R.Base(x), R.End(x), false);
  }

  /** The construction-time guard leaves at most one matching slot in the placement window, from any frontier. */
  lemma PlacementUnambiguous(s: S.Sender, x: R.Rx, mh: Bytes, i: int, j: int)
    requires S.Built(s) && R.Shape(x) && |x.parts| == |s.parts|
    requires forall k :: 0 <= k < x.known ==> Entry(x.hashmap, k) == Entry(s.hashmap, k)
    requires R.Base(x) <= i < R.End(x) && R.Base(x) <= j < R.End(x)
    requires Entry(x.hashmap, i) == mh == Entry(x.hashmap, j)
    ensures i == j
  {
    WindowHasOneMatch(s.prim, s.parts, s.random, R.Base(x), i, j, mh);
  }

  lemma PlaceKeepsRxInv(s: S.Sender, x: R.Rx, part: Bytes)
    requires Honest(s) && RxInv(s, x) && part in Served(s)
    ensures RxInv(s, R.PlacePart(SessionOf(s), x, part).0)
  {
    PlaceExact(s, x, part);
    var mh := MapHash(s.prim, part, s.random);
    R.ScanBounds(x, mh, R.Base(x), R.End(x), false);
    var r := R.Scan(x, mh, R.Base(x), R.End(x), false);
    if r.Placed? { R.FilledValid(x, r.slot, part); }
  }

  /** A prefix short of the whole hashmap ends on a segment boundary. */
  lemma PartialPrefixIsWhole(n: int, known: int)
    requires Tiled(n, known) && known < n
    ensures known % SEGMENT == 0 && known / SEGMENT * SEGMENT == known && known / SEGMENT >= 1
  {
  }

  /** A segment the sender serves is accepted iff it is the next one: a stale, repeated or early one
      changes nothing. */
  lemma HmuAcceptedIffNext(s: S.Sender, x: R.Rx, h: ParsedHmu)
    requires Honest(s) && RxInv(s, x) && HonestMsg(s, HmuMsg(h))
    ensures R.ApplyHmu(SessionOf(s), x, h).Ok? <==> x.known == SEGMENT * h.segment
  {
    if x.known < |s.parts| { PartialPrefixIsWhole(|s.parts|, x.known); }
  }

  /** An accepted segment extends the prefix by exactly itself. */
  lemma HmuExact(s: S.Sender, x: R.Rx, h: ParsedHmu)
    requires Honest(s) && RxInv(s, x) && HonestMsg(s, HmuMsg(h)) && x.known == SEGMENT * h.segment
    ensures R.ApplyHmu(SessionOf(s), x, h).Ok?
    ensures var x1 := R.ApplyHmu(SessionOf(s), x, h).value;
      RxInv(s, x1) && x1.known == Min(|s.parts|, x.known + SEGMENT) && x1.count == x.count && x1.flags == x.flags
  {
    HmuAcceptedIffNext(s, x, h);
    var x1 := R.ApplyHmu(SessionOf(s), x, h).value;
    assert R.Valid(x1) by { R.HmuGrows(SessionOf(s), x, h); }
    assert x1.known == Min(|s.parts|, x.known + SEGMENT) && Tiled(|s.parts|, x1.known) by {
      TiledNext(|s.parts|, h.segment);
    }
    forall i | 0 <= i < x1.known ensures Entry(x1.hashmap, i) == Entry(s.hashmap, i) { HmuEntriesExact(s, x, h, i); }
    forall m | 1 <= m && SEGMENT * m < x1.known ensures EndFirst(s, m) { NextEnd(x.known, h.segment, m); }
  }

  lemma TiledNext(n: int, k: int)
    requires 1 <= k && SEGMENT * k < n
    ensures Tiled(n, Min(n, SEGMENT * k + SEGMENT))
  {
  }

  lemma NextEnd(known: int, k: int, m: int)
    requires known == SEGMENT * k && SEGMENT * m < known + SEGMENT
    ensures SEGMENT * m < known || m == k
  {
  }

  lemma HmuEntriesExact(s: S.Sender, x: R.Rx, h: ParsedHmu, i: int)
    requires Honest(s) && RxInv(s, x) && HonestMsg(s, HmuMsg(h)) && x.known == SEGMENT * h.segment
    requires R.ApplyHmu(SessionOf(s), x, h).Ok? && 0 <= i < R.ApplyHmu(SessionOf(s), x, h).value.known
    ensures Entry(R.ApplyHmu(SessionOf(s), x, h).value.hashmap, i) == Entry(s.hashmap, i)
  {
    var x1 := R.ApplyHmu(SessionOf(s), x, h).value;
    R.HmuEntries(SessionOf(s), x, h);
    if x.known <= i {
      assert h.hashmap == s.hashmap[4 * x.known..4 * x1.known];
      EntryOfSlice(s.hashmap, x.known, x1.known, i);
    }
  }

  lemma RequestIsHonest(s: S.Sender, x: R.Rx, q: Request)
    requires Honest(s) && RxInv(s, x) && R.RequestNext(SessionOf(s), x).1 == Some(q)
    ensures HonestMsg(s, ReqMsg(q))
  {
    if R.Exhausted(x) {
      PartialPrefixIsWhole(|s.parts|, x.known);
      assert Names(s, q, x.known / SEGMENT);
    }
  }

  lemma TargetKeepsRxInv(s: S.Sender, x: R.Rx)
    requires Honest(s) && RxInv(s, x)
    ensures RxInv(s, R.RequestNext(SessionOf(s), x).0)
    ensures match R.RequestNext(SessionOf(s), x).1 case None => true case Some(q) => HonestMsg(s, ReqMsg(q))
  {
    var (x1, out) := R.RequestNext(SessionOf(s), x);
    assert x1 == x.(target := x1.target);
    if out.Some? { RequestIsHonest(s, x, out.value); }
  }

  lemma RxHandleKeeps(s: S.Sender, x: R.Rx, e: R.Event)
    requires Honest(s) && RxInv(s, x)
    requires e.PartIn? ==> e.part in Served(s)
    requires e.HmuIn? ==> HonestMsg(s, HmuMsg(e.hmu))
    ensures var (x1, out) := R.Handle(SessionOf(s), x, e);
      RxInv(s, x1) && match out case None => true case Some(q) => HonestMsg(s, ReqMsg(q))
  {
    match e
    case Timer => TargetKeepsRxInv(s, x);
    case PartIn(part) =>
      PlaceKeepsRxInv(s, x, part);
      TargetKeepsRxInv(s, R.PlacePart(SessionOf(s), x, part).0);
    case HmuIn(h) =>
      HmuAcceptedIffNext(s, x, h);
      if x.known == SEGMENT * h.segment {
        HmuExact(s, x, h);
        TargetKeepsRxInv(s, R.ApplyHmu(SessionOf(s), x, h).value);
      }
    case _ =>
  }

  /** A freshly opened receiver knows exactly segment 0. */
  lemma OpenInv(s: S.Sender)
    requires Honest(s) && Fits(s)
    ensures RxInv(s, R.Open(WireAdv(s)))
  {
    var x := R.Open(WireAdv(s));
    forall i | 0 <= i < x.known ensures Entry(x.hashmap, i) == Entry(s.hashmap, i) {}
  }

  /** Once every slot is filled, the receiver holds exactly what was served, and every segment's end
      could be asked for. */
  lemma FullIsServed(s: S.Sender, x: R.Rx)
    requires Honest(s) && RxInv(s, x) && x.count >= |x.parts|
    ensures x.parts == Served(s) && R.Assemble(SessionOf(s), x) == Yield(s) && EndsFirst(s)
  {
    R.CountFull(x.flags);
    assert x.flags[|x.flags| - 1];
  }

  // ---- the sender's moves ----

  /** Only parts a lookup can find go out. */
  lemma {:induction false} AnswersAreServed(s: S.Sender, requested: seq<Bytes>)
    requires Mapped(s)
    ensures forall p :: p in S.Answers(s, requested) ==> p in Served(s)
  {
    if requested != [] {
      AnswersAreServed(s, requested[1..]);
      var k := FindFrom(s.hashmap, |s.parts|, requested[0], 0);
      if k >= 0 {
        assert First(s, k) == k;
        assert Served(s)[k] == s.parts[k];
      }
    }
  }

  /** Any segment served from a request is a whole segment of the sender's hashmap, after an end that
      occurs nowhere before. */
  lemma ServedIsHonest(s: S.Sender, q: Request)
    requires Honest(s) && S.ServeHmu(s, q).Ok?
    ensures HonestMsg(s, HmuMsg(S.ServeHmu(s, q).value))
  {
    var k := FindFrom(s.hashmap, |s.parts|, q.lastMapHash, 0);
    assert First(s, k) == k;
    WholeSegments(k + 1);
  }

  lemma WholeSegments(n: int)
    requires n % SEGMENT == 0
    ensures SEGMENT * (n / SEGMENT) == n
  {
  }

  lemma SegmentEnds(k: nat, m: int)
    requires k < SEGMENT * m
    ensures k == SEGMENT * m - 1 ==> (k + 1) % SEGMENT == 0
    ensures (k + 1) % SEGMENT == 0 ==> 1 <= (k + 1) / SEGMENT <= m && ((k + 1) / SEGMENT == m <==> k == SEGMENT * m - 1)
  {
  }

  /** What a known fingerprint short of the last is answered with. */
  lemma ServedAt(s: S.Sender, q: Request, k: nat)
    requires Honest(s) && |q.lastMapHash| == MAP_HASH_LEN && k + 1 < |s.parts|
    requires FindFrom(s.hashmap, |s.parts|, q.lastMapHash, 0) == k
    ensures var r := S.ServeHmu(s, q);
      if (k + 1) % SEGMENT == 0 then r.Ok? && r.value.segment == (k + 1) / SEGMENT
      else r == Err(S.NotSegmentBoundary)
  {
  }

  /** A request naming the end of segment m is served segment m iff that end occurs nowhere before;
      otherwise it is refused as off a boundary, or answered with an earlier segment. */
  lemma NamedServedIff(s: S.Sender, q: Request, m: int)
    requires Honest(s) && Names(s, q, m)
    ensures var r := S.ServeHmu(s, q);
      && (r.Ok? && r.value.segment == m <==> EndFirst(s, m))
      && (r.Ok? ==> 1 <= r.value.segment <= m) && (r.Err? ==> r.error == S.NotSegmentBoundary)
  {
    var k := First(s, SEGMENT * m - 1);
    ServedAt(s, q, k);
    SegmentEnds(k, m);
  }

  /** Every answer to an honest request is honest. */
  lemma ReplyIsHonest(s: S.Sender, q: Request, m: Msg)
    requires Honest(s) && HonestMsg(s, ReqMsg(q)) && m in S.ReplyTo(s, q)
    ensures HonestMsg(s, m) && (m.PartMsg? || m.HmuMsg?)
  {
    AnswersAreServed(s, q.requested);
    if q.exhausted && S.ServeHmu(s, q).Ok? { ServedIsHonest(s, q); }
  }

  // ---- progress ----

  /** The part served for the frontier slot, once delivered, is always placed there. */
  lemma FrontierPlaced(s: S.Sender, x: R.Rx)
    requires Honest(s) && RxInv(s, x) && x.height + 1 < x.known
    ensures R.PlacePart(SessionOf(s), x, s.parts[First(s, x.height + 1)]).1 == R.Placed(x.height + 1)
  {
    var f := x.height + 1;
    HashmapEntry(s.prim, s.parts, s.random, First(s, f));
    forall j | R.Base(x) <= j < R.End(x) && Entry(x.hashmap, j) == Entry(s.hashmap, f) ensures j == f {
      PlacementUnambiguous(s, x, Entry(s.hashmap, f), j, f);
    }
    ScanFinds(x, Entry(s.hashmap, f), R.Base(x), R.End(x), f, false);
  }

  /** The scan stops at the only unfilled match. */
  lemma {:induction false} ScanFinds(x: R.Rx, mh: Bytes, i: int, end: int, f: int, dup: bool)
    requires R.Shape(x) && 0 <= i <= f < end <= x.known
    requires Entry(x.hashmap, f) == mh && !x.flags[f]
    requires forall j :: i <= j < end && j != f ==> Entry(x.hashmap, j) != mh
    ensures R.Scan(x, mh, i, end, dup) == R.Placed(f)
    decreases f - i
  {
    if i < f { ScanFinds(x, mh, i + 1, end, f, dup); }
  }

  /** A receiver with missing parts always asks for something: its frontier slot first if that slot's
      fingerprint is known, otherwise the next hashmap segment. */
  lemma AlwaysAsks(s: S.Sender, x: R.Rx)
    requires Honest(s) && RxInv(s, x) && x.count < |x.parts|
    ensures R.RequestNext(SessionOf(s), x).1.Some?
    ensures var q := R.RequestNext(SessionOf(s), x).1.value;
      if x.height + 1 < x.known then q.requested != [] && q.requested[0] == Entry(s.hashmap, x.height + 1)
      else q.exhausted && q.requested == [] && x.known < |x.parts| && Names(s, q, x.known / SEGMENT)
  {
    if x.height + 1 < x.known { AsksForFrontier(s, x); } else { AsksForSegment(s, x); }
  }

  lemma AsksForFrontier(s: S.Sender, x: R.Rx)
    requires Honest(s) && RxInv(s, x) && x.height + 1 < x.known
    ensures R.RequestNext(SessionOf(s), x).1.Some?
    ensures var q := R.RequestNext(SessionOf(s), x).1.value;
      q.requested != [] && q.requested[0] == Entry(s.hashmap, x.height + 1)
  {
    R.MissingStart(x.flags, 0, x.known, WINDOW, x.height + 1);
  }

  lemma AsksForSegment(s: S.Sender, x: R.Rx)
    requires Honest(s) && RxInv(s, x) && x.count < |x.parts| && x.height + 1 >= x.known
    ensures R.RequestNext(SessionOf(s), x).1.Some?
    ensures var q := R.RequestNext(SessionOf(s), x).1.value;
      q.exhausted && q.requested == [] && x.known < |x.parts| && Names(s, q, x.known / SEGMENT)
  {
    R.MissingStart(x.flags, 0, x.known, WINDOW, x.known);
    assert x.known < |x.parts| by { R.CountFull(x.flags); }
    ExhaustedNames(s, x, R.RequestNext(SessionOf(s), x).1.value);
  }

  /** An exhausted receiver names the end of the prefix it knows. */
  lemma ExhaustedNames(s: S.Sender, x: R.Rx, q: Request)
    requires Honest(s) && RxInv(s, x) && q.exhausted && R.RequestNext(SessionOf(s), x).1 == Some(q)
    ensures Names(s, q, x.known / SEGMENT) && x.known / SEGMENT * SEGMENT == x.known
  {
    PartialPrefixIsWhole(|s.parts|, x.known);
    assert q.lastMapHash == Entry(x.hashmap, x.known - 1) == Entry(s.hashmap, x.known - 1);
  }

  /** A message that will move this receiver on. */
  ghost predicate Helps(s: S.Sender, x: R.Rx, m: Msg)
    requires Mapped(s)
  {
    if 0 <= x.height + 1 < |s.parts| && x.height + 1 < x.known then m == PartMsg(s.parts[First(s, x.height + 1)])
    else m.HmuMsg? && m.hmu.segment * SEGMENT == x.known
  }

  /** The answer to the receiver's request starts with the frontier part, or is the next segment. */
  lemma ReplyHelps(s: S.Sender, x: R.Rx, q: Request)
    requires Honest(s) && EndsFirst(s) && RxInv(s, x) && x.count < |x.parts|
    requires R.RequestNext(SessionOf(s), x).1 == Some(q)
    ensures S.ReplyTo(s, q) != [] && Helps(s, x, S.ReplyTo(s, q)[0])
  {
    AlwaysAsks(s, x);
    if !(x.height + 1 < x.known) {
      PartialPrefixIsWhole(|s.parts|, x.known);
      NamedServedIff(s, q, x.known / SEGMENT);
    }
  }

  /** Taking in that first answer makes the receiver's measure fall. */
  lemma HelpAdvances(s: S.Sender, x: R.Rx, m: Msg)
    requires Honest(s) && RxInv(s, x) && Helps(s, x, m) && HonestMsg(s, m)
    ensures var x1 := R.Handle(SessionOf(s), x, if m.PartMsg? then R.PartIn(m.part) else R.HmuIn(m.hmu)).0;
      x.known <= x1.known && x.count <= x1.count && x.known + x.count < x1.known + x1.count
  {
    if x.height + 1 < x.known { FrontierAdvances(s, x); } else { SegmentAdvances(s, x, m.hmu); }
  }

  lemma FrontierAdvances(s: S.Sender, x: R.Rx)
    requires Honest(s) && RxInv(s, x) && x.height + 1 < x.known
    ensures var x1 := R.Handle(SessionOf(s), x, R.PartIn(s.parts[First(s, x.height + 1)])).0;
      x1.known == x.known && x1.count == x.count + 1
  {
    FrontierPlaced(s, x);
  }

  lemma SegmentAdvances(s: S.Sender, x: R.Rx, h: ParsedHmu)
    requires Honest(s) && RxInv(s, x) && HonestMsg(s, HmuMsg(h)) && x.known == SEGMENT * h.segment
    ensures var x1 := R.Handle(SessionOf(s), x, R.HmuIn(h)).0; x1.known > x.known && x1.count == x.count
  {
    HmuExact(s, x, h);
  }
}
