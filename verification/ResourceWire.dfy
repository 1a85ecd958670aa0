/** Bodies of the Resource control packets. msgpack payloads appear as the values they decode to. */
module ResourceWire {
  import opened Octets
  import opened ResourceHash

  const EXHAUSTED: bv8 := 0xFF
  const NOT_EXHAUSTED: bv8 := 0x00

  datatype WireError = BadHashLen | BadLastMapHash | BadMapHashLen | TooShort | BadFlag | BadTail | BadProofLen
    | BadSegment | BadHashmapLen

  // ---- RESOURCE_REQ ----

  datatype Request = Request(exhausted: bool, lastMapHash: Bytes, resourceHash: Bytes, requested: seq<Bytes>)

  predicate AllPrints(ms: seq<Bytes>) {
    forall i :: 0 <= i < |ms| ==> |ms[i]| == MAP_HASH_LEN
  }

  function BuildReq(q: Request): Result<Bytes, WireError> {
    if |q.resourceHash| != 32 then Err(BadHashLen)
    else if q.exhausted && |q.lastMapHash| != MAP_HASH_LEN then Err(BadLastMapHash)
    else if !AllPrints(q.requested) then Err(BadMapHashLen)
    else
      var flag := if q.exhausted then [EXHAUSTED] + q.lastMapHash else [NOT_EXHAUSTED];
      Ok(flag + q.resourceHash + Concat(q.requested))
  }

  function Chunks(tail: Bytes): (ms: seq<Bytes>)
    requires |tail| % 4 == 0
    ensures AllPrints(ms)
    decreases |tail|
  {
    if tail == [] then [] else [tail[..4]] + Chunks(tail[4..])
  }

  function ParseReq(body: Bytes): Result<Request, WireError> {
    if |body| < 33 then Err(TooShort)
    else if body[0] == EXHAUSTED then
      if |body| < 37 then Err(TooShort)
      else if (|body| - 37) % 4 != 0 then Err(BadTail)
      else Ok(Request(true, body[1..5], body[5..37], Chunks(body[37..])))
    else if body[0] == NOT_EXHAUSTED then
      if (|body| - 33) % 4 != 0 then Err(BadTail)
      else Ok(Request(false, [], body[1..33], Chunks(body[33..])))
    else Err(BadFlag)
  }

  lemma {:induction false} ChunksConcat(ms: seq<Bytes>)
    requires AllPrints(ms)
    ensures |Concat(ms)| == 4 * |ms|
    ensures Chunks(Concat(ms)) == ms
  {
    if ms != [] {
      ChunksConcat(ms[1..]);
      var t := Concat(ms);
      assert t[..4] == ms[0] && t[4..] == Concat(ms[1..]);
    }
  }

  lemma {:induction false} ConcatChunks(tail: Bytes)
    requires |tail| % 4 == 0
    ensures Concat(Chunks(tail)) == tail
    decreases |tail|
  {
    if tail != [] {
      ConcatChunks(tail[4..]);
      assert Chunks(tail)[1..] == Chunks(tail[4..]);
    }
  }

  /** Every request that can be built parses back; it is the same request iff a request without the
      exhausted flag carries no last_map_hash. */
  lemma ParseBuildReq(q: Request)
    requires BuildReq(q).Ok?
    ensures ParseReq(BuildReq(q).value) == Ok(q.(lastMapHash := if q.exhausted then q.lastMapHash else []))
  {
    var body := BuildReq(q).value;
    ChunksConcat(q.requested);
    if q.exhausted {
      assert body[1..5] == q.lastMapHash && body[5..37] == q.resourceHash && body[37..] == Concat(q.requested);
    } else {
      assert body[1..33] == q.resourceHash && body[33..] == Concat(q.requested);
    }
  }

  /** Every accepted body is the encoding of the request it parses to. */
  lemma BuildParseReq(body: Bytes)
    requires ParseReq(body).Ok?
    ensures BuildReq(ParseReq(body).value) == Ok(body)
  {
    if body[0] == EXHAUSTED {
      ConcatChunks(body[37..]);
      assert body == [EXHAUSTED] + body[1..5] + body[5..37] + body[37..];
    } else {
      ConcatChunks(body[33..]);
      assert body == [NOT_EXHAUSTED] + body[1..33] + body[33..];
    }
  }

  /** A request on the wire: the flag, the last_map_hash if it is set, the resource and every fingerprint. */
  lemma ReqLayout(q: Request, i: nat)
    requires BuildReq(q).Ok? && i < |q.requested|
    ensures var body, off := BuildReq(q).value, if q.exhausted then 5 else 1;
      && |body| == off + 32 + 4 * |q.requested|
      && body[0] == (if q.exhausted then 0xFF else 0x00) && (q.exhausted ==> body[1..5] == q.lastMapHash)
      && body[off..off + 32] == q.resourceHash
      && body[off + 32 + 4 * i..off + 36 + 4 * i] == q.requested[i]
  {
    var body, off := BuildReq(q).value, if q.exhausted then 5 else 1;
    ChunksConcat(q.requested);
    assert body[off + 32..] == Concat(q.requested);
    PrintSlice(q.requested, i);
    assert body[off + 32 + 4 * i..off + 36 + 4 * i] == body[off + 32..][4 * i..4 * i + 4];
  }

  lemma {:induction false} PrintSlice(ms: seq<Bytes>, i: nat)
    requires i < |ms| && AllPrints(ms)
    ensures |Concat(ms)| == 4 * |ms| && Concat(ms)[4 * i..4 * i + 4] == ms[i]
  {
    ChunksConcat(ms);
    if i > 0 {
      PrintSlice(ms[1..], i - 1);
      assert Concat(ms)[4..] == Concat(ms[1..]);
      assert Concat(ms)[4 * i..4 * i + 4] == Concat(ms)[4..][4 * (i - 1)..4 * (i - 1) + 4];
    }
  }

  /** BuildResourceReq: checks, then an append loop. */
  method BuildResourceReq(q: Request) returns (r: Result<Bytes, WireError>)
    ensures r == BuildReq(q)
  {
    if |q.resourceHash| != 32 { return Err(BadHashLen); }
    if q.exhausted && |q.lastMapHash| != MAP_HASH_LEN { return Err(BadLastMapHash); }
    var out := if q.exhausted then [EXHAUSTED] + q.lastMapHash else [NOT_EXHAUSTED];
    out := out + q.resourceHash;
    ghost var head := out;
    for i := 0 to |q.requested|
      invariant AllPrints(q.requested[..i])
      invariant out == head + Concat(q.requested[..i])
    {
      if |q.requested[i]| != MAP_HASH_LEN { return Err(BadMapHashLen); }
      ConcatSnoc(q.requested[..i], q.requested[i]);
      assert q.requested[..i] + [q.requested[i]] == q.requested[..i + 1];
      out := out + q.requested[i];
    }
    assert q.requested[..|q.requested|] == q.requested;
    return Ok(out);
  }

  lemma {:induction false} ChunksAt(tail: Bytes, k: nat)
    requires |tail| % 4 == 0 && 4 * k < |tail|
    ensures Chunks(tail[4 * k..]) == [tail[4 * k..4 * k + 4]] + Chunks(tail[4 * k + 4..])
  {
    assert tail[4 * k..][..4] == tail[4 * k..4 * k + 4];
    assert tail[4 * k..][4..] == tail[4 * k + 4..];
  }

  method ParseMapHashes(tail: Bytes) returns (requested: seq<Bytes>)
    requires |tail| % 4 == 0
    ensures requested == Chunks(tail)
  {
    requested := [];
    var i := 0;
    while i < |tail|
      invariant 0 <= i <= |tail| && i % 4 == 0
      invariant requested + Chunks(tail[i..]) == Chunks(tail)
    {
      ChunksAt(tail, i / 4);
      ghost var rest := Chunks(tail[i + 4..]);
      assert requested + ([tail[i..i + 4]] + rest) == requested + [tail[i..i + 4]] + rest;
      requested := requested + [tail[i..i + 4]];
      i := i + 4;
    }
    assert tail[i..] == [];
  }

  /** ParseResourceReq: checks, then a loop over 4-byte steps. */
  method ParseResourceReq(body: Bytes) returns (r: Result<Request, WireError>)
    ensures r == ParseReq(body)
  {
    if |body| < 33 { return Err(TooShort); }
    var exhausted, last, off := false, [], 1;
    if body[0] == EXHAUSTED {
      if |body| < 37 { return Err(TooShort); }
      exhausted, last, off := true, body[1..5], 5;
    } else if body[0] != NOT_EXHAUSTED {
      return Err(BadFlag);
    }
    var hash := body[off..off + 32];
    var tail := body[off + 32..];
    if |tail| % 4 != 0 { return Err(BadTail); }
    var requested := ParseMapHashes(tail);
    return Ok(Request(exhausted, last, hash, requested));
  }

  // ---- RESOURCE_HMU, RESOURCE_PRF, cancels ----

  datatype Hmu = Hmu(resourceHash: Bytes, segment: int, hashmap: Bytes)

  /** The field checks shared by BuildResourceHmu and ParseResourceHmu. */
  predicate HmuWellFormed(h: Hmu) {
    |h.resourceHash| == 32 && h.segment >= 1 && |h.hashmap| > 0 && |h.hashmap| % MAP_HASH_LEN == 0
  }

  /** An HMU as ParseResourceHmu hands it on. */
  type ParsedHmu = h: Hmu | HmuWellFormed(h) witness Hmu(Repeat(0, 32), 1, Repeat(0, 4))

  datatype Proof = Proof(resourceHash: Bytes, fullProof: Bytes)

  function BuildProof(p: Proof): Result<Bytes, WireError> {
    if |p.resourceHash| != 32 || |p.fullProof| != 32 then Err(BadProofLen) else Ok(p.resourceHash + p.fullProof)
  }

  function ParseProof(body: Bytes): Result<Proof, WireError> {
    if |body| != 64 then Err(BadProofLen) else Ok(Proof(body[..32], body[32..]))
  }

  /** Proof bodies: building and parsing undo each other. */
  lemma ProofRoundTrip(p: Proof, body: Bytes)
    ensures BuildProof(p).Ok? ==> ParseProof(BuildProof(p).value) == Ok(p)
    ensures ParseProof(body).Ok? ==> BuildProof(ParseProof(body).value) == Ok(body)
  {
    if BuildProof(p).Ok? {
      var b := BuildProof(p).value;
      assert b[..32] == p.resourceHash && b[32..] == p.fullProof;
    }
    if |body| == 64 { assert body[..32] + body[32..] == body; }
  }

  /** The accumulator of the constant-time comparison. */
  function Diff(a: Bytes, b: Bytes): bv8
    requires |a| == |b|
  {
    if a == [] then 0 else Diff(a[..|a| - 1], b[..|b| - 1]) | (a[|a| - 1] ^ b[|b| - 1])
  }

  lemma XorOr(d: bv8, x: bv8, y: bv8)
    ensures d | (x ^ y) == 0 <==> d == 0 && x == y
  {}

  lemma {:induction false} DiffZero(a: Bytes, b: Bytes)
    requires |a| == |b|
    ensures Diff(a, b) == 0 <==> a == b
  {
    if a != [] {
      var n := |a| - 1;
      DiffZero(a[..n], b[..n]);
      XorOr(Diff(a[..n], b[..n]), a[n], b[n]);
      assert a == a[..n] + [a[n]] && b == b[..n] + [b[n]];
    }
  }

  /** proofEqualsConstantTime decides equality although it never branches on the data. */
  method ProofEqualsConstantTime(a: Bytes, b: Bytes) returns (same: bool)
    ensures same <==> a == b
  {
    if |a| != |b| { return false; }
    var diff: bv8 := 0;
    for i := 0 to |a|
      invariant diff == Diff(a[..i], b[..i])
    {
      diff := diff | (a[i] ^ b[i]);
      assert a[..i + 1][..i] == a[..i] && b[..i + 1][..i] == b[..i];
    }
    assert a[..|a|] == a && b[..|b|] == b;
    DiffZero(a, b);
    return diff == 0;
  }

  // ---- everything a transfer puts on the link ----

  datatype Msg =
    | AdvMsg(adv: Adv)
    | ReqMsg(req: Request)
    | PartMsg(part: Bytes)
    | HmuMsg(hmu: ParsedHmu)
    | PrfMsg(proof: Proof)
    | RclMsg(resourceHash: Bytes) // the receiver's refusal or abort

  // ---- RESOURCE_ADV ----

  datatype AdvError = Malformed | TooLarge | TooManyParts

  datatype Adv = Adv(
    transferSize: int, dataSize: int, numParts: int, hash: Bytes, random: Bytes, originalHash: Bytes,
    segmentIndex: int, totalSegments: int, requestId: Option<Bytes>, flags: int, hashmap: Bytes)

  /** PackResourceAdv: check the full advertisement, then put only hashmap segment 0 on the wire. */
  function PackAdv(a: Adv): Result<Adv, AdvError> {
    if |a.hash| != 32 || |a.random| != RANDOM_LEN || |a.originalHash| != 32 then Err(Malformed)
    else if a.numParts <= 0 || |a.hashmap| != 4 * a.numParts then Err(Malformed)
    else if a.segmentIndex <= 0 || a.segmentIndex > a.totalSegments then Err(Malformed)
    else
      var seg0 := if a.numParts > SEGMENT then SEGMENT else a.numParts;
      Ok(a.(hashmap := a.hashmap[..4 * seg0]))
  }

  /** Bit k of the flags word, as two's-complement `&` sees it. */
  predicate FlagSet(flags: int, weight: int)
    requires weight > 0
  {
    (flags / weight) % 2 == 1
  }

  /** ParseResourceAdv, on an already decoded advertisement. */
  function ParseAdv(a: Adv): Result<Adv, AdvError> {
    if |a.hash| != 32 || |a.random| != RANDOM_LEN || |a.originalHash| != 32 then Err(Malformed)
    else if a.numParts <= 0 then Err(Malformed)
    else if a.segmentIndex <= 0 || a.segmentIndex > a.totalSegments || a.totalSegments <= 0 then Err(Malformed)
    else if a.transferSize <= 0 || a.dataSize <= 0 then Err(Malformed)
    else if |a.hashmap| != 4 * a.numParts
            && (|a.hashmap| == 0 || |a.hashmap| > 4 * a.numParts || |a.hashmap| % MAP_HASH_LEN != 0) then Err(Malformed)
    else if a.requestId.Some? && |a.requestId.value| != 16 then Err(Malformed)
    else if a.totalSegments > 1 then Err(TooLarge)
    else if a.transferSize > MAX_SIZE || a.dataSize > MAX_SIZE then Err(TooLarge)
    else if a.numParts > MAX_PARTS then Err(TooManyParts)
    else if FlagSet(a.flags, 2) then Err(TooLarge)
    else if FlagSet(a.flags, 32) then Err(Malformed)
    else Ok(a)
  }

  /** Segment 0 of a full hashmap is what survives the trip: its first min(n, SEGMENT) fingerprints. */
  lemma AdvRoundTrip(a: Adv)
    requires PackAdv(a).Ok? && a.totalSegments == 1 && a.requestId.None? && a.flags == 1
    requires 0 < a.transferSize <= MAX_SIZE && 0 < a.dataSize <= MAX_SIZE && a.numParts <= MAX_PARTS
    ensures ParseAdv(PackAdv(a).value) ==
      Ok(a.(hashmap := a.hashmap[..4 * (if a.numParts > SEGMENT then SEGMENT else a.numParts)]))
  {}

  /** What a receiver takes on, and as sent: a whole, uncompressed, single-segment resource without metadata,
      within the caps, whose first fingerprints come with it. */
  lemma AdvAcceptedIff(a: Adv)
    ensures ParseAdv(a) == Ok(a) <==>
      && |a.hash| == 32 && |a.random| == 4 && |a.originalHash| == 32
      && 1 <= a.numParts <= MAX_PARTS && 0 < |a.hashmap| <= 4 * a.numParts && |a.hashmap| % 4 == 0
      && a.segmentIndex == a.totalSegments == 1
      && 0 < a.transferSize <= 1056767 && 0 < a.dataSize <= 1056767
      && (a.requestId.Some? ==> |a.requestId.value| == 16)
      && !FlagSet(a.flags, 2) && !FlagSet(a.flags, 32)
    ensures ParseAdv(a).Ok? ==> ParseAdv(a) == Ok(a)
  {
  }
}
