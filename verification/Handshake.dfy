/** The two-packet link handshake: LINKREQUEST, LRPROOF, and the session keys both ends derive. */
module Handshake {
  import opened Octets
  import opened Header = Packet

  const REQUEST_LEN := 64
  const PROOF_LEN := 96
  const SIGNALLING_LEN := 3

  /** MTU (21 bits) and link mode (3 bits). */
  datatype Signalling = Signalling(mtu: bv32, mode: bv8)

  type Signature = s: Bytes | |s| == 64 witness seq(64, _ => 0)
  type Derived = s: Bytes | |s| == 64 witness seq(64, _ => 0)

  /** X25519 (failing on a low-order point), HKDF and Ed25519. */
  datatype Curve = Curve(
    base: Bytes,
    dh: (Bytes, Bytes) -> Option<Bytes>,    // private, public
    hkdf: (Bytes, Bytes) -> Derived,        // secret, salt
    sign: (Bytes, Bytes) -> Signature,      // private, message
    validate: (Bytes, Bytes, Bytes) -> bool // public, message, signature
  )

  datatype LinkError =
    BadKey | BadDest | NotLinkRequest | BadRequestLength | NotLRProof | NotLinkDest | BadProofLength
    | BadSignature | BadSignalling | NoSharedSecret | Unpackable(e: PacketError) | WrongLink

  // ---- signalling ----

  function Top(mode: bv8): bv32 {
    ((mode << 5) as bv32) & 0xE0
  }

  function Value(s: Signalling): bv32 {
    (s.mtu & 0x1FFFFF) | (Top(s.mode) << 16)
  }

  function Encode(s: Signalling): (b: Bytes)
    ensures |b| == SIGNALLING_LEN
  {
    var v := Value(s);
    [((v >> 16) & 0xFF) as bv8, ((v >> 8) & 0xFF) as bv8, (v & 0xFF) as bv8]
  }

  function Joined(b: Bytes): bv32
    requires |b| == SIGNALLING_LEN
  {
    ((b[0] as bv32) << 16) | ((b[1] as bv32) << 8) | (b[2] as bv32)
  }

  function OfValue(v: bv32): Signalling {
    Signalling(v & 0x1FFFFF, (((v >> 16) >> 5) & 0xFF) as bv8)
  }

  function Decode(b: Bytes): Result<Signalling, LinkError> {
    if |b| != SIGNALLING_LEN then Err(BadSignalling) else Ok(OfValue(Joined(b)))
  }

  predicate InRange(s: Signalling) {
    s.mtu <= 0x1FFFFF && s.mode <= 7
  }

  lemma JoinSplit(v: bv32)
    requires v <= 0xFFFFFF
    ensures Joined([((v >> 16) & 0xFF) as bv8, ((v >> 8) & 0xFF) as bv8, (v & 0xFF) as bv8]) == v
  {
  }

  lemma ValueMtu(mtu: bv32, top: bv32)
    requires top <= 0xE0 && top & 0x1F == 0
    ensures ((mtu & 0x1FFFFF) | (top << 16)) & 0x1FFFFF == mtu & 0x1FFFFF
    ensures (mtu & 0x1FFFFF) | (top << 16) <= 0xFFFFFF
  {
  }

  lemma ValueTop(mtu: bv32, top: bv32)
    requires top <= 0xE0 && top & 0x1F == 0
    ensures (((mtu & 0x1FFFFF) | (top << 16)) >> 16) >> 5 == top >> 5
  {
  }

  lemma ModeBits(mode: bv8)
    ensures Top(mode) <= 0xE0 && Top(mode) & 0x1F == 0 && ((Top(mode) >> 5) & 0xFF) as bv8 == mode & 0x07
  {
  }

  lemma ValueBits(mtu: bv32, mode: bv8, top: bv32, v: bv32)
    requires top == Top(mode) && v == (mtu & 0x1FFFFF) | (top << 16)
    ensures v & 0x1FFFFF == mtu & 0x1FFFFF && v <= 0xFFFFFF
    ensures (((v >> 16) >> 5) & 0xFF) as bv8 == mode & 0x07
  {
    ModeBits(mode);
    ValueMtu(mtu, top);
    ValueTop(mtu, top);
  }

  lemma OfValueValue(s: Signalling)
    ensures OfValue(Value(s)) == Signalling(s.mtu & 0x1FFFFF, s.mode & 0x07) && Value(s) <= 0xFFFFFF
  {
    ValueBits(s.mtu, s.mode, Top(s.mode), Value(s));
  }

  lemma JoinedEncode(s: Signalling)
    requires Value(s) <= 0xFFFFFF
    ensures Joined(Encode(s)) == Value(s)
  {
    JoinSplit(Value(s));
  }

  lemma MaskKeeps(s: Signalling)
    ensures Signalling(s.mtu & 0x1FFFFF, s.mode & 0x07) == s <==> InRange(s)
  {
  }

  /** Decoding gives back the signalling cut to its bits, so exactly when it fits them. */
  lemma DecodeEncode(s: Signalling)
    ensures Decode(Encode(s)) == Ok(Signalling(s.mtu & 0x1FFFFF, s.mode & 0x07))
    ensures Decode(Encode(s)) == Ok(s) <==> InRange(s)
  {
    OfValueValue(s);
    JoinedEncode(s);
    MaskKeeps(s);
  }

  lemma SplitJoin(b: Bytes)
    requires |b| == SIGNALLING_LEN
    ensures var v := Joined(b);
      v <= 0xFFFFFF && [((v >> 16) & 0xFF) as bv8, ((v >> 8) & 0xFF) as bv8, (v & 0xFF) as bv8] == b
  {
  }

  lemma ValueOfBits(v: bv32)
    requires v <= 0xFFFFFF
    ensures Value(OfValue(v)) == v
  {
  }

  /** Any three octets are what their decoding encodes to, so what was signed is what is rebuilt. */
  lemma EncodeDecode(b: Bytes)
    requires |b| == SIGNALLING_LEN
    ensures Decode(b).Ok? && InRange(Decode(b).value) && Encode(Decode(b).value) == b
  {
    SplitJoin(b);
    ValueOfBits(Joined(b));
    DecodeEncode(Decode(b).value);
  }

  // ---- LINKREQUEST ----

  function Trailer(sig: Option<Signalling>): (b: Bytes)
    ensures |b| == if sig.Some? then SIGNALLING_LEN else 0
  {
    match sig case Some(s) => Encode(s) case None => []
  }

  function BuildLinkRequest(x: Bytes, ed: Bytes, dest: Bytes, sig: Option<Signalling>): Result<Packet, LinkError> {
    if |x| != 32 || |ed| != 32 then Err(BadKey)
    else if |dest| != ADDRESS_LEN then Err(BadDest)
    else
      Ok(Header.Packet.Packet(HEADER_1, false, BROADCAST, DEST_SINGLE, LINK_REQUEST, 0, [], dest, CONTEXT_NONE,
                              x + ed + Trailer(sig)))
  }

  datatype Request = Request(x: Bytes, ed: Bytes, sig: Option<Signalling>)

  function DecodeTrailer(b: Bytes): Result<Option<Signalling>, LinkError> {
    if b == [] then Ok(None)
    else match Decode(b) case Ok(s) => Ok(Some(s)) case Err(e) => Err(e)
  }

  function ParseLinkRequest(p: Packet): Result<Request, LinkError> {
    if p.packetType != LINK_REQUEST then Err(NotLinkRequest)
    else if |p.data| == REQUEST_LEN || |p.data| == REQUEST_LEN + SIGNALLING_LEN then
      match DecodeTrailer(p.data[64..])
      case Ok(sig) => Ok(Request(p.data[..32], p.data[32..64], sig))
      case Err(e) => Err(e)
    else Err(BadRequestLength)
  }

  /** The hash of the request without its signalling trailer, cut to 16 octets. */
  function LinkID(c: Primitives, p: Packet): Result<Bytes, LinkError> {
    if p.packetType != LINK_REQUEST then Err(NotLinkRequest)
    else
      match HashablePart(p)
      case Err(e) => Err(Unpackable(e))
      case Ok(h) =>
        var signalled := |p.data| > REQUEST_LEN && |h| >= SIGNALLING_LEN;
        Ok(c.sha(if signalled then h[..|h| - SIGNALLING_LEN] else h)[..ADDRESS_LEN])
  }

  function DeriveLinkSessionKeys(k: Curve, mine: Bytes, theirs: Bytes, linkId: Bytes)
    : Result<(Bytes, Bytes), LinkError>
  {
    if |mine| != 32 || |theirs| != 32 || |linkId| != ADDRESS_LEN then Err(BadKey)
    else
      match k.dh(mine, theirs)
      case None => Err(NoSharedSecret)
      case Some(z) => Ok((k.hkdf(z, linkId)[..32], k.hkdf(z, linkId)[32..]))
  }

  // ---- LRPROOF ----

  function SignedData(linkId: Bytes, x: Bytes, ed: Bytes, sig: Option<Signalling>): Bytes {
    linkId + x + ed + Trailer(sig)
  }

  function BuildLRProof(k: Curve, edPriv: Bytes, edPub: Bytes, linkId: Bytes, x: Bytes,
                        sig: Option<Signalling>): Result<Packet, LinkError> {
    if |linkId| != ADDRESS_LEN || |x| != 32 then Err(BadKey)
    else
      Ok(Header.Packet.Packet(HEADER_1, false, BROADCAST, DEST_LINK, PROOF, 0, [], linkId, CONTEXT_LRPROOF,
                       k.sign(edPriv, SignedData(linkId, x, edPub, sig)) + x + Trailer(sig)))
  }

  datatype LRProof = LRProof(linkId: Bytes, signature: Bytes, x: Bytes, sig: Option<Signalling>)

  function ParseLRProof(p: Packet): Result<LRProof, LinkError> {
    if p.packetType != PROOF || p.context != CONTEXT_LRPROOF then Err(NotLRProof)
    else if p.destType != DEST_LINK then Err(NotLinkDest)
    else if |p.data| == PROOF_LEN || |p.data| == PROOF_LEN + SIGNALLING_LEN then
      match DecodeTrailer(p.data[96..])
      case Ok(sig) => Ok(LRProof(p.destHash, p.data[..64], p.data[64..96], sig))
      case Err(e) => Err(e)
    else Err(BadProofLength)
  }

  function Verify(k: Curve, lr: LRProof, ed: Bytes): bool {
    |ed| == 32 && k.validate(ed, SignedData(lr.linkId, lr.x, ed, lr.sig), lr.signature)
  }

  // ---- the two ends ----

  function PublicOf(k: Curve, priv: Bytes): Option<Bytes> {
    k.dh(priv, k.base)
  }

  datatype Accepted = Accepted(linkId: Bytes, keys: (Bytes, Bytes), proof: Packet)

  /** The responder: derive keys with a new private key and sign, mirroring the signalling unless told otherwise. */
  function Accept(c: Primitives, k: Curve, req: Packet, edPriv: Bytes, edPub: Bytes, priv: Bytes,
                  sig: Option<Signalling>): Result<Accepted, LinkError> {
    match ParseLinkRequest(req)
    case Err(e) => Err(e)
    case Ok(r) =>
      match LinkID(c, req)
      case Err(e) => Err(e)
      case Ok(id) =>
        match PublicOf(k, priv)
        case None => Err(NoSharedSecret)
        case Some(x) =>
          match DeriveLinkSessionKeys(k, priv, r.x, id)
          case Err(e) => Err(e)
          case Ok(keys) =>
            match BuildLRProof(k, edPriv, edPub, id, x, if sig.None? then r.sig else sig)
            case Err(e) => Err(e)
            case Ok(proof) => Ok(Accepted(id, keys, proof))
  }

  /** The initiator, holding a pending link: check the proof and derive the keys. */
  function Complete(k: Curve, linkId: Bytes, priv: Bytes, proof: Packet, ed: Bytes): Result<(Bytes, Bytes), LinkError> {
    match ParseLRProof(proof)
    case Err(e) => Err(e)
    case Ok(lr) =>
      if !Verify(k, lr, ed) then Err(BadSignature)
      else if lr.linkId != linkId then Err(WrongLink)
      else DeriveLinkSessionKeys(k, priv, lr.x, lr.linkId)
  }

  /** What the responder answers: exactly a LINKREQUEST of 64 or 67 octets that packs, when its own key has a
      public half of 32 octets and the exchange with the request's X25519 key succeeds. */
  lemma AcceptsIff(c: Primitives, k: Curve, req: Packet, edPriv: Bytes, edPub: Bytes, priv: Bytes,
                   sig: Option<Signalling>)
    ensures Accept(c, k, req, edPriv, edPub, priv, sig).Ok? <==>
      && req.packetType == LINK_REQUEST && |req.data| in {64, 67} && Pack(req).Ok?
      && |priv| == 32 && PublicOf(k, priv).Some? && |PublicOf(k, priv).value| == 32
      && k.dh(priv, req.data[..32]).Some?
  {
    if |req.data| == 67 { EncodeDecode(req.data[64..]); }
  }

  // ---- forgeries ----

  /** The packet is an LRPROOF whose signature, its first 64 octets, is one the key accepts over the link_id,
      the responder's X25519 key, the key itself and whatever signalling octets follow. */
  predicate SignedBy(k: Curve, p: Packet, ed: Bytes) {
    && p.packetType == PROOF && p.context == CONTEXT_LRPROOF && p.destType == DEST_LINK
    && |p.data| in {96, 99} && |ed| == 32
    && k.validate(ed, p.destHash + p.data[64..96] + ed + p.data[96..], p.data[..64])
  }

  /** What parsing and verifying accept, told from the packet's own octets. */
  lemma AcceptedIffSigned(k: Curve, p: Packet, ed: Bytes)
    ensures ParseLRProof(p).Ok? && Verify(k, ParseLRProof(p).value, ed) <==> SignedBy(k, p, ed)
    ensures SignedBy(k, p, ed) ==>
      ParseLRProof(p).value.linkId == p.destHash && ParseLRProof(p).value.x == p.data[64..96]
  {
    if ParseLRProof(p).Ok? {
      var lr := ParseLRProof(p).value;
      if |p.data| == 99 { EncodeDecode(p.data[96..]); }
      assert Trailer(lr.sig) == p.data[96..];
      assert SignedData(lr.linkId, lr.x, ed, lr.sig) == p.destHash + p.data[64..96] + ed + p.data[96..];
    } else if |p.data| == 99 {
      EncodeDecode(p.data[96..]);
    }
  }

  /** The key exchange with the proof's X25519 key succeeds. */
  predicate Exchanges(k: Curve, priv: Bytes, p: Packet) {
    |p.data| >= 96 && |priv| == 32 && |p.destHash| == ADDRESS_LEN && k.dh(priv, p.data[64..96]).Some?
  }

  /** A proof completes a pending link exactly when it is for that link, its signature is the responder's and
      the exchange succeeds: a forged, altered or misdirected one is refused, and the keys are those of the
      signed X25519 key. */
  lemma CompletesIffSigned(k: Curve, linkId: Bytes, priv: Bytes, p: Packet, ed: Bytes)
    ensures Complete(k, linkId, priv, p, ed).Ok? <==>
      SignedBy(k, p, ed) && p.destHash == linkId && Exchanges(k, priv, p)
    ensures Complete(k, linkId, priv, p, ed).Ok? ==>
      var m := k.hkdf(k.dh(priv, p.data[64..96]).value, linkId);
      Complete(k, linkId, priv, p, ed).value == (m[..32], m[32..])
  {
    AcceptedIffSigned(k, p, ed);
  }

  // ---- agreement ----

  /** q is p as it may arrive: relays may change the header type, hops, flags and transport_id,
      nothing that is hashed. */
  ghost predicate Arrives(p: Packet, q: Packet) {
    Pack(p).Ok? && Canonical(q) && HashablePart(q) == HashablePart(p)
  }

  /** Promotion to HEADER_2 with any hop count, packed and parsed, is such a change. */
  lemma RoutedArrives(p: Packet, transportId: Bytes, hops: bv8)
    requires Pack(p).Ok?
    ensures var wire := Pack(ApplyMultihopRouting(p, transportId).(hops := hops));
      wire.Ok? && ParsePacket(wire.value).Ok? && Arrives(p, ParsePacket(wire.value).value)
  {
    RoutingKeepsHash(p, transportId, hops);
    PackParse(Pack(ApplyMultihopRouting(p, transportId).(hops := hops)).value);
  }

  lemma ArrivesSame(p: Packet, q: Packet)
    requires Arrives(p, q) && p.destType <= 3 && p.packetType <= 3
    ensures q.destType == p.destType && q.packetType == p.packetType && q.destHash == p.destHash
    ensures q.context == p.context && q.data == p.data
  {
    HashableIdentity(p, q);
    SmallMask(p.destType);
    SmallMask(p.packetType);
  }

  lemma SmallMask(b: bv8)
    requires b <= 3
    ensures b & 0x03 == b
  {
  }

  lemma TrailerRoundTrip(sig: Option<Signalling>)
    ensures DecodeTrailer(Trailer(sig)).Ok? && Trailer(DecodeTrailer(Trailer(sig)).value) == Trailer(sig)
  {
    if sig.Some? { EncodeDecode(Encode(sig.value)); }
  }

  /** What the responder reads, and the id it computes: the id depends on the keys and the destination alone. */
  lemma RequestArrives(c: Primitives, x: Bytes, ed: Bytes, dest: Bytes, sig: Option<Signalling>, q: Packet)
    requires |x| == 32 && |ed| == 32 && |dest| == ADDRESS_LEN
    requires Arrives(BuildLinkRequest(x, ed, dest, sig).value, q)
    ensures ParseLinkRequest(q) == Ok(Request(x, ed, DecodeTrailer(Trailer(sig)).value))
    ensures LinkID(c, q) == Ok(c.sha([0x02] + dest + [CONTEXT_NONE] + x + ed)[..ADDRESS_LEN])
  {
    var p := BuildLinkRequest(x, ed, dest, sig).value;
    ArrivesSame(p, q);
    TrailerRoundTrip(sig);
    Pieces(x, ed, Trailer(sig));
    HashableShape(q);
    assert ((q.destType & 0x03) << 2) | (q.packetType & 0x03) == 0x02;
    RequestHashed(x, ed, dest, sig, HashablePart(q).value);
  }

  lemma Pieces(x: Bytes, ed: Bytes, trailer: Bytes)
    requires |x| == 32 && |ed| == 32
    ensures var data := x + ed + trailer; data[..32] == x && data[32..64] == ed && data[64..] == trailer
  {
  }

  lemma RequestHashed(x: Bytes, ed: Bytes, dest: Bytes, sig: Option<Signalling>, h: Bytes)
    requires |x| == 32 && |ed| == 32 && |dest| == ADDRESS_LEN
    requires h == [0x02] + dest + [CONTEXT_NONE] + (x + ed + Trailer(sig))
    ensures (if sig.Some? then h[..|h| - SIGNALLING_LEN] else h) == [0x02] + dest + [CONTEXT_NONE] + x + ed
  {
    assert h == [0x02] + dest + [CONTEXT_NONE] + x + ed + Trailer(sig);
  }

  lemma ProofArrives(k: Curve, edPriv: Bytes, edPub: Bytes, linkId: Bytes, x: Bytes, sig: Option<Signalling>, q: Packet)
    requires |linkId| == ADDRESS_LEN && |x| == 32
    requires Arrives(BuildLRProof(k, edPriv, edPub, linkId, x, sig).value, q)
    ensures var signed := SignedData(linkId, x, edPub, sig);
      ParseLRProof(q) == Ok(LRProof(linkId, k.sign(edPriv, signed), x, DecodeTrailer(Trailer(sig)).value))
    ensures SignedData(linkId, x, edPub, DecodeTrailer(Trailer(sig)).value) == SignedData(linkId, x, edPub, sig)
  {
    var p := BuildLRProof(k, edPriv, edPub, linkId, x, sig).value;
    ArrivesSame(p, q);
    TrailerRoundTrip(sig);
    var signature := k.sign(edPriv, SignedData(linkId, x, edPub, sig));
    assert q.data[..64] == signature && q.data[64..96] == x && q.data[96..] == Trailer(sig);
  }

  /** Key exchange commutes: each side's secret with the other's public half is one value. */
  predicate Commutes(k: Curve, a: Bytes, b: Bytes) {
    && PublicOf(k, a).Some? && PublicOf(k, b).Some? && |PublicOf(k, a).value| == 32 && |PublicOf(k, b).value| == 32
    && k.dh(a, PublicOf(k, b).value) == k.dh(b, PublicOf(k, a).value)
    && k.dh(a, PublicOf(k, b).value).Some?
  }

  /** Handshake agreement. For every request, signalled or not, however relays rewrote the headers of
      both packets, and whether the responder mirrors the signalling or overrides it: the responder
      accepts, both ends hold one link_id, and the initiator accepts the proof and derives the
      responder's session keys. */
  lemma HandshakeAgreement(c: Primitives, k: Curve,
                           a: Bytes, ed: Bytes, dest: Bytes, sig: Option<Signalling>, req': Packet,
                           edPriv: Bytes, edPub: Bytes, b: Bytes, override: Option<Signalling>, proof': Packet)
    requires |a| == 32 && |b| == 32 && Commutes(k, a, b) && |ed| == 32 && |edPub| == 32 && |dest| == ADDRESS_LEN
    requires forall msg :: k.validate(edPub, msg, k.sign(edPriv, msg))
    requires Arrives(BuildLinkRequest(PublicOf(k, a).value, ed, dest, sig).value, req')
    ensures var req := BuildLinkRequest(PublicOf(k, a).value, ed, dest, sig).value;
      var r := Accept(c, k, req', edPriv, edPub, b, override);
      && r.Ok? && LinkID(c, req) == Ok(r.value.linkId)
      && (Arrives(r.value.proof, proof') ==> Complete(k, r.value.linkId, a, proof', edPub) == Ok(r.value.keys))
  {
    var xa, xb := PublicOf(k, a).value, PublicOf(k, b).value;
    var req := BuildLinkRequest(xa, ed, dest, sig).value;
    assert Arrives(req, req) by { SmallMask(req.destType); SmallMask(req.packetType); }
    RequestArrives(c, xa, ed, dest, sig, req);
    RequestArrives(c, xa, ed, dest, sig, req');
    var r := Accept(c, k, req', edPriv, edPub, b, override);
    var sent := if override.None? then DecodeTrailer(Trailer(sig)).value else override;
    assert r.Ok? && r.value.proof == BuildLRProof(k, edPriv, edPub, r.value.linkId, xb, sent).value;
    if Arrives(r.value.proof, proof') {
      ProofArrives(k, edPriv, edPub, r.value.linkId, xb, sent, proof');
    }
  }

  /** The answers to copies of one request, each with a new private key; the responder lists the last. */
  function Answers(c: Primitives, k: Curve, copies: seq<Packet>, edPriv: Bytes, edPub: Bytes, privs: seq<Bytes>,
                   override: Option<Signalling>): seq<Result<Accepted, LinkError>>
    requires |privs| == |copies|
  {
    seq(|copies|, i requires 0 <= i < |copies| => Accept(c, k, copies[i], edPriv, edPub, privs[i], override))
  }

  /** What both session keys are cut from. */
  function Material(k: Curve, a: Bytes, b: Bytes, linkId: Bytes): Derived
    requires Commutes(k, a, b)
  {
    k.hkdf(k.dh(a, PublicOf(k, b).value).value, linkId)
  }

  lemma AcceptedKeys(c: Primitives, k: Curve, a: Bytes, ed: Bytes, dest: Bytes, sig: Option<Signalling>, copy: Packet,
                     edPriv: Bytes, edPub: Bytes, b: Bytes, override: Option<Signalling>)
    requires |a| == 32 && |b| == 32 && Commutes(k, a, b) && |ed| == 32 && |dest| == ADDRESS_LEN
    requires Arrives(BuildLinkRequest(PublicOf(k, a).value, ed, dest, sig).value, copy)
    ensures var r := Accept(c, k, copy, edPriv, edPub, b, override);
      r.Ok? && var m := Material(k, a, b, r.value.linkId); r.value.keys == (m[..32], m[32..])
  {
    RequestArrives(c, PublicOf(k, a).value, ed, dest, sig, copy);
  }

  lemma HalvesDecide(m: Derived, n: Derived)
    ensures m == n <==> m[..32] == n[..32] && m[32..] == n[32..]
  {
    assert m == m[..32] + m[32..] && n == n[..32] + n[32..];
  }

  lemma TwoAnswersAgreeIff(c: Primitives, k: Curve, a: Bytes, ed: Bytes, dest: Bytes, sig: Option<Signalling>,
                           copy: Packet, copy': Packet, edPriv: Bytes, edPub: Bytes, b: Bytes, b': Bytes,
                           override: Option<Signalling>, proof': Packet)
    requires |a| == 32 && |ed| == 32 && |edPub| == 32 && |dest| == ADDRESS_LEN && |b| == 32 && |b'| == 32
    requires forall msg :: k.validate(edPub, msg, k.sign(edPriv, msg))
    requires Commutes(k, a, b) && Commutes(k, a, b')
    requires Arrives(BuildLinkRequest(PublicOf(k, a).value, ed, dest, sig).value, copy)
    requires Arrives(BuildLinkRequest(PublicOf(k, a).value, ed, dest, sig).value, copy')
    ensures var id := LinkID(c, BuildLinkRequest(PublicOf(k, a).value, ed, dest, sig).value);
      var r, r' := Accept(c, k, copy, edPriv, edPub, b, override), Accept(c, k, copy', edPriv, edPub, b', override);
      && r.Ok? && r'.Ok? && id == Ok(r.value.linkId) == Ok(r'.value.linkId)
      && (Arrives(r.value.proof, proof') ==>
        && Complete(k, id.value, a, proof', edPub) == Ok(r.value.keys)
        && (r.value.keys == r'.value.keys <==> Material(k, a, b, id.value) == Material(k, a, b', id.value)))
  {
    HandshakeAgreement(c, k, a, ed, dest, sig, copy, edPriv, edPub, b, override, proof');
    HandshakeAgreement(c, k, a, ed, dest, sig, copy', edPriv, edPub, b', override, proof');
    AcceptedKeys(c, k, a, ed, dest, sig, copy, edPriv, edPub, b, override);
    AcceptedKeys(c, k, a, ed, dest, sig, copy', edPriv, edPub, b', override);
    var id := LinkID(c, BuildLinkRequest(PublicOf(k, a).value, ed, dest, sig).value).value;
    HalvesDecide(Material(k, a, b, id), Material(k, a, b', id));
  }

  /** A request that arrives several times: every copy is accepted under one link_id, the initiator that
      completes on the proof for copy i holds the keys of that answer, and these are the keys of the link
      the responder lists in the end exactly when both answers' secrets derive to the same octets. */
  lemma RepeatedRequestAgreesIff(c: Primitives, k: Curve, a: Bytes, ed: Bytes, dest: Bytes, sig: Option<Signalling>,
                                 copies: seq<Packet>, edPriv: Bytes, edPub: Bytes, privs: seq<Bytes>,
                                 override: Option<Signalling>, i: nat, proof': Packet)
    requires |a| == 32 && |ed| == 32 && |edPub| == 32 && |dest| == ADDRESS_LEN && i < |copies| == |privs|
    requires forall msg :: k.validate(edPub, msg, k.sign(edPriv, msg))
    requires forall j :: 0 <= j < |privs| ==> |privs[j]| == 32 && Commutes(k, a, privs[j])
    requires PublicOf(k, a).Some? && |PublicOf(k, a).value| == 32
    requires forall j :: 0 <= j < |copies| ==>
      Arrives(BuildLinkRequest(PublicOf(k, a).value, ed, dest, sig).value, copies[j])
    ensures var id := LinkID(c, BuildLinkRequest(PublicOf(k, a).value, ed, dest, sig).value);
      var answers := Answers(c, k, copies, edPriv, edPub, privs, override);
      var listed := answers[|answers| - 1];
      && id.Ok? && (forall j :: 0 <= j < |answers| ==> answers[j].Ok? && answers[j].value.linkId == id.value)
      && (Arrives(answers[i].value.proof, proof') ==>
        && Complete(k, id.value, a, proof', edPub) == Ok(answers[i].value.keys)
        && (Complete(k, id.value, a, proof', edPub) == Ok(listed.value.keys) <==>
            Material(k, a, privs[i], id.value) == Material(k, a, privs[|privs| - 1], id.value)))
  {
    var answers, last := Answers(c, k, copies, edPriv, edPub, privs, override), |privs| - 1;
    var id := LinkID(c, BuildLinkRequest(PublicOf(k, a).value, ed, dest, sig).value);
    forall j | 0 <= j < |answers| ensures answers[j].Ok? && id == Ok(answers[j].value.linkId) {
      assert Commutes(k, a, privs[j]);
      TwoAnswersAgreeIff(c, k, a, ed, dest, sig, copies[j], copies[j], edPriv, edPub, privs[j], privs[j], override,
                         proof');
    }
    assert Commutes(k, a, privs[i]) && Commutes(k, a, privs[last]);
    TwoAnswersAgreeIff(c, k, a, ed, dest, sig, copies[i], copies[last], edPriv, edPub, privs[i], privs[last], override,
                       proof');
  }

  /** The signature covers every field: two proofs sign one string only if they agree on the link, the
      key, the signer and the signalling octets. */
  lemma SignedDataCovers(id: Bytes, x: Bytes, ed: Bytes, sig: Option<Signalling>, id': Bytes, x': Bytes, ed': Bytes,
                         sig': Option<Signalling>)
    requires |id| == |id'| == ADDRESS_LEN && |x| == |x'| == |ed| == |ed'| == 32
    ensures SignedData(id, x, ed, sig) == SignedData(id', x', ed', sig') <==>
      id == id' && x == x' && ed == ed' && Trailer(sig) == Trailer(sig')
  {
    var s, s' := SignedData(id, x, ed, sig), SignedData(id', x', ed', sig');
    assert s[..16] == id && s[16..48] == x && s[48..80] == ed && s[80..] == Trailer(sig);
    assert s'[..16] == id' && s'[16..48] == x' && s'[48..80] == ed' && s'[80..] == Trailer(sig');
  }

  /** What goes on the wire. A request: a broadcast to a single destination, both keys and the signalling. */
  lemma RequestWire(x: Bytes, ed: Bytes, dest: Bytes, sig: Option<Signalling>)
    ensures BuildLinkRequest(x, ed, dest, sig).Ok? <==> |x| == 32 && |ed| == 32 && |dest| == 16
    ensures BuildLinkRequest(x, ed, dest, sig).Ok? ==>
      Pack(BuildLinkRequest(x, ed, dest, sig).value) == Ok([0x02, 0] + dest + [0x00] + x + ed + Trailer(sig))
  {
    if BuildLinkRequest(x, ed, dest, sig).Ok? {
      assert PackFlags(BuildLinkRequest(x, ed, dest, sig).value) == 0x02;
      assert [0x02, 0] + dest + [0x00] + (x + ed + Trailer(sig)) == [0x02, 0] + dest + [0x00] + x + ed + Trailer(sig);
    }
  }

  /** A proof: a broadcast to the link, the signature over all that is signed, the X25519 key, the signalling. */
  lemma ProofWire(k: Curve, edPriv: Bytes, edPub: Bytes, linkId: Bytes, x: Bytes, sig: Option<Signalling>)
    ensures BuildLRProof(k, edPriv, edPub, linkId, x, sig).Ok? <==> |linkId| == 16 && |x| == 32
    ensures BuildLRProof(k, edPriv, edPub, linkId, x, sig).Ok? ==>
      Pack(BuildLRProof(k, edPriv, edPub, linkId, x, sig).value) ==
      Ok([0x0F, 0] + linkId + [0xFF] + k.sign(edPriv, linkId + x + edPub + Trailer(sig)) + x + Trailer(sig))
  {
    if BuildLRProof(k, edPriv, edPub, linkId, x, sig).Ok? {
      assert PackFlags(BuildLRProof(k, edPriv, edPub, linkId, x, sig).value) == 0x0F;
      var head, s := [0x0F, 0] + linkId + [0xFF], k.sign(edPriv, linkId + x + edPub + Trailer(sig));
      assert head + (s + x + Trailer(sig)) == head + s + x + Trailer(sig);
    }
  }
}
