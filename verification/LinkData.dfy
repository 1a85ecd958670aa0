/** Link DATA packets and the proofs that acknowledge them, and the size limits they obey. */
module LinkData {
  import opened Octets
  import Token
  import opened Header = Packet
  import opened Handshake
  import ResourceHash

  const EXPLICIT_PROOF_LEN := 96
  const CONTEXT_RESOURCE: bv8 := 0x01

  datatype DataError = BadLinkId | NotData | NotToLink | WrongContext | NotProof | WrongLength | BadPeerKey
    | InvalidProof | BadToken(e: Token.TokenError) | NotPackable(p: PacketError)

  /** buildResourceCtxPacket and BuildLinkDataPacket's packet: addressed to the link, never promoted by us. */
  function LinkPacket(linkId: Bytes, packetType: bv8, context: bv8, data: Bytes): Packet {
    Header.Packet.Packet(HEADER_1, false, BROADCAST, DEST_LINK, packetType, 0, [], linkId, context, data)
  }

  function BuildLinkDataPacket(c: Primitives, linkId: Bytes, signing: Bytes, encryption: Bytes, plaintext: Bytes,
                               iv: Bytes): Result<Packet, DataError> {
    if |linkId| != ADDRESS_LEN then Err(BadLinkId)
    else
      match Token.LinkEncrypt(c, plaintext, signing, encryption, iv)
      case Err(e) => Err(BadToken(e))
      case Ok(t) => Ok(LinkPacket(linkId, DATA, CONTEXT_NONE, t))
  }

  function ParseLinkDataPacket(c: Primitives, p: Packet, signing: Bytes, encryption: Bytes): Result<Bytes, DataError> {
    if p.packetType != DATA then Err(NotData)
    else if p.destType != DEST_LINK then Err(NotToLink)
    else if p.context != CONTEXT_NONE then Err(WrongContext)
    else match Token.LinkDecrypt(c, p.data, signing, encryption) case Ok(m) => Ok(m) case Err(e) => Err(BadToken(e))
  }

  function PacketHash(c: Primitives, p: Packet): Result<Bytes, DataError> {
    match HashablePart(p) case Ok(h) => Ok(c.sha(h)) case Err(e) => Err(NotPackable(e))
  }

  function BuildLinkProof(c: Primitives, linkId: Bytes, sign: Bytes -> Signature, original: Packet)
    : Result<Packet, DataError>
  {
    if |linkId| != ADDRESS_LEN then Err(BadLinkId)
    else
      match PacketHash(c, original)
      case Err(e) => Err(e)
      case Ok(digest) => Ok(LinkPacket(linkId, PROOF, CONTEXT_NONE, digest + sign(digest)))
  }

  function ValidateLinkProof(k: Curve, p: Packet, ed: Bytes): Result<Bytes, DataError> {
    if p.packetType != PROOF then Err(NotProof)
    else if p.destType != DEST_LINK then Err(NotToLink)
    else if p.context != CONTEXT_NONE then Err(WrongContext)
    else if |p.data| != EXPLICIT_PROOF_LEN then Err(WrongLength)
    else if |ed| != 32 then Err(BadPeerKey)
    else if !k.validate(ed, p.data[..32], p.data[32..]) then Err(InvalidProof)
    else Ok(p.data[..32])
  }

  /** An acknowledgement is accepted exactly when it is a 96-octet link proof whose last 64 octets the peer's
      key accepts as a signature of the first 32; those are the packet hash it acknowledges. */
  lemma AcknowledgesIff(k: Curve, p: Packet, ed: Bytes, hash: Bytes)
    ensures ValidateLinkProof(k, p, ed) == Ok(hash) <==>
      && p.packetType == PROOF && p.destType == DEST_LINK && p.context == CONTEXT_NONE && |ed| == 32
      && |p.data| == 96 && k.validate(ed, p.data[..32], p.data[32..96]) && hash == p.data[..32]
  {
    assert |p.data| == 96 ==> p.data[32..96] == p.data[32..];
  }

  /** Some 64 octets are a signature of the packet hash that the peer's key accepts. */
  ghost predicate Signable(k: Curve, ed: Bytes, hash: Bytes) {
    |ed| == 32 && |hash| == 32 && exists sig: Bytes :: |sig| == 64 && k.validate(ed, hash, sig)
  }

  /** Whoever can be acknowledged at all has such a signature. */
  lemma AcknowledgedIsSignable(k: Curve, p: Packet, ed: Bytes, hash: Bytes)
    requires ValidateLinkProof(k, p, ed) == Ok(hash)
    ensures Signable(k, ed, hash)
  {
    assert |p.data[32..]| == 64 && k.validate(ed, hash, p.data[32..]);
  }

  lemma SignableIsAcknowledged(k: Curve, linkId: Bytes, ed: Bytes, hash: Bytes) returns (p: Packet)
    requires Signable(k, ed, hash)
    ensures p.destHash == linkId && ValidateLinkProof(k, p, ed) == Ok(hash)
  {
    var sig: Bytes :| |sig| == 64 && k.validate(ed, hash, sig);
    p := LinkPacket(linkId, PROOF, CONTEXT_NONE, hash + sig);
    assert p.data[..32] == hash && p.data[32..] == sig;
  }

  /** A link DATA packet arrives as its plaintext, and the proof sent back names exactly the packet hash
      its sender is waiting on, whatever headers relays gave either packet on the way. */
  lemma DataIsAcknowledged(c: Primitives, k: Curve, linkId: Bytes, keys: (Bytes, Bytes), plaintext: Bytes, iv: Bytes,
                           data': Packet, edPriv: Bytes, edPub: Bytes, proof': Packet)
    requires CipherSound(c) && |edPub| == 32 && forall msg :: k.validate(edPub, msg, k.sign(edPriv, msg))
    requires BuildLinkDataPacket(c, linkId, keys.0, keys.1, plaintext, iv).Ok?
    requires Arrives(BuildLinkDataPacket(c, linkId, keys.0, keys.1, plaintext, iv).value, data')
    ensures var data := BuildLinkDataPacket(c, linkId, keys.0, keys.1, plaintext, iv).value;
      var proof := BuildLinkProof(c, linkId, m => k.sign(edPriv, m), data');
      && ParseLinkDataPacket(c, data', keys.0, keys.1) == Ok(plaintext)
      && proof.Ok? && PacketHash(c, data).Ok?
      && (Arrives(proof.value, proof') ==> ValidateLinkProof(k, proof', edPub) == PacketHash(c, data))
  {
    var data := BuildLinkDataPacket(c, linkId, keys.0, keys.1, plaintext, iv).value;
    ArrivesSame(data, data');
    Token.LinkDecryptEncrypt(c, plaintext, keys.0, keys.1, iv);
    HashableShape(data);
    var digest := PacketHash(c, data).value;
    var proof := BuildLinkProof(c, linkId, m => k.sign(edPriv, m), data');
    if Arrives(proof.value, proof') {
      ArrivesSame(proof.value, proof');
      assert proof'.data[..32] == digest && proof'.data[32..] == k.sign(edPriv, digest);
    }
  }

  /** The limit is tight: with the access-code octet the packed DATA packet fits the MTU exactly when the
      plaintext is at most LinkMDU octets. */
  lemma DataFitsIff(c: Primitives, linkId: Bytes, keys: (Bytes, Bytes), plaintext: Bytes, iv: Bytes)
    requires CipherSound(c)
    requires BuildLinkDataPacket(c, linkId, keys.0, keys.1, plaintext, iv).Ok?
    ensures var raw := Pack(BuildLinkDataPacket(c, linkId, keys.0, keys.1, plaintext, iv).value);
      raw.Ok? && (|raw.value| + ResourceHash.IFAC_MIN <= ResourceHash.MTU <==> |plaintext| <= ResourceHash.LINK_MDU)
  {
    Token.LinkEncryptLength(c, plaintext, keys.0, keys.1, iv);
    var n := |plaintext|;
    assert n / 16 <= 26 <==> n <= 431;
  }

  /** Every part of a split blob fits the MTU, even in the longer HEADER_2 form, and the parts are the blob. */
  lemma PartsFit(blob: Bytes, linkId: Bytes, transportId: Bytes)
    requires |linkId| == ADDRESS_LEN
    ensures Concat(ResourceHash.Split(blob)) == blob
    ensures |ResourceHash.Split(blob)| == (|blob| + ResourceHash.SDU - 1) / ResourceHash.SDU
    ensures forall i :: 0 <= i < |ResourceHash.Split(blob)| ==>
      var part := LinkPacket(linkId, DATA, CONTEXT_RESOURCE, ResourceHash.Split(blob)[i]);
      var raw := Pack(ApplyMultihopRouting(part, transportId));
      raw.Ok? && |raw.value| + ResourceHash.IFAC_MIN <= ResourceHash.MTU
  {
    ResourceHash.SplitCorrect(blob);
  }

  /** A link packet on the wire: no hops, its type among the flags of a broadcast to a link, the link's id, the
      context and the data. */
  lemma LinkPacketWire(linkId: Bytes, packetType: bv8, context: bv8, data: Bytes)
    requires |linkId| == ADDRESS_LEN && packetType <= 3
    ensures Pack(LinkPacket(linkId, packetType, context, data)) ==
      Ok([0x0C + packetType, 0] + linkId + [context] + data)
  {
    FlagsAdd(packetType);
  }

  lemma FlagsAdd(t: bv8)
    requires t <= 3
    ensures ((HEADER_1 & 0x01) << 6) | 0 | ((BROADCAST & 0x01) << 4) | ((DEST_LINK & 0x03) << 2) | (t & 0x03) ==
      0x0C + t
  {
  }
}
