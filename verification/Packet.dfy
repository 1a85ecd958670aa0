/** The Reticulum packet header: packing, parsing, and the bytes a packet is hashed by. */
module Packet {
  import opened Octets

  const HEADER_1: bv8 := 0
  const HEADER_2: bv8 := 1
  const BROADCAST: bv8 := 0
  const NETWORK: bv8 := 1
  const DEST_SINGLE: bv8 := 0
  const DEST_LINK: bv8 := 3
  const DATA: bv8 := 0
  const LINK_REQUEST: bv8 := 2
  const PROOF: bv8 := 3
  const CONTEXT_NONE: bv8 := 0x00
  const CONTEXT_LRPROOF: bv8 := 0xFF
  const ADDRESS_LEN := 16
  const HEADER_1_LEN := 1 + 1 + ADDRESS_LEN + 1
  const HEADER_2_LEN := 1 + 1 + ADDRESS_LEN * 2 + 1

  datatype PacketError = BadDestHash | BadTransportId | UnknownHeader | TooShort | IfacSealed

  datatype Packet = Packet(
    headerType: bv8, contextFlag: bool, transportType: bv8, destType: bv8, packetType: bv8,
    hops: bv8, transportId: Bytes, destHash: Bytes, context: bv8, data: Bytes)

  function PackFlags(p: Packet): bv8 {
    ((p.headerType & 0x01) << 6)
    | (if p.contextFlag then 1 << 5 else 0)
    | ((p.transportType & 0x01) << 4)
    | ((p.destType & 0x03) << 2)
    | (p.packetType & 0x03)
  }

  function Pack(p: Packet): Result<Bytes, PacketError> {
    if |p.destHash| != ADDRESS_LEN then Err(BadDestHash)
    else if p.headerType == HEADER_1 then
      Ok([PackFlags(p), p.hops] + p.destHash + [p.context] + p.data)
    else if p.headerType == HEADER_2 then
      if |p.transportId| != ADDRESS_LEN then Err(BadTransportId)
      else Ok([PackFlags(p), p.hops] + p.transportId + p.destHash + [p.context] + p.data)
    else Err(UnknownHeader)
  }

  function ParsePacket(raw: Bytes): Result<Packet, PacketError> {
    if |raw| < HEADER_1_LEN then Err(TooShort)
    else
      var f := raw[0];
      if (f >> 7) & 0x01 == 1 then Err(IfacSealed)
      else
        var headerType := (f >> 6) & 0x01;
        var contextFlag := (f >> 5) & 0x01 == 1;
        var transportType := (f >> 4) & 0x01;
        var destType := (f >> 2) & 0x03;
        var packetType := f & 0x03;
        if headerType == HEADER_1 then
          Ok(Packet(headerType, contextFlag, transportType, destType, packetType, raw[1], [],
                    raw[2..18], raw[18], raw[19..]))
        else if |raw| < HEADER_2_LEN then Err(TooShort)
        else
          Ok(Packet(headerType, contextFlag, transportType, destType, packetType, raw[1], raw[2..18],
                    raw[18..34], raw[34], raw[35..]))
  }

  /** The bytes a packet hash covers: no high flag nibble, no hops, no transport_id. */
  function HashablePart(p: Packet): Result<Bytes, PacketError> {
    match Pack(p)
    case Err(e) => Err(e)
    case Ok(raw) =>
      if p.headerType == HEADER_1 then Ok([raw[0] & 0x0F] + raw[2..])
      else Ok([raw[0] & 0x0F] + raw[18..])
  }

  /** The packet with every field cut to the bits the header has room for. */
  function Masked(p: Packet): Packet {
    p.(transportType := p.transportType & 0x01, destType := p.destType & 0x03, packetType := p.packetType & 0x03,
       transportId := if p.headerType == HEADER_1 then [] else p.transportId)
  }

  predicate Canonical(p: Packet) {
    Pack(p).Ok? && p == Masked(p)
  }

  lemma FlagBits(p: Packet)
    requires p.headerType <= 1
    ensures var f := PackFlags(p);
      && (f >> 7) & 0x01 == 0
      && (f >> 6) & 0x01 == p.headerType
      && (((f >> 5) & 0x01 == 1) <==> p.contextFlag)
      && (f >> 4) & 0x01 == p.transportType & 0x01
      && (f >> 2) & 0x03 == p.destType & 0x03
      && f & 0x03 == p.packetType & 0x03
      && f & 0x0F == (((p.destType & 0x03) << 2) | (p.packetType & 0x03))
  {}

  /** What parsing reads out of a flag octet. */
  function FromFlags(f: bv8, hops: bv8, via: Bytes, dest: Bytes, context: bv8, data: Bytes): Packet {
    Packet((f >> 6) & 0x01, (f >> 5) & 0x01 == 1, (f >> 4) & 0x01, (f >> 2) & 0x03, f & 0x03,
           hops, via, dest, context, data)
  }

  lemma ParseHeader1(f: bv8, hops: bv8, dest: Bytes, context: bv8, data: Bytes)
    requires |dest| == ADDRESS_LEN && (f >> 7) & 0x01 == 0 && (f >> 6) & 0x01 == HEADER_1
    ensures ParsePacket([f, hops] + dest + [context] + data) == Ok(FromFlags(f, hops, [], dest, context, data))
  {
    Slices1(f, hops, dest, context, data);
  }

  lemma ParseHeader2(f: bv8, hops: bv8, via: Bytes, dest: Bytes, context: bv8, data: Bytes)
    requires |dest| == ADDRESS_LEN && |via| == ADDRESS_LEN && (f >> 7) & 0x01 == 0 && (f >> 6) & 0x01 == HEADER_2
    ensures ParsePacket([f, hops] + via + dest + [context] + data) == Ok(FromFlags(f, hops, via, dest, context, data))
  {
    Slices2(f, hops, via, dest, context, data);
  }

  lemma FlagsRead(p: Packet, f: bv8, via: Bytes)
    requires p.headerType <= 1 && f == PackFlags(p)
    ensures (f >> 7) & 0x01 == 0 && (f >> 6) & 0x01 == p.headerType
    ensures FromFlags(f, p.hops, via, p.destHash, p.context, p.data)
      == p.(transportType := p.transportType & 0x01, destType := p.destType & 0x03,
            packetType := p.packetType & 0x03, transportId := via)
  {
    FlagBits(p);
  }

  /** Parsing what was packed gives back the packet, cut to the header's bits. */
  lemma ParsePack(p: Packet)
    requires Pack(p).Ok?
    ensures ParsePacket(Pack(p).value) == Ok(Masked(p))
  {
    var f := PackFlags(p);
    if p.headerType == HEADER_1 {
      FlagsRead(p, f, []);
      ParseHeader1(f, p.hops, p.destHash, p.context, p.data);
    } else {
      FlagsRead(p, f, p.transportId);
      ParseHeader2(f, p.hops, p.transportId, p.destHash, p.context, p.data);
    }
  }

  lemma Middle(a: Bytes, m: Bytes, z: Bytes)
    ensures var s := a + m + z; s[|a|..|a| + |m|] == m && s[|a| + |m|..] == z
  {}

  lemma Slices1(f: bv8, hops: bv8, dest: Bytes, context: bv8, data: Bytes)
    requires |dest| == ADDRESS_LEN
    ensures var raw := [f, hops] + dest + [context] + data;
      raw[0] == f && raw[1] == hops && raw[2..18] == dest && raw[18] == context && raw[19..] == data
  {
    var raw := [f, hops] + dest + [context] + data;
    assert raw == [f, hops] + dest + ([context] + data);
    Middle([f, hops], dest, [context] + data);
    Middle([f, hops] + dest, [context], data);
  }

  lemma Slices2(f: bv8, hops: bv8, via: Bytes, dest: Bytes, context: bv8, data: Bytes)
    requires |dest| == ADDRESS_LEN && |via| == ADDRESS_LEN
    ensures var raw := [f, hops] + via + dest + [context] + data;
      && raw[0] == f && raw[1] == hops && raw[2..18] == via
      && raw[18..34] == dest && raw[34] == context && raw[35..] == data
  {
    var raw := [f, hops] + via + dest + [context] + data;
    assert raw == [f, hops] + via + (dest + [context] + data);
    Middle([f, hops], via, dest + [context] + data);
    assert raw == ([f, hops] + via) + dest + ([context] + data);
    Middle([f, hops] + via, dest, [context] + data);
    Middle([f, hops] + via + dest, [context], data);
  }

  /** Packing is undone exactly on canonical packets. */
  lemma ParsePackExact(p: Packet)
    requires Pack(p).Ok?
    ensures ParsePacket(Pack(p).value) == Ok(p) <==> Canonical(p)
  {
    ParsePack(p);
  }

  lemma FlagsRebuilt(f: bv8, p: Packet)
    requires (f >> 7) & 0x01 == 0
    requires p.headerType == (f >> 6) & 0x01 && (p.contextFlag <==> (f >> 5) & 0x01 == 1)
    requires p.transportType == (f >> 4) & 0x01 && p.destType == (f >> 2) & 0x03 && p.packetType == f & 0x03
    ensures PackFlags(p) == f
  {}

  /** Every accepted byte string is the packing of the packet it parses to, and that packet is canonical. */
  lemma PackParse(raw: Bytes)
    requires ParsePacket(raw).Ok?
    ensures Pack(ParsePacket(raw).value) == Ok(raw)
    ensures Canonical(ParsePacket(raw).value)
  {
    var p := ParsePacket(raw).value;
    FlagsRebuilt(raw[0], p);
    FlagBits(p);
    if p.headerType == HEADER_1 { Rejoined1(raw); } else { Rejoined2(raw); }
  }

  lemma Rejoined1(raw: Bytes)
    requires |raw| >= HEADER_1_LEN
    ensures raw == [raw[0], raw[1]] + raw[2..18] + [raw[18]] + raw[19..]
  {}

  lemma Rejoined2(raw: Bytes)
    requires |raw| >= HEADER_2_LEN
    ensures raw == [raw[0], raw[1]] + raw[2..18] + raw[18..34] + [raw[34]] + raw[35..]
  {}

  /** What follows the flags, the hops and any transport_id, under a given first octet. */
  lemma HeaderTail(f: bv8, hops: bv8, via: Bytes, dest: Bytes, context: bv8, data: Bytes, low: bv8)
    ensures [low] + ([f, hops] + via + dest + [context] + data)[2 + |via|..] == [low] + dest + [context] + data
  {
    assert [f, hops] + via + dest + [context] + data == ([f, hops] + via) + (dest + [context] + data);
    assert ([f, hops] + via + dest + [context] + data)[2 + |via|..] == dest + [context] + data;
  }

  lemma LowNibble(p: Packet, f: bv8)
    requires p.headerType <= 1 && f == PackFlags(p)
    ensures f & 0x0F == (((p.destType & 0x03) << 2) | (p.packetType & 0x03))
  {
    FlagBits(p);
  }

  /** The hashed bytes, written without packing first. */
  lemma HashableShape(p: Packet)
    requires Pack(p).Ok?
    ensures HashablePart(p) ==
      Ok([((p.destType & 0x03) << 2) | (p.packetType & 0x03)] + p.destHash + [p.context] + p.data)
  {
    var f := PackFlags(p);
    var low := f & 0x0F;
    LowNibble(p, f);
    if p.headerType == HEADER_1 {
      assert [f, p.hops] + [] == [f, p.hops];
      HeaderTail(f, p.hops, [], p.destHash, p.context, p.data, low);
      assert HashablePart(p) == Ok([low] + ([f, p.hops] + p.destHash + [p.context] + p.data)[2..]);
    } else {
      HeaderTail(f, p.hops, p.transportId, p.destHash, p.context, p.data, low);
      assert HashablePart(p) == Ok([low] + ([f, p.hops] + p.transportId + p.destHash + [p.context] + p.data)[18..]);
    }
  }

  lemma LowNibbleSplits(d: bv8, t: bv8, d': bv8, t': bv8)
    ensures (((d & 0x03) << 2) | (t & 0x03)) == (((d' & 0x03) << 2) | (t' & 0x03)) <==>
            (d & 0x03 == d' & 0x03 && t & 0x03 == t' & 0x03)
  {}

  /** Two packets hash over the same bytes iff they agree on destination type, packet type,
      dest_hash, context and data: header type, hops, context flag and transport_id play no part. */
  lemma HashableIdentity(p: Packet, q: Packet)
    requires Pack(p).Ok? && Pack(q).Ok?
    ensures HashablePart(p) == HashablePart(q) <==>
            (p.destType & 0x03 == q.destType & 0x03 && p.packetType & 0x03 == q.packetType & 0x03
             && p.destHash == q.destHash && p.context == q.context && p.data == q.data)
  {
    HashableShape(p);
    HashableShape(q);
    LowNibbleSplits(p.destType, p.packetType, q.destType, q.packetType);
    var a, b := HashablePart(p).value, HashablePart(q).value;
    var lowP, lowQ := ((p.destType & 0x03) << 2) | (p.packetType & 0x03),
      ((q.destType & 0x03) << 2) | (q.packetType & 0x03);
    assert a[0] == lowP && b[0] == lowQ;
    assert a[1..17] == p.destHash && a[17] == p.context && a[18..] == p.data;
    assert b[1..17] == q.destHash && b[17] == q.context && b[18..] == q.data;
  }

  /** applyMultihopRouting: promote to HEADER_2, or leave alone when there is no 16-byte transport_id. */
  function ApplyMultihopRouting(p: Packet, transportId: Bytes): Packet {
    if |transportId| != ADDRESS_LEN then p
    else p.(headerType := HEADER_2, transportType := NETWORK, transportId := transportId)
  }

  lemma MaskedHash(p: Packet)
    requires Pack(p).Ok?
    ensures Pack(Masked(p)).Ok? && HashablePart(Masked(p)) == HashablePart(p)
  {
    MaskTwice(p.destType);
    MaskTwice(p.packetType);
    HashableIdentity(Masked(p), p);
  }

  /** Promotion in flight, a parse on the way and any hop count leave the packet hash alone. */
  lemma RoutingKeepsHash(p: Packet, transportId: Bytes, hops: bv8)
    requires Pack(p).Ok?
    ensures var routed := ApplyMultihopRouting(p, transportId).(hops := hops);
      && Pack(routed).Ok?
      && ParsePacket(Pack(routed).value).Ok?
      && HashablePart(ParsePacket(Pack(routed).value).value) == HashablePart(p)
  {
    var routed := ApplyMultihopRouting(p, transportId).(hops := hops);
    ParsePack(routed);
    MaskedHash(routed);
    HashableIdentity(routed, p);
  }

  lemma MaskTwice(b: bv8)
    ensures (b & 0x03) & 0x03 == b & 0x03
  {}

  /** What promotion puts on the wire: with a 16-octet transport_id, a HEADER_2 packet for the network that
      carries it in octets 2 to 17, the destination and all that follows it as they were; otherwise the very
      packet. */
  lemma RoutingPromotes(p: Packet, transportId: Bytes)
    requires Pack(p).Ok? && p.headerType == HEADER_1
    ensures var raw, routed := Pack(p).value, Pack(ApplyMultihopRouting(p, transportId));
      && routed.Ok?
      && if |transportId| != 16 then routed.value == raw
         else
           var wire := routed.value;
           && (wire[0] >> 6) & 0x01 == 1 && (wire[0] >> 4) & 0x01 == 1 && wire[0] & 0x2F == raw[0] & 0x2F
           && wire[1] == raw[1] && wire[2..18] == transportId && wire[18..] == raw[2..]
  {
    if |transportId| == 16 {
      var q := ApplyMultihopRouting(p, transportId);
      PromotedFlags(p.contextFlag, p.transportType, p.destType, p.packetType);
      assert Pack(q).value == [PackFlags(q), p.hops] + transportId + (p.destHash + [p.context] + p.data);
      assert Pack(p).value == [PackFlags(p), p.hops] + (p.destHash + [p.context] + p.data);
    }
  }

  lemma PromotedFlags(contextFlag: bool, transportType: bv8, destType: bv8, packetType: bv8)
    ensures var f := ((HEADER_2 & 0x01) << 6) | (if contextFlag then 1 << 5 else 0) | ((NETWORK & 0x01) << 4)
        | ((destType & 0x03) << 2) | (packetType & 0x03);
      var g := ((HEADER_1 & 0x01) << 6) | (if contextFlag then 1 << 5 else 0) | ((transportType & 0x01) << 4)
        | ((destType & 0x03) << 2) | (packetType & 0x03);
      (f >> 6) & 0x01 == 1 && (f >> 4) & 0x01 == 1 && f & 0x2F == g & 0x2F
  {
  }
}
