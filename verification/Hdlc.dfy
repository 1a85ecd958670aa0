/** HDLC byte stuffing over a byte stream, with the octets of section 4.2 of RFC 1662. */
module Hdlc {
  import opened Octets

  const FLAG: bv8 := 0x7E
  const ESC: bv8 := 0x7D
  const MASK: bv8 := 0x20

  datatype ReadError = EndOfStream | TruncatedFrame

  function Stuff(p: Bytes): Bytes {
    if p == [] then []
    else (if p[0] == FLAG || p[0] == ESC then [ESC, p[0] ^ MASK] else [p[0]]) + Stuff(p[1..])
  }

  function Encode(p: Bytes): Bytes {
    [FLAG] + Stuff(p) + [FLAG]
  }

  lemma {:induction false} StuffSnoc(p: Bytes, b: bv8)
    ensures Stuff(p + [b]) == Stuff(p) + (if b == FLAG || b == ESC then [ESC, b ^ MASK] else [b])
  {
    if p == [] {
      assert p + [b] == [b] && [b][1..] == [];
    } else {
      assert (p + [b])[1..] == p[1..] + [b];
      StuffSnoc(p[1..], b);
    }
  }

  /** EncodeHDLC: append byte by byte. */
  method EncodeHdlc(p: Bytes) returns (out: Bytes)
    ensures out == Encode(p)
  {
    out := [FLAG];
    for i := 0 to |p|
      invariant out == [FLAG] + Stuff(p[..i])
    {
      StuffSnoc(p[..i], p[i]);
      assert p[..i] + [p[i]] == p[..i + 1];
      if p[i] == FLAG || p[i] == ESC {
        out := out + [ESC, p[i] ^ MASK];
      } else {
        out := out + [p[i]];
      }
    }
    assert p[..|p|] == p;
    out := out + [FLAG];
  }

  /** The rest of a frame once its first byte is at the head of `s`, with `out` decoded so far. */
  function Body(s: Bytes, out: Bytes): (Result<Bytes, ReadError>, Bytes)
    decreases |s|
  {
    if s == [] then (Err(TruncatedFrame), [])
    else if s[0] == FLAG then (Ok(out), s[1..])
    else if s[0] == ESC then
      if |s| == 1 then (Err(TruncatedFrame), []) else Body(s[2..], out + [s[1] ^ MASK])
    else Body(s[1..], out + [s[0]])
  }

  /** One frame from the stream: the payload or the error, and what is left to read. */
  function Next(s: Bytes): (Result<Bytes, ReadError>, Bytes)
    decreases |s|
  {
    if s == [] then (Err(EndOfStream), [])
    else if s[0] == FLAG then Next(s[1..])
    else Body(s, [])
  }

  /** HDLCDecoder: a reader that keeps its place in the stream. */
  class Decoder {
    var stream: Bytes

    constructor (bytes: Bytes)
      ensures stream == bytes
    {
      stream := bytes;
    }

    method NextFrame() returns (r: Result<Bytes, ReadError>)
      modifies this
      ensures (r, stream) == Next(old(stream))
    {
      while true
        invariant Next(stream) == Next(old(stream))
        decreases |stream|
      {
        if stream == [] { return Err(EndOfStream); }
        var b := stream[0];
        if b == FLAG {
          stream := stream[1..];
          continue;
        }
        var out: Bytes := [];
        while true
          invariant Body(stream, out) == Next(old(stream))
          decreases |stream|
        {
          if stream == [] { return Err(TruncatedFrame); }
          b, stream := stream[0], stream[1..];
          if b == FLAG { return Ok(out); }
          if b == ESC {
            if stream == [] { return Err(TruncatedFrame); }
            out, stream := out + [stream[0] ^ MASK], stream[1..];
          } else {
            out := out + [b];
          }
        }
      }
    }
  }

  lemma {:induction false} BodyReadsStuffed(p: Bytes, tail: Bytes, out: Bytes)
    ensures Body(Stuff(p) + [FLAG] + tail, out) == (Ok(out + p), tail)
    decreases |p|
  {
    var s := Stuff(p) + [FLAG] + tail;
    if p == [] {
      assert s[1..] == tail && out + p == out;
    } else {
      var rest := Stuff(p[1..]) + [FLAG] + tail;
      BodyReadsStuffed(p[1..], tail, out + [p[0]]);
      assert out + [p[0]] + p[1..] == out + p;
      if p[0] == FLAG || p[0] == ESC {
        assert s[2..] == rest && s[1] == p[0] ^ MASK;
      } else {
        assert s[1..] == rest;
      }
    }
  }

  lemma StuffedHead(p: Bytes)
    requires p != []
    ensures |Stuff(p)| > 0 && Stuff(p)[0] != FLAG
  {}

  /** One encoded frame read back; an empty payload is not seen at all. */
  lemma NextReadsFrame(p: Bytes, tail: Bytes)
    ensures p != [] ==> Next(Encode(p) + tail) == (Ok(p), tail)
    ensures p == [] ==> Next(Encode(p) + tail) == Next(tail)
  {
    var s := Encode(p) + tail;
    var s1 := Stuff(p) + [FLAG] + tail;
    assert s[1..] == s1;
    if p == [] {
      assert s1[1..] == tail;
    } else {
      StuffedHead(p);
      BodyReadsStuffed(p, tail, []);
      assert [] + p == p;
    }
  }

  /** What a sender puts on the wire: frames, and any number of idle flags between them. */
  datatype Item = Frame(payload: Bytes) | Idle(flags: nat)

  function ItemBytes(i: Item): Bytes {
    match i
    case Frame(p) => Encode(p)
    case Idle(n) => Repeat(FLAG, n)
  }

  function Wire(items: seq<Item>): Bytes {
    if items == [] then [] else ItemBytes(items[0]) + Wire(items[1..])
  }

  function Payloads(items: seq<Item>): seq<Bytes> {
    if items == [] then []
    else if items[0].Frame? && items[0].payload != [] then [items[0].payload] + Payloads(items[1..])
    else Payloads(items[1..])
  }

  /** Reading never lengthens the stream, and a frame read consumes something. */
  lemma {:induction false} NextConsumes(s: Bytes)
    ensures |Next(s).1| <= |s|
    ensures Next(s).0.Ok? ==> |Next(s).1| < |s|
    decreases |s|
  {
    if s != [] {
      if s[0] == FLAG { NextConsumes(s[1..]); } else { BodyConsumes(s, []); }
    }
  }

  lemma {:induction false} BodyConsumes(s: Bytes, out: Bytes)
    ensures |Body(s, out).1| <= |s|
    ensures Body(s, out).0.Ok? ==> |Body(s, out).1| < |s|
    decreases |s|
  {
    if s != [] && s[0] != FLAG {
      if s[0] == ESC {
        if |s| > 1 { BodyConsumes(s[2..], out + [s[1] ^ MASK]); }
      } else {
        BodyConsumes(s[1..], out + [s[0]]);
      }
    }
  }

  /** Call NextFrame until it fails: the frames, and the final error. */
  function DecodeAll(s: Bytes): (seq<Bytes>, ReadError)
    decreases |s|
  {
    NextConsumes(s);
    match Next(s).0
    case Err(e) => ([], e)
    case Ok(p) => var (ps, e) := DecodeAll(Next(s).1); ([p] + ps, e)
  }

  lemma {:induction false} IdleSkipped(n: nat, tail: Bytes)
    ensures Next(Repeat(FLAG, n) + tail) == Next(tail)
  {
    var s := Repeat(FLAG, n) + tail;
    if n == 0 {
      assert s == tail;
    } else {
      assert s[1..] == Repeat(FLAG, n - 1) + tail;
      IdleSkipped(n - 1, tail);
    }
  }

  lemma SameNextSameFrames(s: Bytes, t: Bytes)
    requires Next(s) == Next(t)
    ensures DecodeAll(s) == DecodeAll(t)
  {}

  /** Stream framing: any list of payloads, with any idle flags anywhere, decodes to exactly the
      non-empty payloads in order and then a clean end of stream. */
  lemma {:induction false} StreamFraming(items: seq<Item>)
    ensures DecodeAll(Wire(items)) == (Payloads(items), EndOfStream)
  {
    if items != [] {
      var tail := Wire(items[1..]);
      StreamFraming(items[1..]);
      match items[0]
      case Idle(n) =>
        IdleSkipped(n, tail);
        SameNextSameFrames(Wire(items), tail);
      case Frame(p) =>
        NextReadsFrame(p, tail);
        if p == [] { SameNextSameFrames(Wire(items), tail); }
    }
  }
}
