/** Octet strings, results, and the cryptographic primitives the service calls into. */
module Octets {

  type Octet = bv8
  type Bytes = seq<bv8>

  datatype Option<+T> = None | Some(value: T)

  datatype Result<+T, +E> = Ok(value: T) | Err(error: E)

  /** A SHA-256 or HMAC-SHA256 output. */
  type Digest = d: Bytes | |d| == 32 witness seq(32, _ => 0)

  /** Library functions the service treats as black boxes. Nothing is assumed of them except
      where a lemma says so. */
  datatype Primitives = Primitives(
    sha: Bytes -> Digest,
    aesEncrypt: (Bytes, Bytes, Bytes) -> Bytes,  // key, iv, whole blocks
    aesDecrypt: (Bytes, Bytes, Bytes) -> Bytes,
    hmac: (Bytes, Bytes) -> Digest)

  /** AES-CBC keeps the length of whole blocks and decryption undoes encryption. */
  ghost predicate CipherSound(c: Primitives) {
    forall key, iv, padded :: |padded| % 16 == 0 ==>
      |c.aesEncrypt(key, iv, padded)| == |padded| &&
      c.aesDecrypt(key, iv, c.aesEncrypt(key, iv, padded)) == padded
  }

  /** Two different strings with one SHA-256 digest. */
  ghost predicate Collision(c: Primitives, a: Bytes, b: Bytes) {
    a != b && c.sha(a) == c.sha(b)
  }

  /** The concatenation of a list of octet strings. */
  function Concat(parts: seq<Bytes>): Bytes {
    if parts == [] then [] else parts[0] + Concat(parts[1..])
  }

  lemma {:induction false} ConcatSnoc(parts: seq<Bytes>, last: Bytes)
    ensures Concat(parts + [last]) == Concat(parts) + last
  {
    if parts == [] {
      assert parts + [last] == [last];
      assert Concat([last]) == last + Concat([]);
    } else {
      assert (parts + [last])[1..] == parts[1..] + [last];
      ConcatSnoc(parts[1..], last);
    }
  }

  predicate HasPrefix(s: string, p: string) {
    |p| <= |s| && s[..|p|] == p
  }

  function Repeat(b: Octet, n: nat): (r: Bytes)
    ensures |r| == n && forall i :: 0 <= i < n ==> r[i] == b
  {
    seq(n, _ => b)
  }

  lemma {:induction false} SubsetSize<T>(a: set<T>, b: set<T>)
    requires a <= b
    ensures |a| <= |b|
    decreases a
  {
    if a != {} {
      var x :| x in a;
      SubsetSize(a - {x}, b - {x});
    }
  }

  lemma NextOctet(b: Octet)
    requires b < 255
    ensures (b + 1) as int == b as int + 1
  {
  }

  lemma {:induction false} SomeOctet(k: int) returns (b: Octet)
    requires 0 <= k <= 255
    ensures b as int == k
  {
    b := 0;
    if k > 0 {
      b := SomeOctet(k - 1);
      assert b < 255;
      NextOctet(b);
      b := b + 1;
    }
  }

  lemma OctetBack(k: int, b: Octet)
    requires b as int == k
    ensures k as bv8 == b
  {
  }

  /** A number below 256 survives being made an octet. */
  lemma OctetValue(k: int)
    requires 0 <= k <= 255
    ensures (k as bv8) as int == k
  {
    var b := SomeOctet(k);
    OctetBack(k, b);
  }
}
