/** Resource constants, fingerprints, slicing, and the sliding collision guard. */
module ResourceHash {
  import opened Octets

  const MTU := 500
  const HEADER_MAX := 35
  const HEADER_MIN := 19
  const IFAC_MIN := 1
  const TOKEN_OVERHEAD := 48
  const AES_BLOCK := 16
  const LINK_MDU := 431
  const SDU := 464
  const MAP_HASH_LEN := 4
  const RANDOM_LEN := 4
  const SEGMENT := 74           // HashmapMaxLen
  const WINDOW := 10            // ReceiverWindowMaxOutstanding
  const GUARD := 224            // CollisionGuardSize
  const MAX_SIZE := 1048575 + 8 * 1024
  const MAX_PARTS := MAX_SIZE / SDU + 4
  const MAX_COLLISION_RETRIES := 4

  /** The literals above are the values of the source's constant expressions. */
  lemma ConstantsDerived()
    ensures LINK_MDU == ((MTU - IFAC_MIN - HEADER_MIN - TOKEN_OVERHEAD) / AES_BLOCK) * AES_BLOCK - 1
    ensures SDU == MTU - HEADER_MAX - IFAC_MIN
    ensures SEGMENT == (LINK_MDU - 134) / MAP_HASH_LEN
    ensures GUARD == 2 * 75 + SEGMENT
  {}

  datatype HashmapError = BadRandom | CollisionGuard

  function Hash(c: Primitives, body: Bytes, random: Bytes): (h: Bytes)
    ensures |h| == 32
  {
    if |random| != RANDOM_LEN then Repeat(0, 32) else c.sha(body + random)
  }

  function ExpectedProof(c: Primitives, body: Bytes, hash: Bytes): (p: Bytes)
    ensures |p| == 32
  {
    if |hash| != 32 then Repeat(0, 32) else c.sha(body + hash)
  }

  function MapHash(c: Primitives, part: Bytes, random: Bytes): (m: Bytes)
    ensures |m| == MAP_HASH_LEN
  {
    if |random| != RANDOM_LEN then Repeat(0, MAP_HASH_LEN) else c.sha(part + random)[..MAP_HASH_LEN]
  }

  /** Fingerprints are salted: two parts share one exactly when their salted digests start alike. */
  lemma PrintsAgreeIff(c: Primitives, a: Bytes, b: Bytes, random: Bytes)
    requires |random| == RANDOM_LEN
    ensures MapHash(c, a, random) == MapHash(c, b, random) <==> c.sha(a + random)[..4] == c.sha(b + random)[..4]
  {
  }

  /** The i-th fingerprint of a concatenated hashmap. */
  function Entry(hashmap: Bytes, i: int): (m: Bytes)
    requires 0 <= i && 4 * i + 4 <= |hashmap|
    ensures |m| == MAP_HASH_LEN
  {
    hashmap[4 * i..4 * i + 4]
  }

  lemma EntryOfSlice(hashmap: Bytes, lo: nat, hi: nat, i: nat)
    requires lo <= i < hi && 4 * hi <= |hashmap|
    ensures Entry(hashmap[4 * lo..4 * hi], i - lo) == Entry(hashmap, i)
  {
    var k := 4 * (i - lo);
    SliceOfSlice(hashmap, 4 * lo, 4 * hi, k, k + 4);
    assert 4 * lo + k == 4 * i;
  }

  lemma SliceOfSlice(s: Bytes, a: nat, b: nat, x: nat, y: nat)
    requires a <= b <= |s| && x <= y <= b - a
    ensures s[a..b][x..y] == s[a + x..a + y]
  {
    forall t | 0 <= t < y - x ensures s[a..b][x..y][t] == s[a + x..a + y][t] {}
  }

  // ---- slicing ----

  function Split(blob: Bytes): seq<Bytes>
    decreases |blob|
  {
    if |blob| == 0 then []
    else if |blob| <= SDU then [blob]
    else [blob[..SDU]] + Split(blob[SDU..])
  }

  /** Slices concatenate back, there are ceil(len / SDU) of them, none is empty or over SDU, and
      only the last may be short. */
  lemma {:induction false} SplitCorrect(blob: Bytes)
    ensures Concat(Split(blob)) == blob
    ensures |Split(blob)| == (|blob| + SDU - 1) / SDU
    ensures forall i :: 0 <= i < |Split(blob)| ==> 0 < |Split(blob)[i]| <= SDU
    ensures forall i :: 0 <= i < |Split(blob)| - 1 ==> |Split(blob)[i]| == SDU
    decreases |blob|
  {
    if |blob| == 0 {
    } else if |blob| <= SDU {
      assert [blob][1..] == [];
      assert Concat([blob]) == blob + Concat([]);
    } else {
      SplitCorrect(blob[SDU..]);
      assert Split(blob)[1..] == Split(blob[SDU..]);
      assert blob == blob[..SDU] + blob[SDU..];
    }
  }

  /** SplitParts: walk the blob by offset. */
  method SplitParts(blob: Bytes) returns (parts: seq<Bytes>)
    ensures parts == Split(blob)
  {
    parts := [];
    if |blob| == 0 { return; }
    var off := 0;
    while off < |blob|
      invariant 0 <= off
      invariant off <= |blob| ==> parts + Split(blob[off..]) == Split(blob)
      invariant off > |blob| ==> parts == Split(blob)
    {
      var end := off + SDU;
      if end > |blob| { end := |blob|; }
      parts := parts + [blob[off..end]];
      if off + SDU <= |blob| {
        assert blob[off..][SDU..] == blob[off + SDU..];
        assert blob[off..][..SDU] == blob[off..end];
        if off + SDU == |blob| { assert blob[off..end] == blob[off..]; }
      } else {
        assert blob[off..end] == blob[off..];
      }
      off := off + SDU;
    }
  }

  // ---- hashmap ----

  function HashmapOf(c: Primitives, parts: seq<Bytes>, random: Bytes): (m: Bytes)
    ensures |m| == 4 * |parts|
  {
    if parts == [] then []
    else HashmapOf(c, parts[..|parts| - 1], random) + MapHash(c, parts[|parts| - 1], random)
  }

  lemma {:induction false} HashmapEntry(c: Primitives, parts: seq<Bytes>, random: Bytes, i: nat)
    requires i < |parts|
    ensures Entry(HashmapOf(c, parts, random), i) == MapHash(c, parts[i], random)
  {
    var front := parts[..|parts| - 1];
    var hm := HashmapOf(c, front, random);
    if i < |parts| - 1 {
      HashmapEntry(c, front, random, i);
      assert Entry(HashmapOf(c, parts, random), i) == Entry(hm, i);
    }
  }

  /** Some two parts no more than GUARD apart share a fingerprint. */
  ghost predicate NearCollision(c: Primitives, parts: seq<Bytes>, random: Bytes) {
    exists i, j ::
      0 <= i < j < |parts| && j - i <= GUARD && MapHash(c, parts[i], random) == MapHash(c, parts[j], random)
  }

  function Prints(c: Primitives, parts: seq<Bytes>, random: Bytes): (m: seq<Bytes>)
    ensures |m| == |parts| && forall i :: 0 <= i < |m| ==> m[i] == MapHash(c, parts[i], random)
  {
    seq(|parts|, i requires 0 <= i < |parts| => MapHash(c, parts[i], random))
  }

  /** The fingerprints the guard list holds once the first n parts have been taken in. */
  function Guarded(c: Primitives, parts: seq<Bytes>, random: Bytes, n: nat): seq<Bytes>
    requires n <= |parts|
  {
    Prints(c, parts, random)[if n <= GUARD then 0 else n - GUARD..n]
  }

  lemma NearCollisionPrefix(c: Primitives, parts: seq<Bytes>, random: Bytes, n: nat)
    requires n <= |parts| && NearCollision(c, parts[..n], random)
    ensures NearCollision(c, parts, random)
  {
    var i, j :| 0 <= i < j < n && j - i <= GUARD
      && MapHash(c, parts[..n][i], random) == MapHash(c, parts[..n][j], random);
    assert parts[i] == parts[..n][i] && parts[j] == parts[..n][j];
  }

  lemma GuardHit(c: Primitives, parts: seq<Bytes>, random: Bytes, n: nat)
    requires n < |parts| && MapHash(c, parts[n], random) in Guarded(c, parts, random, n)
    ensures NearCollision(c, parts[..n + 1], random)
  {
    var lo := if n <= GUARD then 0 else n - GUARD;
    var guard := Guarded(c, parts, random, n);
    var k :| 0 <= k < |guard| && guard[k] == MapHash(c, parts[n], random);
    assert parts[..n + 1][lo + k] == parts[lo + k] && parts[..n + 1][n] == parts[n];
  }

  lemma GuardHolds(c: Primitives, parts: seq<Bytes>, random: Bytes, n: nat, i: nat)
    requires i < n <= |parts| && n - i <= GUARD
    ensures MapHash(c, parts[i], random) in Guarded(c, parts, random, n)
  {
    var lo := if n <= GUARD then 0 else n - GUARD;
    assert Guarded(c, parts, random, n)[i - lo] == Prints(c, parts, random)[i];
  }

  lemma GuardMiss(c: Primitives, parts: seq<Bytes>, random: Bytes, n: nat)
    requires n < |parts| && NearCollision(c, parts[..n + 1], random)
    ensures NearCollision(c, parts[..n], random) || MapHash(c, parts[n], random) in Guarded(c, parts, random, n)
  {
    var i, j :| 0 <= i < j < n + 1 && j - i <= GUARD
      && MapHash(c, parts[..n + 1][i], random) == MapHash(c, parts[..n + 1][j], random);
    if j < n {
      assert parts[..n][i] == parts[..n + 1][i] && parts[..n][j] == parts[..n + 1][j];
    } else {
      GuardHolds(c, parts, random, n, i);
    }
  }

  /** Part n adds a near collision iff its fingerprint is on the guard list. */
  lemma NearCollisionGrows(c: Primitives, parts: seq<Bytes>, random: Bytes, n: nat)
    requires n < |parts|
    ensures NearCollision(c, parts[..n + 1], random) <==>
            NearCollision(c, parts[..n], random) || MapHash(c, parts[n], random) in Guarded(c, parts, random, n)
  {
    assert parts[..n + 1][..n] == parts[..n];
    if NearCollision(c, parts[..n], random) {
      NearCollisionPrefix(c, parts[..n + 1], random, n);
    } else if NearCollision(c, parts[..n + 1], random) {
      GuardMiss(c, parts, random, n);
    } else if MapHash(c, parts[n], random) in Guarded(c, parts, random, n) {
      GuardHit(c, parts, random, n);
    }
  }

  method OnGuard(guard: seq<Bytes>, mh: Bytes) returns (hit: bool)
    ensures hit <==> mh in guard
  {
    for k := 0 to |guard|
      invariant mh !in guard[..k]
    {
      if guard[k] == mh { return true; }
    }
    return false;
  }

  /** Appending a fingerprint and dropping the oldest keeps the guard list what it should be. */
  lemma GuardSlides(c: Primitives, parts: seq<Bytes>, random: Bytes, n: nat)
    requires n < |parts|
    ensures var g := Guarded(c, parts, random, n) + [MapHash(c, parts[n], random)];
      Guarded(c, parts, random, n + 1) == if |g| > GUARD then g[1..] else g
  {
    var prints, g := Prints(c, parts, random), Guarded(c, parts, random, n) + [MapHash(c, parts[n], random)];
    var lo := if n <= GUARD then 0 else n - GUARD;
    assert g == prints[lo..n + 1];
  }

  lemma HashmapGrows(c: Primitives, parts: seq<Bytes>, random: Bytes, n: nat)
    requires n < |parts|
    ensures HashmapOf(c, parts[..n + 1], random) == HashmapOf(c, parts[..n], random) + MapHash(c, parts[n], random)
  {
    assert parts[..n + 1][..n] == parts[..n];
  }

  /** BuildHashmap succeeds iff no two parts within GUARD of each other collide, and then returns
      every fingerprint in order. */
  method BuildHashmap(c: Primitives, parts: seq<Bytes>, random: Bytes) returns (r: Result<Bytes, HashmapError>)
    ensures |random| != RANDOM_LEN ==> r == Err(BadRandom)
    ensures |random| == RANDOM_LEN && NearCollision(c, parts, random) ==> r == Err(CollisionGuard)
    ensures |random| == RANDOM_LEN && !NearCollision(c, parts, random) ==> r == Ok(HashmapOf(c, parts, random))
  {
    if |random| != RANDOM_LEN { return Err(BadRandom); }
    var out: Bytes := [];
    var guard: seq<Bytes> := [];
    for n := 0 to |parts|
      invariant out == HashmapOf(c, parts[..n], random)
      invariant guard == Guarded(c, parts, random, n)
      invariant !NearCollision(c, parts[..n], random)
    {
      var mh := MapHash(c, parts[n], random);
      var hit := OnGuard(guard, mh);
      NearCollisionGrows(c, parts, random, n);
      if hit {
        NearCollisionPrefix(c, parts, random, n + 1);
        return Err(CollisionGuard);
      }
      GuardSlides(c, parts, random, n);
      HashmapGrows(c, parts, random, n);
      guard := guard + [mh];
      if |guard| > GUARD { guard := guard[1..]; }
      out := out + mh;
    }
    assert parts[..|parts|] == parts;
    return Ok(out);
  }

  /** Any window of GUARD consecutive slots holds a given fingerprint at most once. */
  lemma WindowHasOneMatch(c: Primitives, parts: seq<Bytes>, random: Bytes, base: nat, i: nat, j: nat, mh: Bytes)
    requires !NearCollision(c, parts, random)
    requires base <= i < base + GUARD && base <= j < base + GUARD && i < |parts| && j < |parts|
    requires Entry(HashmapOf(c, parts, random), i) == mh == Entry(HashmapOf(c, parts, random), j)
    ensures i == j
  {
    HashmapEntry(c, parts, random, i);
    HashmapEntry(c, parts, random, j);
  }

  /** The fingerprints of the first n slots are pairwise different. */
  ghost predicate Distinct(hashmap: Bytes, n: nat)
    requires 4 * n <= |hashmap|
  {
    forall i, j :: 0 <= i < j < n ==> Entry(hashmap, i) != Entry(hashmap, j)
  }

  /** The guard alone makes fingerprints globally distinct up to GUARD + 1 parts. */
  lemma GuardMakesDistinct(c: Primitives, parts: seq<Bytes>, random: Bytes)
    requires !NearCollision(c, parts, random) && |parts| <= GUARD + 1
    ensures Distinct(HashmapOf(c, parts, random), |parts|)
  {
    forall i, j | 0 <= i < j < |parts|
      ensures Entry(HashmapOf(c, parts, random), i) != Entry(HashmapOf(c, parts, random), j)
    {
      HashmapEntry(c, parts, random, i);
      HashmapEntry(c, parts, random, j);
    }
  }

  /** The first index holding a fingerprint, or -1. */
  function FindFrom(hashmap: Bytes, n: nat, mh: Bytes, i: nat): (k: int)
    requires 4 * n <= |hashmap| && i <= n
    ensures k == -1 || i <= k < n
    ensures k >= 0 ==> Entry(hashmap, k) == mh
    ensures forall j :: i <= j < (if k < 0 then n else k) ==> Entry(hashmap, j) != mh
    decreases n - i
  {
    if i == n then -1
    else if Entry(hashmap, i) == mh then i
    else FindFrom(hashmap, n, mh, i + 1)
  }

  /** On distinct fingerprints the lookup is an exact inverse of indexing. */
  lemma FindInverse(hashmap: Bytes, n: nat, k: nat)
    requires 4 * n <= |hashmap| && k < n && Distinct(hashmap, n)
    ensures FindFrom(hashmap, n, Entry(hashmap, k), 0) == k
  {}

  /** And on no others. */
  lemma FindInverseIff(hashmap: Bytes, n: nat)
    requires 4 * n <= |hashmap|
    ensures (forall k :: 0 <= k < n ==> FindFrom(hashmap, n, Entry(hashmap, k), 0) == k) <==> Distinct(hashmap, n)
  {
    if forall k :: 0 <= k < n ==> FindFrom(hashmap, n, Entry(hashmap, k), 0) == k {
      forall i, j | 0 <= i < j < n ensures Entry(hashmap, i) != Entry(hashmap, j) {
        assert FindFrom(hashmap, n, Entry(hashmap, i), 0) == i;
        assert FindFrom(hashmap, n, Entry(hashmap, j), 0) == j;
      }
    }
  }

  /** findPartByMapHash: scan from the front. */
  method FindPartByMapHash(hashmap: Bytes, n: nat, mh: Bytes) returns (k: int)
    requires 4 * n <= |hashmap|
    ensures k == FindFrom(hashmap, n, mh, 0)
  {
    for i := 0 to n
      invariant FindFrom(hashmap, n, mh, 0) == FindFrom(hashmap, n, mh, i)
    {
      if Entry(hashmap, i) == mh { return i; }
    }
    return -1;
  }
}
