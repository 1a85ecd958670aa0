/** PKCS#7 padding (section 6.3 of RFC 5652) and the link-form Token:
    IV(16) || AES-256-CBC ciphertext || HMAC-SHA256(32). */
module Token {
  import opened Octets

  const IV_LEN := 16
  const HMAC_LEN := 32
  const BLOCK := 16
  const KEY_LEN := 32
  const LINK_TOKEN_OVERHEAD := IV_LEN + HMAC_LEN

  datatype TokenError =
    | BadLength | BadPadLength | BadPadBytes
    | BadKey | BadIV | TooShort | NotAligned | MacMismatch

  /** The padded length is a whole number of blocks. */
  lemma PaddedLength(n: nat, block: int)
    requires block >= 1
    ensures (n + (block - n % block)) % block == 0
  {
    var q := n / block;
    assert n + (block - n % block) == (q + 1) * block + 0;
    DivModUnique(n + (block - n % block), block, q + 1, 0);
  }

  lemma DivModUnique(x: int, d: int, q: int, r: int)
    requires d >= 1 && x == q * d + r && 0 <= r < d
    ensures x / d == q && x % d == r
  {
    var q', r' := x / d, x % d;
    assert q' * d + r' == q * d + r;
    assert (q' - q) * d == r - r';
    if q' > q { MulAtLeast(q' - q, d); }
    if q' < q { MulAtLeast(q - q', d); }
  }

  lemma MulAtLeast(k: int, d: int)
    requires k >= 1 && d >= 1
    ensures k * d >= d
  {}

  function PadLen(n: nat, block: int): (k: int)
    requires 1 <= block <= 255
    ensures 1 <= k <= block
  {
    block - n % block
  }

  function Pad(data: Bytes, block: int): Bytes
    requires 1 <= block <= 255
  {
    data + Repeat(PadLen(|data|, block) as bv8, PadLen(|data|, block))
  }

  function Unpad(data: Bytes, block: int): Result<Bytes, TokenError>
    requires 1 <= block <= 255
  {
    if |data| == 0 || |data| % block != 0 then Err(BadLength)
    else
      var padLen := data[|data| - 1] as int;
      if padLen == 0 || padLen > block then Err(BadPadLength)
      else
        WholeBlocks(|data|, block);
        if exists i :: |data| - padLen <= i < |data| && data[i] as int != padLen then Err(BadPadBytes)
        else Ok(data[..|data| - padLen])
  }

  /** A multiple of a block that is not empty holds at least one block. */
  lemma WholeBlocks(n: nat, block: int)
    requires 1 <= block && n % block == 0 && n > 0
    ensures n >= block
  {}

  lemma UnpadTail(data: Bytes, b: bv8, k: int, block: int)
    requires 1 <= k <= block <= 255 && b as int == k && (|data| + k) % block == 0
    ensures Unpad(data + Repeat(b, k), block) == Ok(data)
  {
    var padded := data + Repeat(b, k);
    assert padded[|padded| - 1] == b;
    assert forall i :: |padded| - k <= i < |padded| ==> padded[i] == b;
    assert padded[..|padded| - k] == data;
  }

  /** Padding then unpadding returns the data. */
  lemma UnpadPad(data: Bytes, block: int)
    requires 1 <= block <= 255
    ensures |Pad(data, block)| % block == 0
    ensures Unpad(Pad(data, block), block) == Ok(data)
  {
    var k := PadLen(|data|, block);
    PaddedLength(|data|, block);
    OctetValue(k);
    UnpadTail(data, k as bv8, k, block);
  }

  lemma SameOctet(a: bv8, b: bv8)
    requires a as int == b as int
    ensures a == b
  {}

  lemma TailIsPad(padded: Bytes, k: int, data: Bytes)
    requires 1 <= k <= |padded| && data == padded[..|padded| - k]
    requires forall i :: |padded| - k <= i < |padded| ==> padded[i] as int == k
    ensures padded == data + Repeat(padded[|padded| - 1], k)
  {
    forall i | |data| <= i < |padded| ensures padded[i] == padded[|padded| - 1] {
      SameOctet(padded[i], padded[|padded| - 1]);
    }
  }

  /** Whatever Unpad accepts is the padding of what it returns. */
  lemma PadUnpad(padded: Bytes, block: int)
    requires 1 <= block <= 255
    requires Unpad(padded, block).Ok?
    ensures Pad(Unpad(padded, block).value, block) == padded
  {
    var last := padded[|padded| - 1];
    var k := last as int;
    WholeBlocks(|padded|, block);
    var data := padded[..|padded| - k];
    PadLenUnique(|data|, k, block);
    TailIsPad(padded, k, data);
    OctetValue(k);
    SameOctet(k as bv8, last);
  }

  lemma PadLenUnique(n: nat, k: int, block: int)
    requires 1 <= block <= 255 && 1 <= k <= block && (n + k) % block == 0
    ensures PadLen(n, block) == k
  {
    var q := (n + k) / block;
    assert n == (q - 1) * block + (block - k);
    DivModUnique(n, block, q - 1, block - k);
  }

  /** Padding adds one to a block of octets, each of them their number, up to a whole number of blocks. */
  lemma PadShape(data: Bytes, block: int)
    requires 1 <= block <= 255
    ensures var p := Pad(data, block); var k := |p| - |data|;
      && 1 <= k <= block && |p| % block == 0 && p[..|data|] == data
      && forall i :: |data| <= i < |p| ==> p[i] as int == k
  {
    PaddedLength(|data|, block);
    OctetValue(PadLen(|data|, block));
  }

  /** pkcs7Pad: fill a fresh buffer. */
  method Pkcs7Pad(data: Bytes, block: int) returns (out: array<bv8>)
    requires 1 <= block <= 255
    ensures fresh(out)
    ensures out[..] == Pad(data, block)
  {
    var padLen := block - |data| % block;
    out := new bv8[|data| + padLen](i requires 0 <= i < |data| + padLen => if i < |data| then data[i] else 0);
    var i := |data|;
    while i < out.Length
      invariant |data| <= i <= out.Length
      invariant out[..i] == Pad(data, block)[..i]
    {
      out[i] := padLen as bv8;
      i := i + 1;
    }
  }

  /** pkcs7Unpad: check the length byte, then every padding byte. */
  method Pkcs7Unpad(data: Bytes, block: int) returns (r: Result<Bytes, TokenError>)
    requires 1 <= block <= 255
    ensures r == Unpad(data, block)
  {
    if |data| == 0 || |data| % block != 0 { return Err(BadLength); }
    var padLen := data[|data| - 1] as int;
    if padLen == 0 || padLen > block { return Err(BadPadLength); }
    WholeBlocks(|data|, block);
    var i := |data| - padLen;
    while i < |data|
      invariant |data| - padLen <= i <= |data|
      invariant forall j :: |data| - padLen <= j < i ==> data[j] as int == padLen
    {
      if data[i] as int != padLen { return Err(BadPadBytes); }
      i := i + 1;
    }
    return Ok(data[..|data| - padLen]);
  }

  function LinkEncrypt(c: Primitives, plaintext: Bytes, signing: Bytes, encryption: Bytes, iv: Bytes): Result<Bytes,
                       TokenError> {
    if |signing| != KEY_LEN || |encryption| != KEY_LEN then Err(BadKey)
    else if |iv| != IV_LEN then Err(BadIV)
    else
      var ct := c.aesEncrypt(encryption, iv, Pad(plaintext, BLOCK));
      Ok(iv + ct + c.hmac(signing, iv + ct))
  }

  function LinkDecrypt(c: Primitives, wire: Bytes, signing: Bytes, encryption: Bytes): Result<Bytes, TokenError> {
    if |signing| != KEY_LEN || |encryption| != KEY_LEN then Err(BadKey)
    else if |wire| < LINK_TOKEN_OVERHEAD + BLOCK then Err(TooShort)
    else if (|wire| - LINK_TOKEN_OVERHEAD) % BLOCK != 0 then Err(NotAligned)
    else
      var iv := wire[..IV_LEN];
      var ct := wire[IV_LEN..|wire| - HMAC_LEN];
      if wire[|wire| - HMAC_LEN..] != c.hmac(signing, iv + ct) then Err(MacMismatch)
      else Unpad(c.aesDecrypt(encryption, iv, ct), BLOCK)
  }

  /** What decryption accepts, told from the token's own octets: its last 32 are the MAC of all before them, and
      what is between the first 16 and these decrypts to well-padded plaintext. */
  lemma DecryptsIff(c: Primitives, wire: Bytes, signing: Bytes, encryption: Bytes, plaintext: Bytes)
    ensures LinkDecrypt(c, wire, signing, encryption) == Ok(plaintext) <==>
      && |signing| == 32 && |encryption| == 32 && |wire| >= 64 && |wire| % 16 == 0
      && wire[|wire| - 32..] == c.hmac(signing, wire[..|wire| - 32])
      && Unpad(c.aesDecrypt(encryption, wire[..16], wire[16..|wire| - 32]), BLOCK) == Ok(plaintext)
  {
    if |wire| >= 64 { assert wire[..16] + wire[16..|wire| - 32] == wire[..|wire| - 32]; }
  }

  /** The length of a token depends on the plaintext length alone. */
  lemma LinkEncryptLength(c: Primitives, plaintext: Bytes, signing: Bytes, encryption: Bytes, iv: Bytes)
    requires CipherSound(c)
    requires LinkEncrypt(c, plaintext, signing, encryption, iv).Ok?
    ensures |LinkEncrypt(c, plaintext, signing, encryption, iv).value| ==
      LINK_TOKEN_OVERHEAD + (|plaintext| / BLOCK + 1) * BLOCK
  {
    UnpadPad(plaintext, BLOCK);
  }

  /** Decryption undoes encryption, for every plaintext, key pair and IV that encryption accepts. */
  lemma LinkDecryptEncrypt(c: Primitives, plaintext: Bytes, signing: Bytes, encryption: Bytes, iv: Bytes)
    requires CipherSound(c)
    requires LinkEncrypt(c, plaintext, signing, encryption, iv).Ok?
    ensures LinkDecrypt(c, LinkEncrypt(c, plaintext, signing, encryption, iv).value, signing, encryption) ==
      Ok(plaintext)
  {
    var padded := Pad(plaintext, BLOCK);
    UnpadPad(plaintext, BLOCK);
    var ct := c.aesEncrypt(encryption, iv, padded);
    var mac := c.hmac(signing, iv + ct);
    var wire := iv + ct + mac;
    assert |padded| >= BLOCK;
    assert wire[..IV_LEN] == iv;
    assert wire[IV_LEN..|wire| - HMAC_LEN] == ct;
    assert wire[|wire| - HMAC_LEN..] == mac;
  }
}
