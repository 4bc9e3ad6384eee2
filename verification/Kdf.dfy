/** HKDF-SHA-256 on both sides against sections 2.2 and 2.3 of RFC 5869. */
module Kdf {
  import opened Bytes

  const HASH_LEN: nat := 32

  type Hmac = (bytes, bytes) -> bytes

  ghost predicate IsHmac(hmac: Hmac) {
    forall key, message :: |hmac(key, message)| == HASH_LEN
  }

  datatype KdfError = LengthExceedsMaximum

  /** RFC 5869, section 2.2: an absent salt is a string of hash-length zeros. */
  function Prk(hmac: Hmac, salt: bytes, ikm: bytes): bytes {
    hmac(if salt == [] then Zeros(HASH_LEN) else salt, ikm)
  }

  /** RFC 5869, section 2.3: T(0) is empty, T(i) = HMAC(PRK, T(i-1) | info | i). */
  function T(hmac: Hmac, prk: bytes, info: bytes, i: nat): bytes
    requires i <= 255
  {
    if i == 0 then [] else hmac(prk, T(hmac, prk, info, i - 1) + info + [i])
  }

  /** T(1) | ... | T(n). */
  function Okm(hmac: Hmac, prk: bytes, info: bytes, n: nat): bytes
    requires n <= 255
  {
    if n == 0 then [] else Okm(hmac, prk, info, n - 1) + T(hmac, prk, info, n)
  }

  /** The number of blocks that covers a length. */
  function Blocks(length: int): nat {
    if length <= 0 then 0 else (length + HASH_LEN - 1) / HASH_LEN
  }

  /** RFC 5869, section 2.3: the first `length` octets, for lengths up to 255 hash lengths. */
  ghost function Expand(hmac: Hmac, prk: bytes, info: bytes, length: int): Result<bytes, KdfError>
    requires IsHmac(hmac)
  {
    if length > 255 * HASH_LEN then Err(LengthExceedsMaximum)
    else
      OkmLength(hmac, prk, info, Blocks(length));
      Ok(Okm(hmac, prk, info, Blocks(length))[..if length <= 0 then 0 else length])
  }

  ghost function Rfc5869(hmac: Hmac, ikm: bytes, salt: bytes, info: bytes, length: int): Result<bytes, KdfError>
    requires IsHmac(hmac)
  {
    Expand(hmac, Prk(hmac, salt, ikm), info, length)
  }

  lemma {:induction false} OkmLength(hmac: Hmac, prk: bytes, info: bytes, n: nat)
    requires IsHmac(hmac) && n <= 255
    ensures |Okm(hmac, prk, info, n)| == n * HASH_LEN
  {
    if n > 0 {
      OkmLength(hmac, prk, info, n - 1);
    }
  }

  function Join(blocks: seq<bytes>): bytes {
    if blocks == [] then [] else Join(blocks[..|blocks| - 1]) + blocks[|blocks| - 1]
  }

  method HkdfExtract(hmac: Hmac, salt: bytes, ikm: bytes) returns (prk: bytes)
    ensures prk == Prk(hmac, salt, ikm)
  {
    var key := salt;
    if |key| == 0 {
      key := Zeros(HASH_LEN);
    }
    prk := hmac(key, ikm);
  }

  /** The server's expansion: the length is checked before the loop. */
  method HkdfExpand(hmac: Hmac, prk: bytes, info: bytes, length: int) returns (r: Result<bytes, KdfError>)
    requires IsHmac(hmac)
    ensures r == Expand(hmac, prk, info, length)
  {
    if length > 255 * HASH_LEN {
      return Err(LengthExceedsMaximum);
    }
    var blocks, prev, counter := [], [], 1;
    while |Join(blocks)| < length
      invariant 1 <= counter <= 1 + Blocks(length) <= 256
      invariant prev == T(hmac, prk, info, counter - 1)
      invariant Join(blocks) == Okm(hmac, prk, info, counter - 1) && |Join(blocks)| == (counter - 1) * HASH_LEN
      decreases 256 - counter
    {
      prev := hmac(prk, prev + info + [counter]);
      blocks := blocks + [prev];
      assert blocks[..|blocks| - 1] + [prev] == blocks;
      counter := counter + 1;
    }
    r := Ok(Join(blocks)[..if length <= 0 then 0 else length]);
  }

  method Hkdf(hmac: Hmac, ikm: bytes, salt: bytes, info: bytes, length: int) returns (r: Result<bytes, KdfError>)
    requires IsHmac(hmac)
    ensures r == Rfc5869(hmac, ikm, salt, info, length)
  {
    var prk := HkdfExtract(hmac, salt, ikm);
    r := HkdfExpand(hmac, prk, info, length);
  }

  /** The client's twin has no length check: the 256th block number no longer fits a byte. */
  method ClientHkdf(hmac: Hmac, ikm: bytes, salt: bytes, info: bytes, length: int) returns (r: Result<bytes, KdfError>)
    requires IsHmac(hmac)
    ensures r == Rfc5869(hmac, ikm, salt, info, length)
  {
    var key := salt;
    if |key| == 0 {
      key := Zeros(HASH_LEN);
    }
    var prk := hmac(key, ikm);
    var blocks, prev, counter := [], [], 1;
    while |Join(blocks)| < length
      invariant 1 <= counter <= 256
      invariant length <= 255 * HASH_LEN ==> counter <= 1 + Blocks(length)
      invariant prev == T(hmac, prk, info, counter - 1)
      invariant Join(blocks) == Okm(hmac, prk, info, counter - 1) && |Join(blocks)| == (counter - 1) * HASH_LEN
      decreases 256 - counter
    {
      if counter > 255 {
        return Err(LengthExceedsMaximum);
      }
      prev := hmac(prk, prev + info + [counter]);
      blocks := blocks + [prev];
      assert blocks[..|blocks| - 1] + [prev] == blocks;
      counter := counter + 1;
    }
    r := Ok(Join(blocks)[..if length <= 0 then 0 else length]);
  }
}
