/**
 * The two private helpers of `DatabaseTokenStore`, `hash` and `randomId`,
 * grouped with the foreign calls they make (SHA-256, Base64url, SecureRandom).
 * SHA-256, Base64url and SecureRandom are foreign code; they appear here as
 * deterministic functions supplied by the caller (`Primitives`) and as a
 * stream of random bytes, with the few facts the proofs need stated as a
 * predicate rather than built in. Collisions of SHA-256 are not excluded:
 * a lemma that needs two ids to have different keys says so of those ids.
 */
module IdentityHash {

  newtype byte = x: int | 0 <= x < 256

  /** Bytes drawn from SecureRandom for one token id: 20 bytes, 160 bits. */
  const IdBytes: nat := 20

  /** Length of a SHA-256 digest in bytes. */
  const DigestBytes: nat := 32

  /** SHA-256 over a token id and the Base64url encoder, as opaque functions. */
  datatype Primitives = Primitives(sha256: string -> seq<byte>, base64url: seq<byte> -> string)

  /** What the store assumes of the primitives: digests are 32 bytes and Base64url loses nothing. */
  ghost predicate Sound(p: Primitives)
  {
    && (forall s: string :: |p.sha256(s)| == DigestBytes)
    && (forall a: seq<byte>, b: seq<byte> :: p.base64url(a) == p.base64url(b) ==> a == b)
  }

  /** The key a token id is stored under: Base64url of its SHA-256 digest. */
  function Hash(p: Primitives, tokenId: string): string
  {
    p.base64url(p.sha256(tokenId))
  }

  /** A fresh token id and the random bytes left after drawing it. */
  datatype Draw = Draw(tokenId: string, rest: seq<byte>)

  /** `randomId`: fill a 20-byte array from the random stream and Base64url-encode it. */
  function RandomId(p: Primitives, random: seq<byte>): (d: Draw)
    requires |random| >= IdBytes
    ensures |random| - |d.rest| == IdBytes
    ensures random == random[..IdBytes] + d.rest
  {
    Draw(p.base64url(random[..IdBytes]), random[IdBytes..])
  }

  /** A generated id is determined by, and determines, exactly the 20 bytes drawn for it. */
  lemma RandomIdEncodesDraw(p: Primitives, a: seq<byte>, b: seq<byte>)
    requires Sound(p)
    requires |a| >= IdBytes && |b| >= IdBytes
    ensures RandomId(p, a).tokenId == RandomId(p, b).tokenId <==> a[..IdBytes] == b[..IdBytes]
  {
    if RandomId(p, a).tokenId == RandomId(p, b).tokenId {
      assert p.base64url(a[..IdBytes]) == p.base64url(b[..IdBytes]);
    }
  }

  /** No stored key (a digest of anything) can equal a generated id: 32 encoded bytes are never 20. */
  lemma DigestIsNeverAnId(p: Primitives, x: string, random: seq<byte>)
    requires Sound(p)
    requires |random| >= IdBytes
    ensures Hash(p, x) != RandomId(p, random).tokenId
  {
    var drawn := random[..IdBytes];
    assert |p.sha256(x)| == DigestBytes != |drawn|;
  }

  /** Two token ids share a storage key exactly when their SHA-256 digests are equal. */
  lemma HashInjective(p: Primitives, a: string, b: string)
    requires Sound(p)
    ensures Hash(p, a) == Hash(p, b) <==> p.sha256(a) == p.sha256(b)
  {
    if Hash(p, a) == Hash(p, b) {
      assert p.base64url(p.sha256(a)) == p.base64url(p.sha256(b));
    }
  }
}
