/**
 * `DatabaseTokenStore`: session tokens kept in the `tokens` table, keyed by the
 * digest of the id handed to the client. The table is an immutable map from
 * `Hash(tokenId)` to its row; every operation is a pure transition on it.
 * The `Request` argument of the Java methods is unused and left out.
 */
module DatabaseTokenStore {
  import opened Wrappers
  import opened IdentityHash

  /** A session token: owner, absolute expiry instant and string attributes. */
  datatype Token = Token(username: string, expiry: int, attributes: map<string, string>)

  /**
   * A row of `tokens(token_id, user_id, expiry, attributes)` without its key.
   * The attributes column holds a JSON object of strings; the object is
   * modelled by the map it denotes, so writing and parsing it lose nothing.
   */
  datatype Row = Row(userId: string, expiry: int, attributes: map<string, string>)

  /** The `tokens` table: digest of token id to row. */
  datatype Store = Store(tokens: map<string, Row>)

  /** `updateUnique` throws when the insert does not add exactly one row. */
  datatype StoreError = DuplicateTokenKey

  /** What `create` hands back: the new table, the client-visible id, the unused randomness. */
  datatype Created = Created(store: Store, tokenId: string, random: seq<byte>)

  function ToRow(t: Token): Row
  {
    Row(t.username, t.expiry, t.attributes)
  }

  function ToToken(row: Row): Token
  {
    Token(row.userId, row.expiry, row.attributes)
  }

  /**
   * `create`: draw a fresh id, insert one row under its digest, return the raw id.
   * The insert fails when a row with that digest already exists.
   */
  function Create(p: Primitives, s: Store, random: seq<byte>, t: Token): (r: Result<Created, StoreError>)
    requires |random| >= IdBytes
    ensures r.Success? <==> Hash(p, RandomId(p, random).tokenId) !in s.tokens
    ensures r.Failure? ==> r.error == DuplicateTokenKey
    ensures r.Success? ==>
      var key := Hash(p, r.value.tokenId);
      && r.value.tokenId == RandomId(p, random).tokenId
      && r.value.random == RandomId(p, random).rest
      && r.value.store.tokens.Keys == s.tokens.Keys + {key}
      && |r.value.store.tokens| == |s.tokens| + 1
      && r.value.store.tokens[key] == ToRow(t)
      && (forall k :: k in s.tokens ==> r.value.store.tokens[k] == s.tokens[k])
  {
    var draw := RandomId(p, random);
    var key := Hash(p, draw.tokenId);
    if key in s.tokens then
      Failure(DuplicateTokenKey)
    else
      Success(Created(Store(s.tokens[key := ToRow(t)]), draw.tokenId, draw.rest))
  }

  /** `read`: look the row up by the digest of the presented id and rebuild the token. */
  function Read(p: Primitives, s: Store, tokenId: string): (r: Option<Token>)
    ensures r.Some? <==> Hash(p, tokenId) in s.tokens
    ensures r.Some? ==> ToRow(r.value) == s.tokens[Hash(p, tokenId)]
  {
    var key := Hash(p, tokenId);
    if key in s.tokens then Some(ToToken(s.tokens[key])) else None
  }

  /**
   * `readToken`: build a token from a row, copying the attributes of the JSON
   * object one key at a time into the token's initially empty attribute map.
   */
  method ReadToken(row: Row) returns (t: Token)
    ensures t == ToToken(row)
  {
    var attributes: map<string, string> := map[];
    var keys := row.attributes.Keys;
    while keys != {}
      invariant keys <= row.attributes.Keys
      invariant attributes.Keys == row.attributes.Keys - keys
      invariant forall k :: k in attributes ==> attributes[k] == row.attributes[k]
      decreases keys
    {
      var key :| key in keys;
      attributes := attributes[key := row.attributes[key]];
      keys := keys - {key};
    }
    t := Token(row.userId, row.expiry, attributes);
  }

  /** `revoke`: delete the row keyed by the digest of the presented id, if any. */
  function Revoke(p: Primitives, s: Store, tokenId: string): (r: Store)
    ensures r.tokens.Keys == s.tokens.Keys - {Hash(p, tokenId)}
    ensures forall k :: k in r.tokens ==> r.tokens[k] == s.tokens[k]
  {
    Store(s.tokens - {Hash(p, tokenId)})
  }

  /** `deleteExpiredTokens`: drop every row whose expiry is strictly before `now`. */
  function DeleteExpired(s: Store, now: int): (r: Store)
    ensures forall k :: k in r.tokens <==> k in s.tokens && !(s.tokens[k].expiry < now)
    ensures forall k :: k in r.tokens ==> r.tokens[k] == s.tokens[k]
  {
    Store(map k | k in s.tokens && !(s.tokens[k].expiry < now) :: s.tokens[k])
  }

  // ---------------------------------------------------------------------------
  // Round trip, revocation and the expiry sweep

  /** Reading the id that `create` returned gives back the token that was stored. */
  lemma ReadAfterCreate(p: Primitives, s: Store, random: seq<byte>, t: Token)
    requires |random| >= IdBytes
    requires Create(p, s, random, t).Success?
    ensures Read(p, Create(p, s, random, t).value.store, Create(p, s, random, t).value.tokenId) == Some(t)
  {
  }

  /** Creating a token leaves every token that could already be read unchanged. */
  lemma CreateKeepsOtherTokens(p: Primitives, s: Store, random: seq<byte>, t: Token, other: string)
    requires |random| >= IdBytes
    requires Create(p, s, random, t).Success?
    requires Read(p, s, other).Some?
    ensures Read(p, Create(p, s, random, t).value.store, other) == Read(p, s, other)
  {
  }

  /** After `revoke(id)`, `read(id)` finds nothing. */
  lemma ReadAfterRevoke(p: Primitives, s: Store, tokenId: string)
    ensures Read(p, Revoke(p, s, tokenId), tokenId) == None
  {
  }

  /** Revoking twice is the same as revoking once. */
  lemma RevokeIdempotent(p: Primitives, s: Store, tokenId: string)
    ensures Revoke(p, Revoke(p, s, tokenId), tokenId) == Revoke(p, s, tokenId)
  {
  }

  /** Revoking an id that was never stored (or already revoked) changes nothing. */
  lemma RevokeUnknownIsNoOp(p: Primitives, s: Store, tokenId: string)
    requires Read(p, s, tokenId) == None
    ensures Revoke(p, s, tokenId) == s
  {
  }

  /** Revoking one id never affects reading another id whose SHA-256 digest differs. */
  lemma RevokeKeepsOtherTokens(p: Primitives, s: Store, revoked: string, other: string)
    requires Sound(p)
    requires p.sha256(revoked) != p.sha256(other)
    ensures Read(p, Revoke(p, s, revoked), other) == Read(p, s, other)
  {
    HashInjective(p, revoked, other);
  }

  /** `revoke` undoes `create`: the table is exactly as before the token was issued. */
  lemma RevokeUndoesCreate(p: Primitives, s: Store, random: seq<byte>, t: Token)
    requires |random| >= IdBytes
    requires Create(p, s, random, t).Success?
    ensures Revoke(p, Create(p, s, random, t).value.store, Create(p, s, random, t).value.tokenId) == s
  {
    var c := Create(p, s, random, t).value;
    assert Revoke(p, c.store, c.tokenId).tokens == s.tokens;
  }

  /** After the sweep, a token reads back iff it read back before and has not expired. */
  lemma ReadAfterSweep(p: Primitives, s: Store, now: int, tokenId: string)
    ensures Read(p, DeleteExpired(s, now), tokenId) ==
      if Read(p, s, tokenId).Some? && !(Read(p, s, tokenId).value.expiry < now)
      then Read(p, s, tokenId) else None
  {
  }

  /** Two sweeps remove exactly what one sweep at the later instant removes. */
  lemma SweepsCompose(s: Store, earlier: int, later: int)
    requires earlier <= later
    ensures DeleteExpired(DeleteExpired(s, earlier), later) == DeleteExpired(s, later)
    ensures DeleteExpired(DeleteExpired(s, later), earlier) == DeleteExpired(s, later)
  {
    assert DeleteExpired(DeleteExpired(s, earlier), later).tokens == DeleteExpired(s, later).tokens;
    assert DeleteExpired(DeleteExpired(s, later), earlier).tokens == DeleteExpired(s, later).tokens;
  }

  /** Running the sweep again at the same instant removes nothing more. */
  lemma SweepIdempotent(s: Store, now: int)
    ensures DeleteExpired(DeleteExpired(s, now), now) == DeleteExpired(s, now)
  {
    SweepsCompose(s, now, now);
  }

  // ---------------------------------------------------------------------------
  // Digest at rest: the id handed to a client is never a key of the table

  /** Every key of the table is the digest of some token id. */
  ghost predicate KeysAreDigests(p: Primitives, s: Store)
  {
    forall k :: k in s.tokens ==> exists id: string :: Hash(p, id) == k
  }

  lemma CreateKeepsKeysDigests(p: Primitives, s: Store, random: seq<byte>, t: Token)
    requires |random| >= IdBytes
    requires KeysAreDigests(p, s)
    requires Create(p, s, random, t).Success?
    ensures KeysAreDigests(p, Create(p, s, random, t).value.store)
  {
    var c := Create(p, s, random, t).value;
    forall k | k in c.store.tokens
      ensures exists id: string :: Hash(p, id) == k
    {
      if k !in s.tokens {
        assert Hash(p, c.tokenId) == k;
      }
    }
  }

  lemma RevokeKeepsKeysDigests(p: Primitives, s: Store, tokenId: string)
    requires KeysAreDigests(p, s)
    ensures KeysAreDigests(p, Revoke(p, s, tokenId))
  {
  }

  lemma SweepKeepsKeysDigests(p: Primitives, s: Store, now: int)
    requires KeysAreDigests(p, s)
    ensures KeysAreDigests(p, DeleteExpired(s, now))
  {
  }

  /** A freshly generated id is not a key of a table whose keys are all digests. */
  lemma GeneratedIdNeverStored(p: Primitives, s: Store, random: seq<byte>)
    requires Sound(p)
    requires |random| >= IdBytes
    requires KeysAreDigests(p, s)
    ensures RandomId(p, random).tokenId !in s.tokens
  {
    var id := RandomId(p, random).tokenId;
    if id in s.tokens {
      var x: string :| Hash(p, x) == id;
      DigestIsNeverAnId(p, x, random);
    }
  }

  /**
   * `create` stores the new row under the digest and never under the raw id it
   * returns, so reading the table does not reveal a usable token id.
   */
  lemma CreateNeverStoresRawId(p: Primitives, s: Store, random: seq<byte>, t: Token)
    requires Sound(p)
    requires |random| >= IdBytes
    requires KeysAreDigests(p, s)
    requires Create(p, s, random, t).Success?
    ensures Create(p, s, random, t).value.tokenId !in Create(p, s, random, t).value.store.tokens
  {
    var c := Create(p, s, random, t).value;
    GeneratedIdNeverStored(p, s, random);
    DigestIsNeverAnId(p, c.tokenId, random);
  }
}
