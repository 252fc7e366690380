/**
 * `SpaceController.createSpace`: validate the space name and owner taken from
 * the JSON request body, then, in one transaction, take the next value of
 * `space_id_seq`, insert one `spaces` row and answer 201 with the new space's
 * URI. The database is an immutable value; a failed call returns no new
 * database, so the caller's is unchanged.
 */
module SpaceController {
  import opened Wrappers
  import Decimal

  /** Longest accepted space name, in UTF-16 code units (`String.length()`). */
  const MaxNameLength: nat := 255

  /** Bounds of the `{1,29}` repetition in the owner pattern. */
  const MinOwnerTail: nat := 1
  const MaxOwnerTail: nat := 29

  /** A member of the parsed request body: a JSON string, or any other JSON value. */
  datatype JsonValue = JString(s: string) | JOther

  type JsonObject = map<string, JsonValue>

  datatype Space = Space(name: string, owner: string)

  /** A row of `permissions(space_id, user_id, perms)`. */
  datatype Permission = Permission(spaceId: int, userId: string, perms: string)

  /**
   * The tables `createSpace` can see, plus `space_id_seq` as the value its
   * next `NEXT VALUE FOR` returns.
   */
  datatype Db = Db(spaces: map<int, Space>, permissions: set<Permission>, nextSpaceId: int)

  /** Status, `Location` header and JSON body `{"name": …, "uri": …}` of a success. */
  datatype Reply = Reply(status: int, location: string, name: string, uri: string)

  datatype Outcome = Outcome(db: Db, reply: Reply)

  /**
   * Why a call fails: `getString` finds no string under the key (a
   * `JSONException`), the name is too long or the owner is malformed (an
   * `IllegalArgumentException`), or the insert hits an existing space id.
   */
  datatype SpaceError =
    | NotAString(key: string)
    | NameTooLong
    | InvalidUsername(owner: string)
    | DuplicateSpaceId(spaceId: int)

  /** `JSONObject.getString`: the string stored under `key`, if there is one. */
  function GetString(body: JsonObject, key: string): Option<string>
  {
    if key in body && body[key].JString? then Some(body[key].s) else None
  }

  /** UTF-16 code units of one character: two for a character outside the Basic Multilingual Plane. */
  function CodeUnits(c: char): nat
  {
    if c as int > 0xFFFF then 2 else 1
  }

  /** `String.length()`: the length of `s` in UTF-16 code units. */
  function Utf16Length(s: string): (n: nat)
    ensures |s| <= n <= 2 * |s|
    ensures n == |s| <==> forall i :: 0 <= i < |s| ==> s[i] as int <= 0xFFFF
  {
    if s == [] then 0 else CodeUnits(s[0]) + Utf16Length(s[1..])
  }

  /** `String.length()` adds up per character: the length of a concatenation is the sum of the lengths. */
  lemma {:induction false} Utf16LengthAppend(a: string, b: string)
    ensures Utf16Length(a + b) == Utf16Length(a) + Utf16Length(b)
  {
    if a != [] {
      assert (a + b)[0] == a[0];
      assert (a + b)[1..] == a[1..] + b;
      Utf16LengthAppend(a[1..], b);
    } else {
      assert a + b == b;
    }
  }

  predicate IsAsciiLetter(c: char)
  {
    'a' <= c <= 'z' || 'A' <= c <= 'Z'
  }

  predicate IsAsciiAlphanumeric(c: char)
  {
    IsAsciiLetter(c) || '0' <= c <= '9'
  }

  /** `t` is `[a-zA-Z0-9]{lo,hi}` in full: between `lo` and `hi` alphanumerics and nothing else. */
  predicate RepeatsAlphanumeric(t: string, lo: nat, hi: nat)
  {
    if t == [] then lo == 0
    else 0 < hi && IsAsciiAlphanumeric(t[0]) && RepeatsAlphanumeric(t[1..], if lo == 0 then 0 else lo - 1, hi - 1)
  }

  /** The same language described directly: 2 to 30 ASCII alphanumerics, the first a letter. */
  predicate ValidUsername(owner: string)
  {
    && 2 <= |owner| <= 30
    && IsAsciiLetter(owner[0])
    && forall i :: 1 <= i < |owner| ==> IsAsciiAlphanumeric(owner[i])
  }

  lemma {:induction false} RepeatsAlphanumericIff(t: string, lo: nat, hi: nat)
    ensures RepeatsAlphanumeric(t, lo, hi) <==>
      lo <= |t| <= hi && forall i :: 0 <= i < |t| ==> IsAsciiAlphanumeric(t[i])
  {
    if t != [] && 0 < hi {
      RepeatsAlphanumericIff(t[1..], if lo == 0 then 0 else lo - 1, hi - 1);
      if forall i :: 0 <= i < |t[1..]| ==> IsAsciiAlphanumeric(t[1..][i]) {
        if IsAsciiAlphanumeric(t[0]) {
          forall i | 0 <= i < |t| ensures IsAsciiAlphanumeric(t[i]) {
            if i > 0 { assert t[i] == t[1..][i - 1]; }
          }
        }
      }
    }
  }

  /**
   * The owner pattern `[a-zA-Z][a-zA-Z0-9]{1,29}`, matched against the whole
   * string as `String.matches` does. It accepts exactly the valid usernames.
   */
  function MatchesUsernamePattern(owner: string): (matched: bool)
    ensures matched <==> ValidUsername(owner)
  {
    if owner == [] then false
    else
      RepeatsAlphanumericIff(owner[1..], MinOwnerTail, MaxOwnerTail);
      assert forall i :: 1 <= i < |owner| ==> owner[i] == owner[1..][i - 1];
      IsAsciiLetter(owner[0]) && RepeatsAlphanumeric(owner[1..], MinOwnerTail, MaxOwnerTail)
  }

  /** Path prefix of every space's URI. */
  const SpacesPrefix: string := "/spaces/"

  /** The path the `Location` header and the `uri` field give for a space; the id reads back from it. */
  function SpaceUri(spaceId: int): (uri: string)
    ensures |SpacesPrefix| < |uri| && uri[..|SpacesPrefix|] == SpacesPrefix
    ensures Decimal.ParseInt(uri[|SpacesPrefix|..]) == Some(spaceId)
  {
    var uri := SpacesPrefix + Decimal.IntToString(spaceId);
    assert uri[|SpacesPrefix|..] == Decimal.IntToString(spaceId);
    Decimal.IntToStringRoundTrip(spaceId);
    uri
  }

  /** The checks `createSpace` makes before opening the transaction all pass. */
  predicate AcceptedInput(body: JsonObject)
  {
    && GetString(body, "name").Some?
    && Utf16Length(GetString(body, "name").value) <= MaxNameLength
    && GetString(body, "owner").Some?
    && ValidUsername(GetString(body, "owner").value)
  }

  /**
   * `createSpace`. Checks run in source order: read the name, check its
   * length, read the owner, match it against the pattern; only then does the
   * transaction draw an id and insert the row. No permission row is written.
   */
  function CreateSpace(db: Db, body: JsonObject): (r: Result<Outcome, SpaceError>)
    ensures r.Success? <==> AcceptedInput(body) && db.nextSpaceId !in db.spaces
    ensures r.Success? ==>
      var spaceId := db.nextSpaceId;
      var name := GetString(body, "name").value;
      var owner := GetString(body, "owner").value;
      && r.value.db.spaces.Keys == db.spaces.Keys + {spaceId}
      && |r.value.db.spaces| == |db.spaces| + 1
      && r.value.db.spaces[spaceId] == Space(name, owner)
      && (forall id :: id in db.spaces ==> r.value.db.spaces[id] == db.spaces[id])
      && r.value.db.permissions == db.permissions
      && r.value.db.nextSpaceId > spaceId
      && r.value.reply.status == 201
      && r.value.reply.location == SpaceUri(spaceId)
      && r.value.reply.uri == r.value.reply.location
      && r.value.reply.name == name
  {
    match GetString(body, "name")
    case None => Failure(NotAString("name"))
    case Some(name) =>
      if Utf16Length(name) > MaxNameLength then Failure(NameTooLong)
      else
        match GetString(body, "owner")
        case None => Failure(NotAString("owner"))
        case Some(owner) =>
          if !MatchesUsernamePattern(owner) then Failure(InvalidUsername(owner))
          else
            var spaceId := db.nextSpaceId;
            if spaceId in db.spaces then Failure(DuplicateSpaceId(spaceId))
            else
              var uri := SpaceUri(spaceId);
              var db' := Db(db.spaces[spaceId := Space(name, owner)], db.permissions, spaceId + 1);
              Success(Outcome(db', Reply(201, uri, name, uri)))
  }

  // ---------------------------------------------------------------------------
  // Validation and its order

  /** A name longer than 255 code units is refused whatever the owner is: the name is checked first. */
  lemma LongNameRejectedFirst(db: Db, body: JsonObject)
    requires GetString(body, "name").Some?
    requires Utf16Length(GetString(body, "name").value) > MaxNameLength
    ensures CreateSpace(db, body) == Failure(NameTooLong)
  {
  }

  /** With an acceptable name, an owner outside the pattern is refused and named in the error. */
  lemma InvalidOwnerRejected(db: Db, body: JsonObject)
    requires GetString(body, "name").Some?
    requires Utf16Length(GetString(body, "name").value) <= MaxNameLength
    requires GetString(body, "owner").Some?
    requires !ValidUsername(GetString(body, "owner").value)
    ensures CreateSpace(db, body) == Failure(InvalidUsername(GetString(body, "owner").value))
  {
  }

  // ---------------------------------------------------------------------------
  // The database effect

  /** Ids already used by spaces or permissions lie below the sequence's next value. */
  ghost predicate Consistent(db: Db)
  {
    && (forall id :: id in db.spaces ==> id < db.nextSpaceId)
    && (forall q :: q in db.permissions ==> q.spaceId < db.nextSpaceId)
  }

  /** On a consistent database every accepted request succeeds, and consistency is kept. */
  lemma AcceptedInputSucceeds(db: Db, body: JsonObject)
    requires Consistent(db)
    requires AcceptedInput(body)
    ensures CreateSpace(db, body).Success?
    ensures Consistent(CreateSpace(db, body).value.db)
  {
  }

  /**
   * As written, the owner receives no permission on the space just created:
   * no permission row at all mentions the new space id.
   */
  lemma OwnerGetsNoPermission(db: Db, body: JsonObject)
    requires Consistent(db)
    requires CreateSpace(db, body).Success?
    ensures forall q :: q in CreateSpace(db, body).value.db.permissions ==> q.spaceId != db.nextSpaceId
  {
  }

  /**
   * Two successful calls in a row create spaces with different ids and
   * different URIs. By `CreateSpace`'s contract, the requires are exactly the
   * conditions under which the first call and then the second both succeed.
   */
  lemma SuccessiveSpacesDistinct(db: Db, first: JsonObject, second: JsonObject)
    requires AcceptedInput(first) && db.nextSpaceId !in db.spaces
    requires AcceptedInput(second) && db.nextSpaceId + 1 !in db.spaces
    ensures CreateSpace(db, first).Success?
    ensures var db1 := CreateSpace(db, first).value.db;
      && CreateSpace(db1, second).Success?
      && db.nextSpaceId != db1.nextSpaceId
      && CreateSpace(db, first).value.reply.location != CreateSpace(db1, second).value.reply.location
  {
    var db1 := CreateSpace(db, first).value.db;
    assert db1.nextSpaceId == db.nextSpaceId + 1;
    var a := SpaceUri(db.nextSpaceId);
    var b := SpaceUri(db1.nextSpaceId);
    assert Decimal.ParseInt(a[|SpacesPrefix|..]) != Decimal.ParseInt(b[|SpacesPrefix|..]);
  }

  /** The id can be read back from the `Location` path, so the reply names the new space. */
  lemma LocationIdentifiesSpace(db: Db, body: JsonObject)
    requires CreateSpace(db, body).Success?
    ensures var location := CreateSpace(db, body).value.reply.location;
      && |location| > |SpacesPrefix| && location[..|SpacesPrefix|] == SpacesPrefix
      && Decimal.ParseInt(location[|SpacesPrefix|..]) == Some(db.nextSpaceId)
      && CreateSpace(db, body).value.db.spaces[Decimal.ParseInt(location[|SpacesPrefix|..]).value].owner
         == GetString(body, "owner").value
  {
  }
}
