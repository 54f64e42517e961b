/**
 * `/api/keys`: issuing and listing API keys for the signed-in user. A key is
 * `inv_` followed by the hex text of 32 random bytes; only its bcrypt hash is
 * stored, and the plaintext is answered once, in the POST response.
 */
module KeysRoute {
  import opened Wrappers
  import opened Http
  import opened Store
  import opened Bcrypt
  import ApiKeyAuth
  import Seqs

  /** `keySchema`: `{ name: z.string().min(1).max(100) }`. */
  function KeySchema(name: Field<string>): (r: Option<string>)
    ensures r.Some? <==> name.Given? && 1 <= JsLength(name.value) <= 100
    ensures r.Some? ==> r.value == name.value
  {
    if StringWithin(name, 1, 100) then Some(name.value) else None
  }

  /** `generateApiKey()`, with `crypto.randomBytes(32)` supplied as `random`. */
  function GenerateApiKey(random: seq<Byte>): (key: string)
    requires |random| == 32
    ensures |key| == 68
    ensures ApiKeyAuth.HasKeyPrefix(key)
    ensures IsLowerHex(key[4..]) && HexDecode(key[4..]) == random
  {
    var hex := HexEncode(random);
    HexRoundTrip(random);
    assert (ApiKeyAuth.KeyPrefix + hex)[4..] == hex;
    ApiKeyAuth.KeyPrefix + hex
  }

  /** The `select` of the POST answer: no `key` field. */
  datatype KeyMetadata = KeyMetadata(id: Id, name: string, isActive: bool, createdAt: Timestamp)

  /** The POST answer `{ apiKey, plainKey }`. */
  datatype IssuedKey = IssuedKey(apiKey: KeyMetadata, plainKey: string)

  /** The `select` of the GET listing: no `key` field. */
  datatype KeyListing = KeyListing(id: Id, name: string, isActive: bool, lastUsed: Option<Timestamp>, createdAt: Timestamp)

  function Listing(k: ApiKey): KeyListing
  {
    KeyListing(k.id, k.name, k.isActive, k.lastUsed, k.createdAt)
  }

  function Listings(keys: seq<ApiKey>): (r: seq<KeyListing>)
    ensures |r| == |keys|
    ensures forall i :: 0 <= i < |keys| ==> r[i] == Listing(keys[i])
  {
    if keys == [] then [] else [Listing(keys[0])] + Listings(keys[1..])
  }

  /** `where: { userId }` on API keys. */
  function KeysOfUser(keys: seq<ApiKey>, user: Id): (r: seq<ApiKey>)
    ensures forall k :: k in r ==> k in keys && k.userId == user
    ensures forall i :: 0 <= i < |keys| && keys[i].userId == user ==> keys[i] in r
  {
    Seqs.Filter(keys, (k: ApiKey) => k.userId == user)
  }

  /** One user's keys, newest first. */
  function NewestFirstKeys(keys: seq<ApiKey>, user: Id): (r: seq<ApiKey>)
    ensures multiset(r) == multiset(KeysOfUser(keys, user))
    ensures forall i :: 0 <= i < |r| ==> r[i] in keys && r[i].userId == user
    ensures forall i, j :: 0 <= i < j < |r| ==> r[i].createdAt >= r[j].createdAt
  {
    var mine := KeysOfUser(keys, user);
    var sorted := Seqs.SortBy(mine, KeyNewestFirst);
    Seqs.SortByKeeps(mine, KeyNewestFirst, (k: ApiKey) => k in keys && k.userId == user);
    assert forall i, j :: 0 <= i < j < |sorted| ==> KeyNewestFirst(sorted[i]) <= KeyNewestFirst(sorted[j]);
    sorted
  }

  /**
   * `GET /api/keys`: 401 without a session, 500 when `apiKey.findMany` throws
   * (`findFails`), otherwise the caller's keys, newest first, without their
   * hashes.
   */
  function ListKeys(db: Db, user: Option<Id>, findFails: bool): (r: Response<seq<KeyListing>>)
    reads db
    ensures user.None? <==> r == Fail(401, Message("Unauthorized"))
    ensures user.Some? && findFails <==> r == Fail(500, Message("Internal server error"))
    ensures user.Some? && !findFails ==> r.Ok?
    ensures r.Ok? ==> r.body == Listings(NewestFirstKeys(db.apiKeys, user.value))
  {
    if user.None? then Unauthorized401()
    else if findFails then InternalError500()
    else Ok(Listings(NewestFirstKeys(db.apiKeys, user.value)))
  }

  /**
   * `POST /api/keys`. `random` is `crypto.randomBytes(32)`, `salt` the salt
   * bcrypt draws, `now` the insert time, and `createFails` says whether the
   * insert throws.
   */
  method CreateKey(
    db: Db, user: Option<Id>, name: Field<string>, random: seq<Byte>, bcrypt: Hasher, salt: Salt,
    now: Timestamp, createFails: bool)
    returns (r: Response<IssuedKey>)
    requires db.Valid() && |random| == 32 && Sound(bcrypt)
    modifies db`apiKeys, db`nextId
    ensures db.Valid()
    ensures user.None? ==> r == Fail(401, Message("Unauthorized"))
    ensures user.Some? && KeySchema(name).None? ==> r == Fail(400, Issues(["name"]))
    ensures user.Some? && KeySchema(name).Some? && createFails ==> r == Fail(500, Message("Internal server error"))
    ensures user.Some? && KeySchema(name).Some? && !createFails ==> r.Ok?
    ensures r.Fail? ==> db.apiKeys == old(db.apiKeys) && db.nextId == old(db.nextId)
    ensures r.Ok? ==>
      var plain := GenerateApiKey(random);
      var stored := ApiKey(old(db.nextId), name.value, bcrypt.hash(plain, salt), user.value, true, None, now);
      && user.Some? && KeySchema(name).Some? && !createFails
      && db.apiKeys == old(db.apiKeys) + [stored]
      && r.body == IssuedKey(KeyMetadata(stored.id, stored.name, true, now), plain)
      && stored.key != plain
      && bcrypt.compare(plain, stored.key)
  {
    if user.None? {
      return Unauthorized401();
    }
    var parsed := KeySchema(name);
    if parsed.None? {
      return Fail(400, Issues(["name"]));
    }
    var plainKey := GenerateApiKey(random);
    var hashedKey := bcrypt.hash(plainKey, salt);
    if createFails {
      return InternalError500();
    }
    // `isActive` takes the schema default, true.
    var record := ApiKey(db.nextId, parsed.value, hashedKey, user.value, true, None, now);
    FreshBelowAppend(KeyIds(db.apiKeys), db.nextId);
    assert KeyIds(db.apiKeys + [record]) == KeyIds(db.apiKeys) + [record.id];
    db.apiKeys := db.apiKeys + [record];
    db.nextId := db.nextId + 1;
    assert hashedKey[0] == '$' && plainKey[0] == 'i';
    return Ok(IssuedKey(KeyMetadata(record.id, record.name, record.isActive, record.createdAt), plainKey));
  }

  /**
   * Issue, then validate: once a key's record is in the table and active,
   * presenting the plaintext authenticates, and it authenticates as that
   * key's owner unless an earlier active key's hash also verifies it.
   */
  lemma {:induction false} IssuedKeyAuthenticates(
    keys: seq<ApiKey>, plain: string, bcrypt: Hasher, salt: Salt, record: ApiKey, now: Timestamp)
    requires Sound(bcrypt)
    requires ApiKeyAuth.HasKeyPrefix(plain)
    requires record.key == bcrypt.hash(plain, salt) && record.isActive
    ensures var s := ApiKeyAuth.Validate(keys + [record], plain, bcrypt.compare, now, false, false);
      && s.result.valid
      && ((forall k :: k in keys && k.isActive ==> !bcrypt.compare(plain, k.key)) ==> s.result.userId == Some(record.userId))
  {
    var all := keys + [record];
    var candidates := ApiKeyAuth.ActiveKeys(all);
    assert record in all;
    assert record in candidates;
    var i :| 0 <= i < |candidates| && candidates[i] == record;
    assert bcrypt.compare(plain, candidates[i].key);
    var m := ApiKeyAuth.FirstMatch(candidates, plain, bcrypt.compare);
    assert m.Some?;
    if forall k :: k in keys && k.isActive ==> !bcrypt.compare(plain, k.key) {
      var c := candidates[m.value];
      assert c in all && c.isActive;
      assert c == record;
    }
  }
}
