/**
 * `validateApiKey`: the API-key authenticator behind the public inventory
 * endpoint. A presented key is rejected outright unless it carries the `inv_`
 * prefix; otherwise the active keys are fetched and scanned in order with
 * bcrypt's `compare`, the first one that verifies wins, its `lastUsed` is
 * stamped and its owner is returned. Every exception on the way (the fetch,
 * the `lastUsed` write) ends in the catch-all "invalid".
 */
module ApiKeyAuth {
  import opened Wrappers
  import opened Store
  import opened Bcrypt

  const KeyPrefix: string := "inv_"

  /** `apiKey.startsWith("inv_")`. */
  predicate HasKeyPrefix(apiKey: string)
  {
    |apiKey| >= |KeyPrefix| && apiKey[..|KeyPrefix|] == KeyPrefix
  }

  /** The handler-facing result `{ valid: boolean; userId?: string }`. */
  datatype Validation = Validation(valid: bool, userId: Option<Id>)

  const Invalid: Validation := Validation(false, None)

  /** `apiKey.findMany({ where: { isActive: true } })`, in table order. */
  function ActiveKeys(keys: seq<ApiKey>): (r: seq<ApiKey>)
    ensures |r| <= |keys|
    ensures forall k :: k in r <==> k in keys && k.isActive
  {
    if keys == [] then []
    else (if keys[0].isActive then [keys[0]] else []) + ActiveKeys(keys[1..])
  }

  /**
   * The position of the first candidate whose hash verifies against the
   * presented key, scanning from the front.
   */
  function FirstMatch(candidates: seq<ApiKey>, apiKey: string, compare: (string, string) -> bool): (r: Option<nat>)
    ensures r.Some? ==> r.value < |candidates| && compare(apiKey, candidates[r.value].key)
    ensures r.Some? ==> forall j :: 0 <= j < r.value ==> !compare(apiKey, candidates[j].key)
    ensures r.None? <==> forall j :: 0 <= j < |candidates| ==> !compare(apiKey, candidates[j].key)
  {
    if candidates == [] then None
    else if compare(apiKey, candidates[0].key) then Some(0)
    else match FirstMatch(candidates[1..], apiKey, compare)
      case None => None
      case Some(i) => Some(i + 1)
  }

  /** `apiKey.update({ where: { id }, data: { lastUsed: now } })`. */
  function TouchLastUsed(keys: seq<ApiKey>, id: Id, now: Timestamp): (r: seq<ApiKey>)
    ensures |r| == |keys|
    ensures KeyIds(r) == KeyIds(keys)
  {
    if keys == [] then []
    else [if keys[0].id == id then keys[0].(lastUsed := Some(now)) else keys[0]] + TouchLastUsed(keys[1..], id, now)
  }

  /** With unique ids, stamping `lastUsed` by id changes that one record and no other. */
  lemma {:induction false} TouchLastUsedChangesOnlyThatKey(keys: seq<ApiKey>, k: nat, now: Timestamp)
    requires k < |keys|
    requires forall i, j :: 0 <= i < j < |keys| ==> keys[i].id != keys[j].id
    ensures TouchLastUsed(keys, keys[k].id, now) == keys[k := keys[k].(lastUsed := Some(now))]
  {
    if k == 0 {
      assert forall j :: 0 <= j < |keys[1..]| ==> keys[1..][j].id != keys[0].id;
      TouchLastUsedMissingId(keys[1..], keys[0].id, now);
    } else {
      TouchLastUsedChangesOnlyThatKey(keys[1..], k - 1, now);
    }
  }

  lemma {:induction false} TouchLastUsedMissingId(keys: seq<ApiKey>, id: Id, now: Timestamp)
    requires forall j :: 0 <= j < |keys| ==> keys[j].id != id
    ensures TouchLastUsed(keys, id, now) == keys
  {
    if keys != [] {
      TouchLastUsedMissingId(keys[1..], id, now);
    }
  }

  /** One run of `validateApiKey`: its result, the key table afterwards, and the ids it compared against, in order. */
  datatype Scan = Scan(result: Validation, keys: seq<ApiKey>, compared: seq<Id>)

  /**
   * What `validateApiKey` does, as a function of the key table and of which
   * store calls throw: `findFails` for the fetch of active keys, `updateFails`
   * for the `lastUsed` write.
   */
  function Validate(
    keys: seq<ApiKey>, apiKey: string, compare: (string, string) -> bool,
    now: Timestamp, findFails: bool, updateFails: bool): Scan
  {
    if apiKey == [] || !HasKeyPrefix(apiKey) then Scan(Invalid, keys, [])
    else if findFails then Scan(Invalid, keys, [])
    else
      var candidates := ActiveKeys(keys);
      match FirstMatch(candidates, apiKey, compare)
      case None => Scan(Invalid, keys, KeyIds(candidates))
      case Some(i) =>
        assert candidates[i] in candidates;
        if updateFails then Scan(Invalid, keys, KeyIds(candidates[..i + 1]))
        else Scan(Validation(true, Some(candidates[i].userId)),
                  TouchLastUsed(keys, candidates[i].id, now),
                  KeyIds(candidates[..i + 1]))
  }

  /** The cheap guard: a key without the `inv_` prefix is invalid with no store read and no `compare`. */
  lemma PrefixGuard(
    keys: seq<ApiKey>, apiKey: string, compare: (string, string) -> bool,
    now: Timestamp, findFails: bool, updateFails: bool)
    ensures !HasKeyPrefix(apiKey) ==> Validate(keys, apiKey, compare, now, findFails, updateFails) == Scan(Invalid, keys, [])
  {
  }

  /**
   * Any exception, the failed `lastUsed` write included, reads as invalid;
   * and an invalid answer always leaves the key table as it was.
   */
  lemma FailuresReadInvalid(
    keys: seq<ApiKey>, apiKey: string, compare: (string, string) -> bool,
    now: Timestamp, findFails: bool, updateFails: bool)
    ensures var s := Validate(keys, apiKey, compare, now, findFails, updateFails);
      && (findFails || updateFails ==> s.result == Invalid)
      && (!s.result.valid ==> s.result == Invalid && s.keys == keys)
  {
  }

  /** Only active keys are handed to `compare`, each at most once, so there are at most as many calls as active keys. */
  lemma ComparesOnlyActiveKeys(
    keys: seq<ApiKey>, apiKey: string, compare: (string, string) -> bool,
    now: Timestamp, findFails: bool, updateFails: bool)
    ensures var s := Validate(keys, apiKey, compare, now, findFails, updateFails);
      && |s.compared| <= |ActiveKeys(keys)|
      && forall i :: 0 <= i < |s.compared| ==> exists k :: k in keys && k.isActive && k.id == s.compared[i]
  {
    var s := Validate(keys, apiKey, compare, now, findFails, updateFails);
    var candidates := ActiveKeys(keys);
    if apiKey != [] && HasKeyPrefix(apiKey) && !findFails {
      var m := FirstMatch(candidates, apiKey, compare);
      var prefix := if m.None? then candidates else candidates[..m.value + 1];
      assert s.compared == KeyIds(prefix);
      forall i | 0 <= i < |s.compared| ensures exists k :: k in keys && k.isActive && k.id == s.compared[i] {
        assert prefix[i] == candidates[i] && candidates[i] in candidates;
      }
    }
  }

  /** A key that verifies against no active record is invalid, and the table is untouched. */
  lemma NoVerifyingKeyIsInvalid(
    keys: seq<ApiKey>, apiKey: string, compare: (string, string) -> bool,
    now: Timestamp, findFails: bool, updateFails: bool)
    requires forall k :: k in keys && k.isActive ==> !compare(apiKey, k.key)
    ensures var s := Validate(keys, apiKey, compare, now, findFails, updateFails);
      s.result == Invalid && s.keys == keys
  {
    var candidates := ActiveKeys(keys);
    forall j | 0 <= j < |candidates| ensures !compare(apiKey, candidates[j].key) {
      assert candidates[j] in candidates;
    }
  }

  /**
   * A valid answer names the owner of the first active key that verifies:
   * no earlier one verifies, nothing after it is compared, and the only change
   * to the table is that key's `lastUsed`.
   */
  lemma FirstVerifyingKeyWins(
    keys: seq<ApiKey>, apiKey: string, compare: (string, string) -> bool,
    now: Timestamp, findFails: bool, updateFails: bool)
    ensures var s := Validate(keys, apiKey, compare, now, findFails, updateFails);
      s.result.valid ==>
        var candidates := ActiveKeys(keys);
        var m := FirstMatch(candidates, apiKey, compare);
        && m.Some? && m.value < |candidates|
        && compare(apiKey, candidates[m.value].key)
        && (forall j :: 0 <= j < m.value ==> !compare(apiKey, candidates[j].key))
        && s.result.userId == Some(candidates[m.value].userId)
        && s.compared == KeyIds(candidates[..m.value + 1])
        && s.keys == TouchLastUsed(keys, candidates[m.value].id, now)
  {
  }

  /** A valid answer names the owner of an active key whose stored hash verifies against the presented key. */
  lemma ValidMeansActiveOwner(
    keys: seq<ApiKey>, apiKey: string, compare: (string, string) -> bool,
    now: Timestamp, findFails: bool, updateFails: bool)
    ensures var s := Validate(keys, apiKey, compare, now, findFails, updateFails);
      s.result.valid ==>
        s.result.userId.Some? &&
        exists k :: k in keys && k.isActive && k.userId == s.result.userId.value && compare(apiKey, k.key)
  {
    var s := Validate(keys, apiKey, compare, now, findFails, updateFails);
    if s.result.valid {
      var candidates := ActiveKeys(keys);
      var i := FirstMatch(candidates, apiKey, compare).value;
      assert candidates[i] in candidates;
    }
  }

  /**
   * The `for (const key of apiKeys)` loop of `validateApiKey`: compares the
   * presented key with each candidate's hash in order and stops at the first
   * that verifies. `compared` lists the ids handed to `compare`.
   */
  method ScanCandidates(candidates: seq<ApiKey>, apiKey: string, compare: (string, string) -> bool)
    returns (found: Option<nat>, compared: seq<Id>)
    ensures found == FirstMatch(candidates, apiKey, compare)
    ensures found.Some? ==> compared == KeyIds(candidates[..found.value + 1])
    ensures found.None? ==> compared == KeyIds(candidates)
  {
    found, compared := None, [];
    var i := 0;
    while i < |candidates|
      invariant 0 <= i <= |candidates|
      invariant compared == KeyIds(candidates[..i])
      invariant forall j :: 0 <= j < i ==> !compare(apiKey, candidates[j].key)
    {
      KeyIdsExtend(candidates, i);
      compared := compared + [candidates[i].id];
      if compare(apiKey, candidates[i].key) {
        FirstMatchIsFirst(candidates, apiKey, compare, i);
        found := Some(i);
        return;
      }
      i := i + 1;
    }
    assert candidates[..i] == candidates;
  }

  lemma KeyIdsExtend(keys: seq<ApiKey>, i: nat)
    requires i < |keys|
    ensures KeyIds(keys[..i + 1]) == KeyIds(keys[..i]) + [keys[i].id]
  {
    assert keys[..i + 1] == keys[..i] + [keys[i]];
  }

  /**
   * `validateApiKey(apiKey)` against the store `db`. The fetch of active keys
   * and the `lastUsed` write may throw, as `findFails` and `updateFails` say;
   * `now` is `new Date()`. `compared` lists the ids handed to `compare`.
   */
  method ValidateApiKey(
    db: Db, apiKey: string, bcrypt: Hasher, now: Timestamp, findFails: bool, updateFails: bool)
    returns (result: Validation, compared: seq<Id>)
    requires db.Valid()
    modifies db`apiKeys
    ensures db.Valid()
    ensures Scan(result, db.apiKeys, compared) == Validate(old(db.apiKeys), apiKey, bcrypt.compare, now, findFails, updateFails)
  {
    var keys, compare := db.apiKeys, bcrypt.compare;
    result, compared := Invalid, [];
    if apiKey == [] || !HasKeyPrefix(apiKey) {
      return;
    }
    if findFails {
      return;
    }
    var candidates := ActiveKeys(keys);
    var found;
    found, compared := ScanCandidates(candidates, apiKey, compare);
    if found.None? || updateFails {
      return;
    }
    var key := candidates[found.value];
    var touched := TouchLastUsed(keys, key.id, now);
    assert Validate(keys, apiKey, compare, now, findFails, updateFails) == Scan(Validation(true, Some(key.userId)), touched, compared);
    ConsistentReplaceKeys(db.users, keys, db.rooms, db.categories, db.items, db.nextId, touched);
    db.SetApiKeys(touched);
    result := Validation(true, Some(key.userId));
  }

  /** The candidate that verifies with none verifying before it is the one `FirstMatch` finds. */
  lemma FirstMatchIsFirst(candidates: seq<ApiKey>, apiKey: string, compare: (string, string) -> bool, i: nat)
    requires i < |candidates| && compare(apiKey, candidates[i].key)
    requires forall j :: 0 <= j < i ==> !compare(apiKey, candidates[j].key)
    ensures FirstMatch(candidates, apiKey, compare) == Some(i)
  {
  }
}
