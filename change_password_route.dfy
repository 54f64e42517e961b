/**
 * `POST /api/auth/change-password`: a signed-in user replaces their password
 * after proving they know the current one. The body is checked by
 * `passwordSchema` and the first zod issue's message is answered on failure.
 */
module ChangePasswordRoute {
  import opened Wrappers
  import opened Http
  import opened Store
  import opened Bcrypt

  const CurrentRequired := "Current password is required"
  const NewTooShort := "New password must be at least 8 characters"
  const Mismatch := "Passwords don't match"

  /**
   * The issue zod raises for one `z.string()` field with a `min` check, if
   * any: "Required" for an absent key, an `invalid_type` message for another
   * JSON type, and the field's own message when the string is too short.
   */
  function StringIssue(f: Field<string>, min: nat, tooShort: string): (r: Option<string>)
    ensures r.None? <==> f.Given? && JsLength(f.value) >= min
    ensures f.Given? && JsLength(f.value) < min ==> r == Some(tooShort)
    ensures f.Missing? ==> r == Some("Required")
  {
    match f
    case Missing => Some("Required")
    case Mistyped(received) => Some("Expected string, received " + received)
    case Given(s) => if JsLength(s) < min then Some(tooShort) else None
  }

  function Issues(o: Option<string>): seq<string>
  {
    if o.None? then [] else [o.value]
  }

  /**
   * The messages of the issues `passwordSchema.parse` collects, in order:
   * the three fields' own checks, then the `refine`. A wrong type or an absent
   * key aborts the object, so the refine runs only when all three fields are
   * strings; a too-short string only marks it dirty, and the refine still runs.
   */
  function PasswordIssues(currentPassword: Field<string>, newPassword: Field<string>, confirmPassword: Field<string>): (issues: seq<string>)
    ensures issues == [] <==>
      && currentPassword.Given? && newPassword.Given? && confirmPassword.Given?
      && JsLength(currentPassword.value) >= 1 && JsLength(newPassword.value) >= 8
      && newPassword.value == confirmPassword.value
    ensures newPassword.Given? && JsLength(newPassword.value) < 8 ==> NewTooShort in issues
    ensures currentPassword.Given? && newPassword.Given? && confirmPassword.Given? && newPassword.value != confirmPassword.value ==>
      issues != [] && issues[|issues| - 1] == Mismatch
    ensures currentPassword.Given? && JsLength(currentPassword.value) < 1 ==> issues != [] && issues[0] == CurrentRequired
    ensures currentPassword.Given? && JsLength(currentPassword.value) >= 1 && newPassword.Given? && JsLength(newPassword.value) < 8 ==>
      issues != [] && issues[0] == NewTooShort
  {
    var fieldIssues := Issues(StringIssue(currentPassword, 1, CurrentRequired))
      + Issues(StringIssue(newPassword, 8, NewTooShort))
      + Issues(StringIssue(confirmPassword, 0, ""));
    var refineRuns := currentPassword.Given? && newPassword.Given? && confirmPassword.Given?;
    fieldIssues + (if refineRuns && newPassword.value != confirmPassword.value then [Mismatch] else [])
  }

  /** `prisma.user.findUnique({ where: { id } })`. */
  function FindUser(users: seq<User>, id: Id): (r: Option<User>)
    ensures r.Some? ==> r.value in users && r.value.id == id
    ensures r.None? <==> forall i :: 0 <= i < |users| ==> users[i].id != id
  {
    if users == [] then None
    else if users[0].id == id then Some(users[0])
    else FindUser(users[1..], id)
  }

  /** `prisma.user.update({ where: { id }, data: { password } })`. */
  function SetPassword(users: seq<User>, id: Id, password: string): (r: seq<User>)
    ensures |r| == |users| && UserIds(r) == UserIds(users)
    ensures forall i :: 0 <= i < |users| ==>
      r[i] == if users[i].id == id then users[i].(password := password) else users[i]
  {
    if users == [] then []
    else
      var head := if users[0].id == id then users[0].(password := password) else users[0];
      [head] + SetPassword(users[1..], id, password)
  }

  /**
   * With distinct ids, the update rewrites exactly the one record `findUnique`
   * found and leaves every other user as it was.
   */
  lemma {:induction false} SetPasswordChangesOnlyThatUser(users: seq<User>, k: nat, password: string)
    requires Distinct(UserIds(users)) && k < |users|
    ensures SetPassword(users, users[k].id, password) == users[k := users[k].(password := password)]
  {
    var r := SetPassword(users, users[k].id, password);
    forall i | 0 <= i < |users| ensures r[i] == users[k := users[k].(password := password)][i] {
      if i != k {
        assert UserIds(users)[i] != UserIds(users)[k];
      }
    }
  }

  /**
   * `POST /api/auth/change-password`. `current`, `newPassword` and `confirm` are the
   * body's three fields; `hasher.hash(newPassword, salt)` is `hash(newPassword, 12)`;
   * `findFails` says whether `user.findUnique` throws and `updateFails` whether
   * the update throws.
   */
  method ChangePassword(
    db: Db, user: Option<Id>, currentPassword: Field<string>, newPassword: Field<string>, confirmPassword: Field<string>,
    hasher: Hasher, salt: Salt, findFails: bool, updateFails: bool)
    returns (r: Response<string>)
    requires db.Valid()
    modifies db`users
    ensures db.Valid()
    ensures r.Fail? ==> db.users == old(db.users)
    ensures user.None? ==> r == Fail(401, Message("Unauthorized"))
    ensures user.Some? && PasswordIssues(currentPassword, newPassword, confirmPassword) != [] ==>
      r == Fail(400, Message(PasswordIssues(currentPassword, newPassword, confirmPassword)[0]))
    ensures user.Some? && PasswordIssues(currentPassword, newPassword, confirmPassword) == [] ==>
      var found := FindUser(old(db.users), user.value);
      && (findFails ==> r == Fail(500, Message("Internal server error")))
      && (!findFails && found.None? ==> r == Fail(404, Message("User not found")))
      && (!findFails && found.Some? && !hasher.compare(currentPassword.value, found.value.password) ==>
            r == Fail(400, Message("Current password is incorrect")))
      && (!findFails && found.Some? && hasher.compare(currentPassword.value, found.value.password) && updateFails ==>
            r == Fail(500, Message("Internal server error")))
      && (!findFails && found.Some? && hasher.compare(currentPassword.value, found.value.password) && !updateFails ==>
            r.Ok?)
    // the update happens only after every check has passed
    ensures r.Ok? ==>
      && user.Some? && PasswordIssues(currentPassword, newPassword, confirmPassword) == []
      && !findFails && FindUser(old(db.users), user.value).Some?
      && hasher.compare(currentPassword.value, FindUser(old(db.users), user.value).value.password)
      && !updateFails
      && r.body == "Password updated successfully"
      && db.users == SetPassword(old(db.users), user.value, hasher.hash(newPassword.value, salt))
  {
    if user.None? {
      return Unauthorized401();
    }
    var issues := PasswordIssues(currentPassword, newPassword, confirmPassword);
    if issues != [] {
      return Fail(400, Message(issues[0]));
    }
    var users, compare, hash := db.users, hasher.compare, hasher.hash;
    if findFails {
      return InternalError500();
    }
    var found := FindUser(users, user.value);
    if found.None? {
      return Fail(404, Message("User not found"));
    }
    if !compare(currentPassword.value, found.value.password) {
      return Fail(400, Message("Current password is incorrect"));
    }
    var hashed := hash(newPassword.value, salt);
    if updateFails {
      return InternalError500();
    }
    var updated := SetPassword(users, user.value, hashed);
    ConsistentReplaceUsers(users, db.apiKeys, db.rooms, db.categories, db.items, db.nextId, updated);
    db.SetUsers(updated);
    return Ok("Password updated successfully");
  }

  /**
   * After a successful change, the new password verifies against the stored
   * hash and the stored value is not the plaintext.
   */
  lemma NewPasswordVerifies(users: seq<User>, k: nat, newPassword: string, hasher: Hasher, salt: Salt)
    requires Sound(hasher) && Distinct(UserIds(users)) && k < |users|
    ensures var updated := SetPassword(users, users[k].id, hasher.hash(newPassword, salt));
      && hasher.compare(newPassword, updated[k].password)
      && (newPassword == [] || newPassword[0] != '$' ==> updated[k].password != newPassword)
  {
    SetPasswordChangesOnlyThatUser(users, k, hasher.hash(newPassword, salt));
  }
}
