/**
 * `/api/rooms`: listing the caller's rooms with their categories and items,
 * and creating a room.
 */
module RoomsRoute {
  import opened Wrappers
  import opened Http
  import opened Store

  /** The body of `POST /api/rooms`, field by field as `req.json()` gives it. */
  datatype RoomBody = RoomBody(name: Field<string>, description: Field<string>)

  /** The fields of `roomSchema`, in schema order. */
  datatype RoomField = Name | Description

  const RoomFields: seq<RoomField> := [Name, Description]

  function RoomPath(f: RoomField): string
  {
    match f
    case Name => "name"
    case Description => "description"
  }

  /** Whether `roomSchema` accepts one field of the body. */
  predicate RoomFieldAccepted(f: RoomField, body: RoomBody)
  {
    match f
    case Name => StringWithin(body.name, 1, 100)
    case Description => OptionalString(body.description)
  }

  /** The position of a field in `RoomFields`. */
  function Rank(f: RoomField): (k: nat)
    ensures k < |RoomFields| && RoomFields[k] == f
  {
    match f
    case Name => 0
    case Description => 1
  }

  /** The fields `roomSchema.parse` raises issues for: exactly the refused ones, each once, in schema order. */
  function RoomIssues(body: RoomBody): (fields: seq<RoomField>)
    ensures forall i :: 0 <= i < |fields| ==> !RoomFieldAccepted(fields[i], body)
    ensures forall f :: !RoomFieldAccepted(f, body) ==> f in fields
    ensures forall i, j :: 0 <= i < j < |fields| ==> Rank(fields[i]) < Rank(fields[j])
  {
    var accepted := (f: RoomField) => RoomFieldAccepted(f, body);
    var fields := Refused(RoomFields, accepted);
    assert forall k :: 0 <= k < |RoomFields| ==> Rank(RoomFields[k]) == k;
    assert forall i, j :: 0 <= i < j < |RoomFields| ==> Rank(RoomFields[i]) < Rank(RoomFields[j]);
    RefusedInOrder(RoomFields, accepted, Rank);
    forall f | !RoomFieldAccepted(f, body) ensures f in fields {
      assert RoomFields[Rank(f)] == f;
    }
    fields
  }

  /** The fields `roomSchema.parse` returns. */
  datatype RoomInput = RoomInput(name: string, description: Option<string>)

  /** `roomSchema.parse(body)`: the typed input when no field is refused. */
  function RoomSchema(body: RoomBody): (r: Parse<RoomInput, RoomField>)
    ensures r.Parsed? <==> RoomIssues(body) == []
    ensures r.Parsed? ==>
      && body.name.Given? && r.value.name == body.name.value && 1 <= JsLength(r.value.name) <= 100
      && r.value.description == (if body.description.Given? then Some(body.description.value) else None)
    ensures r.Rejected? ==> r.fields != [] && r.fields == RoomIssues(body)
  {
    var fields := RoomIssues(body);
    if fields != [] then
      Rejected(fields)
    else
      assert RoomFieldAccepted(Name, body);
      Parsed(RoomInput(body.name.value, if body.description.Given? then Some(body.description.value) else None))
  }

  /** What one `POST /api/rooms` does: the answer and the rooms it adds. Creating a room is not logged. */
  datatype RoomCreation = RoomCreation(response: Response<Room>, added: seq<Room>)

  /**
   * `POST /api/rooms` on the tables as they are. `nextId` is the id the new
   * room gets, `now` its creation time and `createFails` whether
   * `room.create` throws.
   */
  function CreateRoomOutcome(nextId: Id, user: Option<Id>, body: RoomBody, now: Timestamp, createFails: bool): RoomCreation
  {
    if user.None? then RoomCreation(Unauthorized401(), [])
    else
      var parsed := RoomSchema(body);
      if parsed.Rejected? then RoomCreation(Fail(400, Issues(Paths(parsed.fields, RoomPath))), [])
      else if createFails then RoomCreation(InternalError500(), [])
      else
        var room := Room(nextId, parsed.value.name, parsed.value.description, user.value, now);
        RoomCreation(Ok(room), [room])
  }

  /**
   * `POST /api/rooms` answers 401 without a session, 400 with the refused
   * fields, 500 when the insert fails and otherwise the one room it adds,
   * owned by the caller and carrying the validated fields.
   */
  lemma CreateRoomCases(nextId: Id, user: Option<Id>, body: RoomBody, now: Timestamp, createFails: bool)
    ensures var o := CreateRoomOutcome(nextId, user, body, now, createFails);
      && (user.None? ==> o.response == Fail(401, Message("Unauthorized")))
      && (user.Some? && RoomIssues(body) != [] ==> o.response == Fail(400, Issues(Paths(RoomIssues(body), RoomPath))))
      && (user.Some? && RoomIssues(body) == [] && createFails ==>
            o.response == Fail(500, Message("Internal server error")))
      && (o.response.Fail? <==> o.added == [])
      && (o.response.Ok? ==>
            && user.Some? && RoomIssues(body) == [] && !createFails
            && o.added == [o.response.body]
            && o.response.body == Room(nextId, body.name.value, RoomSchema(body).value.description, user.value, now)
            && 1 <= JsLength(o.response.body.name) <= 100)
  {
  }

  /** `POST /api/rooms`, applied to the store: the room table grows by exactly what `CreateRoomOutcome` says. */
  method CreateRoom(db: Db, user: Option<Id>, body: RoomBody, now: Timestamp, createFails: bool)
    returns (r: Response<Room>)
    requires db.Valid()
    modifies db`rooms, db`nextId
    ensures db.Valid()
    ensures var o := CreateRoomOutcome(old(db.nextId), user, body, now, createFails);
      && r == o.response
      && (r.Ok? ==> db.rooms == old(db.rooms) + o.added && db.nextId == old(db.nextId) + 1)
      && (r.Fail? ==> unchanged(db))
  {
    var n := db.nextId;
    var o := CreateRoomOutcome(n, user, body, now, createFails);
    if o.response.Ok? {
      ConsistentAddRoom(db.users, db.apiKeys, db.rooms, db.categories, db.items, n, o.added, n + 1);
      db.rooms, db.nextId := db.rooms + o.added, n + 1;
    }
    r := o.response;
  }

  /**
   * `GET /api/rooms`: 401 without a session, 500 when `room.findMany`
   * throws (`findFails`), otherwise the caller's rooms, newest first, each
   * with its categories and their items.
   */
  function ListRooms(db: Db, user: Option<Id>, findFails: bool): (r: Response<seq<RoomTree>>)
    reads db
    ensures user.None? <==> r == Fail(401, Message("Unauthorized"))
    ensures user.Some? && findFails <==> r == Fail(500, Message("Internal server error"))
    ensures user.Some? && !findFails ==> r.Ok?
    ensures r.Ok? ==> TreeRooms(r.body) == NewestFirstRooms(db.rooms, user.value)
  {
    if user.None? then Unauthorized401()
    else if findFails then InternalError500()
    else Ok(UserRoomTrees(db.rooms, db.categories, db.items, user.value))
  }

  /**
   * Everything `GET /api/rooms` answers belongs to the caller: every room is
   * theirs, every category lies in the room it is listed under and every
   * item in the category it is listed under, and the rooms come newest first.
   */
  lemma ListedRoomsBelongToCaller(db: Db, user: Option<Id>, findFails: bool)
    ensures var r := ListRooms(db, user, findFails);
      r.Ok? ==>
        && (forall i, j :: 0 <= i < j < |r.body| ==> r.body[i].room.createdAt >= r.body[j].room.createdAt)
        && forall i :: 0 <= i < |r.body| ==>
          var tree := r.body[i];
          && tree.room in db.rooms && tree.room.userId == user.value
          && forall j :: 0 <= j < |tree.categories| ==>
            var c := tree.categories[j];
            && c.category in db.categories && c.category.roomId == tree.room.id
            && forall k :: 0 <= k < |c.items| ==> c.items[k] in db.items && c.items[k].categoryId == c.category.id
  {
    var r := ListRooms(db, user, findFails);
    if r.Ok? {
      var rooms := NewestFirstRooms(db.rooms, user.value);
      var trees := RoomTrees(rooms, db.categories, db.items);
      assert r.body == trees;
      forall i | 0 <= i < |trees|
        ensures var tree := trees[i];
          && tree.room in db.rooms && tree.room.userId == user.value
          && forall j :: 0 <= j < |tree.categories| ==>
            var c := tree.categories[j];
            && c.category in db.categories && c.category.roomId == tree.room.id
            && forall k :: 0 <= k < |c.items| ==> c.items[k] in db.items && c.items[k].categoryId == c.category.id
      {
        assert trees[i].room == rooms[i];
        var cs := CategoriesOfRoom(db.categories, rooms[i].id);
        assert trees[i].categories == CategoryTrees(cs, db.items);
      }
    }
  }
}
