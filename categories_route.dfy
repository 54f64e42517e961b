/**
 * `POST /api/categories`: creating a category in one of the caller's rooms.
 * The new category is answered together with its items, of which there are
 * none yet.
 */
module CategoriesRoute {
  import opened Wrappers
  import opened Http
  import opened Store

  /** The body of `POST /api/categories`, field by field as `req.json()` gives it. */
  datatype CategoryBody = CategoryBody(name: Field<string>, description: Field<string>, roomId: Field<Id>)

  /** The fields of `categorySchema`, in schema order. */
  datatype CategoryField = Name | Description | RoomId

  const CategoryFields: seq<CategoryField> := [Name, Description, RoomId]

  function CategoryPath(f: CategoryField): string
  {
    match f
    case Name => "name"
    case Description => "description"
    case RoomId => "roomId"
  }

  /** Whether `categorySchema` accepts one field of the body. */
  predicate CategoryFieldAccepted(f: CategoryField, body: CategoryBody)
  {
    match f
    case Name => StringWithin(body.name, 1, 100)
    case Description => OptionalString(body.description)
    case RoomId => body.roomId.Given?
  }

  function Rank(f: CategoryField): (k: nat)
    ensures k < |CategoryFields| && CategoryFields[k] == f
  {
    match f
    case Name => 0
    case Description => 1
    case RoomId => 2
  }

  /** The fields `categorySchema.parse` raises issues for: exactly the refused ones, each once, in schema order. */
  function CategoryIssues(body: CategoryBody): (fields: seq<CategoryField>)
    ensures forall i :: 0 <= i < |fields| ==> !CategoryFieldAccepted(fields[i], body)
    ensures forall f :: !CategoryFieldAccepted(f, body) ==> f in fields
    ensures forall i, j :: 0 <= i < j < |fields| ==> Rank(fields[i]) < Rank(fields[j])
  {
    var accepted := (f: CategoryField) => CategoryFieldAccepted(f, body);
    var fields := Refused(CategoryFields, accepted);
    assert forall k :: 0 <= k < |CategoryFields| ==> Rank(CategoryFields[k]) == k;
    assert forall i, j :: 0 <= i < j < |CategoryFields| ==> Rank(CategoryFields[i]) < Rank(CategoryFields[j]);
    RefusedInOrder(CategoryFields, accepted, Rank);
    forall f | !CategoryFieldAccepted(f, body) ensures f in fields {
      assert CategoryFields[Rank(f)] == f;
    }
    fields
  }

  /** The fields `categorySchema.parse` returns. */
  datatype CategoryInput = CategoryInput(name: string, description: Option<string>, roomId: Id)

  /** `categorySchema.parse(body)`: the typed input when no field is refused. */
  function CategorySchema(body: CategoryBody): (r: Parse<CategoryInput, CategoryField>)
    ensures r.Parsed? <==> CategoryIssues(body) == []
    ensures r.Parsed? ==>
      && body.name.Given? && body.roomId.Given?
      && r.value.name == body.name.value && 1 <= JsLength(r.value.name) <= 100
      && r.value.description == (if body.description.Given? then Some(body.description.value) else None)
      && r.value.roomId == body.roomId.value
    ensures r.Rejected? ==> r.fields != [] && r.fields == CategoryIssues(body)
  {
    var fields := CategoryIssues(body);
    if fields != [] then
      Rejected(fields)
    else
      assert CategoryFieldAccepted(Name, body) && CategoryFieldAccepted(RoomId, body);
      Parsed(CategoryInput(
        body.name.value,
        if body.description.Given? then Some(body.description.value) else None,
        body.roomId.value))
  }

  /** The answer `{ category }`, with `include: { items: true }`. */
  datatype CategoryWithItems = CategoryWithItems(category: Category, items: seq<Item>)

  /** The `activityLog.create` record of a created category. */
  function CreatedCategoryLog(id: Id, category: Category, user: Id, now: Timestamp): ActivityLog
  {
    ActivityLog(id, "created", "category", category.id, category.name, user, None, now)
  }

  /**
   * What one `POST /api/categories` does: the answer, the rows it adds to the
   * category and activity-log tables, and how many ids it issues.
   */
  datatype CategoryCreation = CategoryCreation(
    response: Response<CategoryWithItems>, added: seq<Category>, logged: seq<ActivityLog>, issued: nat)

  /**
   * `POST /api/categories` on the tables as they are. `nextId` is the next id
   * to issue, `now` the creation time, `findFails` whether `room.findFirst`
   * throws, `createFails` whether `category.create` throws and `logFails` whether the activity-log write
   * throws (its failure is swallowed).
   */
  function CreateCategoryOutcome(
    rooms: seq<Room>, items: seq<Item>, nextId: Id, user: Option<Id>, body: CategoryBody,
    now: Timestamp, findFails: bool, createFails: bool, logFails: bool): CategoryCreation
  {
    if user.None? then CategoryCreation(Unauthorized401(), [], [], 0)
    else
      var parsed := CategorySchema(body);
      if parsed.Rejected? then CategoryCreation(Fail(400, Issues(Paths(parsed.fields, CategoryPath))), [], [], 0)
      else
        var input := parsed.value;
        var room := FindOwnedRoom(rooms, input.roomId, user.value);
        if findFails then CategoryCreation(InternalError500(), [], [], 0)
        else if room.None? then CategoryCreation(Fail(404, Message("Room not found")), [], [], 0)
        else if createFails then CategoryCreation(InternalError500(), [], [], 0)
        else
          var category := Category(nextId, input.name, input.description, input.roomId, now);
          var answer := Ok(CategoryWithItems(category, ItemsOfCategory(items, category.id)));
          if logFails then CategoryCreation(answer, [category], [], 1)
          else CategoryCreation(answer, [category], [CreatedCategoryLog(nextId + 1, category, user.value, now)], 2)
  }

  /**
   * The refusals of `POST /api/categories`, in the order the handler checks:
   * no session, a body the schema refuses, a failing room lookup, a room the
   * caller does not own, a failing insert. Each adds nothing and issues no id.
   */
  lemma CreateCategoryRefusals(
    rooms: seq<Room>, items: seq<Item>, nextId: Id, user: Option<Id>, body: CategoryBody,
    now: Timestamp, findFails: bool, createFails: bool, logFails: bool)
    ensures var o := CreateCategoryOutcome(rooms, items, nextId, user, body, now, findFails, createFails, logFails);
      && (user.None? ==> o.response == Fail(401, Message("Unauthorized")))
      && (user.Some? && CategoryIssues(body) != [] ==>
            o.response == Fail(400, Issues(Paths(CategoryIssues(body), CategoryPath))))
      && (user.Some? && CategoryIssues(body) == [] ==>
            var owned := RoomOwnedBy(rooms, body.roomId.value, user.value);
            && (findFails ==> o.response == Fail(500, Message("Internal server error")))
            && (!findFails && !owned ==> o.response == Fail(404, Message("Room not found")))
            && (!findFails && owned && createFails ==> o.response == Fail(500, Message("Internal server error")))
            && (!findFails && owned && !createFails ==> o.response.Ok?))
      && (o.response.Fail? ==> o.added == [] && o.logged == [] && o.issued == 0)
  {
    if user.Some? {
      var parsed := CategorySchema(body);
      if parsed.Parsed? {
        assert parsed.value.roomId == body.roomId.value;
      }
    }
  }

  /**
   * A successful `POST /api/categories` adds exactly one category, with the
   * validated fields, under a room the caller owns, and logs its creation
   * unless the log write fails.
   */
  lemma CreateCategoryAddsOne(
    rooms: seq<Room>, items: seq<Item>, nextId: Id, user: Option<Id>, body: CategoryBody,
    now: Timestamp, findFails: bool, createFails: bool, logFails: bool)
    ensures var o := CreateCategoryOutcome(rooms, items, nextId, user, body, now, findFails, createFails, logFails);
      o.response.Ok? ==>
        var input := CategorySchema(body).value;
        var category := Category(nextId, input.name, input.description, input.roomId, now);
        && user.Some? && CategorySchema(body).Parsed? && !findFails && !createFails
        && 1 <= JsLength(category.name) <= 100
        && RoomOwnedBy(rooms, category.roomId, user.value)
        && o.response.body.category == category && o.added == [category]
        && o.logged == (if logFails then [] else [CreatedCategoryLog(nextId + 1, category, user.value, now)])
        && o.issued == |o.added| + |o.logged|
  {
  }

  /** A new category starts with no items: every stored item belongs to an older category. */
  lemma CreatedCategoryIsEmpty(
    rooms: seq<Room>, items: seq<Item>, nextId: Id, user: Option<Id>, body: CategoryBody,
    now: Timestamp, findFails: bool, createFails: bool, logFails: bool)
    requires forall i :: 0 <= i < |items| ==> items[i].categoryId < nextId
    ensures var o := CreateCategoryOutcome(rooms, items, nextId, user, body, now, findFails, createFails, logFails);
      o.response.Ok? ==> o.response.body.items == []
  {
    NoItemsOfUnusedCategory(items, nextId);
  }

  /** Whether the activity-log write fails makes no difference to the answer or to the category table. */
  lemma CreateCategoryLogIsBestEffort(
    rooms: seq<Room>, items: seq<Item>, nextId: Id, user: Option<Id>, body: CategoryBody,
    now: Timestamp, findFails: bool, createFails: bool)
    ensures var written := CreateCategoryOutcome(rooms, items, nextId, user, body, now, findFails, createFails, false);
      var lost := CreateCategoryOutcome(rooms, items, nextId, user, body, now, findFails, createFails, true);
      written.response == lost.response && written.added == lost.added && lost.logged == []
  {
  }

  /** A created category lies in a room the tables already hold, under the one new id. */
  lemma CreatedCategoryInStoredRoom(
    rooms: seq<Room>, items: seq<Item>, nextId: Id, user: Option<Id>, body: CategoryBody,
    now: Timestamp, findFails: bool, createFails: bool, logFails: bool)
    requires RoomsIssuedBelow(rooms, nextId)
    ensures var o := CreateCategoryOutcome(rooms, items, nextId, user, body, now, findFails, createFails, logFails);
      o.response.Ok? ==>
        |o.added| == 1 && o.added[0].id == nextId && o.added[0].roomId < nextId && nextId < nextId + o.issued
  {
    var o := CreateCategoryOutcome(rooms, items, nextId, user, body, now, findFails, createFails, logFails);
    if o.response.Ok? {
      var r := FindOwnedRoom(rooms, o.added[0].roomId, user.value);
      RoomIdIssued(rooms, r.value, nextId);
    }
  }

  /** `POST /api/categories`, applied to the store: the tables grow by exactly what `CreateCategoryOutcome` says. */
  method CreateCategory(
    db: Db, user: Option<Id>, body: CategoryBody, now: Timestamp, findFails: bool, createFails: bool, logFails: bool)
    returns (r: Response<CategoryWithItems>)
    requires db.Valid()
    modifies db`categories, db`activityLogs, db`nextId
    ensures db.Valid()
    ensures var o := CreateCategoryOutcome(old(db.rooms), old(db.items), old(db.nextId), user, body, now, findFails, createFails, logFails);
      && r == o.response
      && (r.Ok? ==> db.categories == old(db.categories) + o.added && db.activityLogs == old(db.activityLogs) + o.logged
                    && db.nextId == old(db.nextId) + o.issued)
      && (r.Fail? ==> unchanged(db))
  {
    var rooms, items, n := db.rooms, db.items, db.nextId;
    var o := CreateCategoryOutcome(rooms, items, n, user, body, now, findFails, createFails, logFails);
    if o.response.Ok? {
      CreatedCategoryInStoredRoom(rooms, items, n, user, body, now, findFails, createFails, logFails);
      ConsistentAddCategory(db.users, db.apiKeys, rooms, db.categories, items, n, o.added, n + o.issued);
      db.AppendCategories(o.added, o.logged, n + o.issued);
    }
    r := o.response;
  }
}
