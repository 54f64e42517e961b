/**
 * `/api/items`: creating an item in one of the caller's categories, and
 * listing every item of the caller's rooms, newest first.
 */
module ItemsRoute {
  import opened Wrappers
  import opened Http
  import opened Store
  import Seqs

  /** The fields `itemSchema.parse` returns. */
  datatype ItemInput = ItemInput(
    name: string,
    description: Option<string>,
    quantity: int,
    lowStockThreshold: int,
    categoryId: Id,
    imageUrl: Option<string>)

  /** `lowStockThreshold` when the body leaves it out (`.default(10)`). */
  const DefaultLowStockThreshold := 10

  /** The body of `POST /api/items`, field by field as `req.json()` gives it. */
  datatype ItemBody = ItemBody(
    name: Field<string>,
    description: Field<string>,
    quantity: Field<real>,
    lowStockThreshold: Field<real>,
    categoryId: Field<Id>,
    imageUrl: Field<string>)

  /** The fields of `itemSchema`, in schema order, named in issue paths by `ItemPath`. */
  datatype ItemField = Name | Description | Quantity | LowStockThreshold | CategoryId | ImageUrl

  const ItemFields: seq<ItemField> := [Name, Description, Quantity, LowStockThreshold, CategoryId, ImageUrl]

  function ItemPath(f: ItemField): string
  {
    match f
    case Name => "name"
    case Description => "description"
    case Quantity => "quantity"
    case LowStockThreshold => "lowStockThreshold"
    case CategoryId => "categoryId"
    case ImageUrl => "imageUrl"
  }

  /**
   * Whether `itemSchema` accepts one field of the body; `isUrl` is zod's URL
   * test. `lowStockThreshold` and `imageUrl` may be absent; `null` is refused
   * everywhere.
   */
  predicate ItemFieldAccepted(f: ItemField, body: ItemBody, isUrl: string -> bool)
  {
    match f
    case Name => StringWithin(body.name, 1, 100)
    case Description => OptionalString(body.description)
    case Quantity => body.quantity.Given? && IsNonNegativeInt(body.quantity.value)
    case LowStockThreshold =>
      body.lowStockThreshold.Missing? || (body.lowStockThreshold.Given? && IsNonNegativeInt(body.lowStockThreshold.value))
    case CategoryId => body.categoryId.Given?
    case ImageUrl => body.imageUrl.Missing? || (body.imageUrl.Given? && isUrl(body.imageUrl.value))
  }

  /** The position of a field in `ItemFields`. */
  function Rank(f: ItemField): (k: nat)
    ensures k < |ItemFields| && ItemFields[k] == f
  {
    match f
    case Name => 0
    case Description => 1
    case Quantity => 2
    case LowStockThreshold => 3
    case CategoryId => 4
    case ImageUrl => 5
  }

  /**
   * The issues `z.number().int().min(0)` raises for a number field, each
   * naming `f`: a present number runs both checks and reports every one that
   * fails, `int` first; an absent field is refused unless `optional` (the
   * `.default(10)`), and a mistyped one raises a single type issue.
   */
  function NumberIssues(x: Field<real>, optional: bool, f: ItemField): seq<ItemField>
  {
    match x
    case Missing => Check(optional, f)
    case Mistyped(_) => [f]
    case Given(v) => Check(v.Floor as real == v, f) + Check(v >= 0.0, f)
  }

  /** A present number that is neither an integer nor at least 0, so fails both of its checks. */
  predicate NegativeFraction(x: Field<real>)
  {
    x.Given? && x.value.Floor as real != x.value && x.value < 0.0
  }

  /**
   * The issues zod raises for one field of the body. Only a number can fail
   * two checks at once: a string checked by `min(1).max(100)` is too short or
   * too long, never both.
   */
  function FieldIssues(f: ItemField, body: ItemBody, isUrl: string -> bool): (r: seq<ItemField>)
    ensures r == [] || r == [f] || r == [f, f]
    ensures r == [] <==> ItemFieldAccepted(f, body, isUrl)
    ensures r == [f, f] <==>
      (f == Quantity && NegativeFraction(body.quantity)) || (f == LowStockThreshold && NegativeFraction(body.lowStockThreshold))
  {
    match f
    case Quantity => NumberIssues(body.quantity, false, f)
    case LowStockThreshold => NumberIssues(body.lowStockThreshold, true, f)
    case _ => Check(ItemFieldAccepted(f, body, isUrl), f)
  }

  /** The issues of `fields`, one field after the other. */
  function IssuesOf(fields: seq<ItemField>, body: ItemBody, isUrl: string -> bool): (r: seq<ItemField>)
    ensures forall i :: 0 <= i < |r| ==> r[i] in fields && !ItemFieldAccepted(r[i], body, isUrl)
    ensures forall f :: f in fields && !ItemFieldAccepted(f, body, isUrl) ==> f in r
  {
    if fields == [] then []
    else
      var first := FieldIssues(fields[0], body, isUrl);
      var rest := IssuesOf(fields[1..], body, isUrl);
      assert forall f :: f in fields ==> f == fields[0] || f in fields[1..];
      assert first != [] ==> (first + rest)[0] == first[0];
      first + rest
  }

  /** Issues come field after field, so their schema positions never decrease. */
  lemma {:induction false} IssuesOfInOrder(fields: seq<ItemField>, body: ItemBody, isUrl: string -> bool)
    requires forall i, j :: 0 <= i < j < |fields| ==> Rank(fields[i]) < Rank(fields[j])
    ensures forall i, j :: 0 <= i < j < |IssuesOf(fields, body, isUrl)| ==>
      Rank(IssuesOf(fields, body, isUrl)[i]) <= Rank(IssuesOf(fields, body, isUrl)[j])
  {
    if fields != [] {
      var tail := fields[1..];
      RankedTail(fields);
      IssuesOfInOrder(tail, body, isUrl);
      var first, rest := FieldIssues(fields[0], body, isUrl), IssuesOf(tail, body, isUrl);
      assert forall k :: 0 <= k < |rest| ==> rest[k] in tail;
      assert IssuesOf(fields, body, isUrl) == first + rest;
      InOrderAppend(first, rest, fields[0]);
    }
  }

  /** Behind the first of rank-ordered fields come rank-ordered fields of larger rank. */
  lemma RankedTail(fields: seq<ItemField>)
    requires fields != []
    requires forall i, j :: 0 <= i < j < |fields| ==> Rank(fields[i]) < Rank(fields[j])
    ensures forall i, j :: 0 <= i < j < |fields[1..]| ==> Rank(fields[1..][i]) < Rank(fields[1..][j])
    ensures forall f :: f in fields[1..] ==> Rank(fields[0]) < Rank(f)
  {
    var tail := fields[1..];
    forall i, j | 0 <= i < j < |tail| ensures Rank(tail[i]) < Rank(tail[j]) {
      assert tail[i] == fields[i + 1] && tail[j] == fields[j + 1];
    }
    forall f | f in tail ensures Rank(fields[0]) < Rank(f) {
      var m :| 0 <= m < |tail| && tail[m] == f;
      assert tail[m] == fields[m + 1];
    }
  }

  /** Issues of one field followed by ordered issues of later fields are in order. */
  lemma InOrderAppend(first: seq<ItemField>, rest: seq<ItemField>, f: ItemField)
    requires forall i :: 0 <= i < |first| ==> first[i] == f
    requires forall k :: 0 <= k < |rest| ==> Rank(f) < Rank(rest[k])
    requires forall i, j :: 0 <= i < j < |rest| ==> Rank(rest[i]) <= Rank(rest[j])
    ensures forall i, j :: 0 <= i < j < |first + rest| ==> Rank((first + rest)[i]) <= Rank((first + rest)[j])
  {
    var r := first + rest;
    forall i, j | 0 <= i < j < |r| ensures Rank(r[i]) <= Rank(r[j]) {
      if j < |first| {
        assert r[i] == f && r[j] == f;
      } else if i < |first| {
        assert r[i] == f && r[j] == rest[j - |first|];
      } else {
        assert r[i] == rest[i - |first|] && r[j] == rest[j - |first|];
      }
    }
  }

  /** Over fields listed once each, a field is reported as often as its own checks fail. */
  lemma {:induction false} IssuesOfCount(fields: seq<ItemField>, body: ItemBody, isUrl: string -> bool, f: ItemField)
    requires forall i, j :: 0 <= i < j < |fields| ==> fields[i] != fields[j]
    ensures multiset(IssuesOf(fields, body, isUrl))[f] == if f in fields then |FieldIssues(f, body, isUrl)| else 0
  {
    if fields != [] {
      var tail := fields[1..];
      DistinctTail(fields);
      IssuesOfCount(tail, body, isUrl, f);
      var first := FieldIssues(fields[0], body, isUrl);
      assert IssuesOf(fields, body, isUrl) == first + IssuesOf(tail, body, isUrl);
      assert multiset(first)[f] == if f == fields[0] then |first| else 0 by {
        CountOfOneField(first, fields[0], f);
      }
      assert f in fields <==> f == fields[0] || f in tail;
    }
  }

  /** Behind the first of fields listed once each come fields listed once each, not including the first. */
  lemma DistinctTail(fields: seq<ItemField>)
    requires fields != []
    requires forall i, j :: 0 <= i < j < |fields| ==> fields[i] != fields[j]
    ensures forall i, j :: 0 <= i < j < |fields[1..]| ==> fields[1..][i] != fields[1..][j]
    ensures fields[0] !in fields[1..]
  {
    var tail := fields[1..];
    forall i, j | 0 <= i < j < |tail| ensures tail[i] != tail[j] {
      assert tail[i] == fields[i + 1] && tail[j] == fields[j + 1];
    }
    forall k | 0 <= k < |tail| ensures tail[k] != fields[0] {
      assert tail[k] == fields[k + 1];
    }
  }

  /** A list naming only `g` holds `f` as often as its length when `f` is `g`, and never otherwise. */
  lemma CountOfOneField(issues: seq<ItemField>, g: ItemField, f: ItemField)
    requires issues == [] || issues == [g] || issues == [g, g]
    ensures multiset(issues)[f] == if f == g then |issues| else 0
  {
    if issues == [g, g] {
      assert issues == [g] + [g];
    }
  }

  /**
   * The fields `itemSchema.parse` raises issues for, with their `path`s in
   * `ItemPath`: a field is listed exactly when it is refused.
   * `ItemIssuesPerCheck` says in what order and how often.
   */
  function ItemIssues(body: ItemBody, isUrl: string -> bool): (fields: seq<ItemField>)
    ensures forall i :: 0 <= i < |fields| ==> !ItemFieldAccepted(fields[i], body, isUrl)
    ensures forall f :: !ItemFieldAccepted(f, body, isUrl) ==> f in fields
  {
    var fields := IssuesOf(ItemFields, body, isUrl);
    forall f | !ItemFieldAccepted(f, body, isUrl) ensures f in fields {
      assert ItemFields[Rank(f)] == f;
    }
    fields
  }

  /**
   * zod checks every field, in schema order, and reports every failing
   * check: the issues come in schema order, and each field is listed once
   * per failing check, so a number such as `-1.5` is listed twice.
   */
  lemma ItemIssuesPerCheck(body: ItemBody, isUrl: string -> bool)
    ensures forall i, j :: 0 <= i < j < |ItemIssues(body, isUrl)| ==>
      Rank(ItemIssues(body, isUrl)[i]) <= Rank(ItemIssues(body, isUrl)[j])
    ensures forall f :: multiset(ItemIssues(body, isUrl))[f] == |FieldIssues(f, body, isUrl)|
  {
    assert forall k :: 0 <= k < |ItemFields| ==> Rank(ItemFields[k]) == k;
    IssuesOfInOrder(ItemFields, body, isUrl);
    forall f ensures multiset(ItemIssues(body, isUrl))[f] == |FieldIssues(f, body, isUrl)| {
      IssuesOfCount(ItemFields, body, isUrl, f);
      assert ItemFields[Rank(f)] == f;
    }
  }

  /** `itemSchema.parse(body)`: the typed input when no field is refused. */
  function ItemSchema(body: ItemBody, isUrl: string -> bool): (r: Parse<ItemInput, ItemField>)
    ensures r.Parsed? <==> ItemIssues(body, isUrl) == []
    ensures r.Parsed? ==>
      && body.name.Given? && body.quantity.Given? && body.categoryId.Given?
      && r.value.name == body.name.value && 1 <= JsLength(r.value.name) <= 100
      && r.value.description == (if body.description.Given? then Some(body.description.value) else None)
      && r.value.quantity >= 0 && r.value.quantity as real == body.quantity.value
      && r.value.lowStockThreshold >= 0
      && (body.lowStockThreshold.Missing? ==> r.value.lowStockThreshold == DefaultLowStockThreshold)
      && (body.lowStockThreshold.Given? ==> r.value.lowStockThreshold as real == body.lowStockThreshold.value)
      && r.value.categoryId == body.categoryId.value
      && r.value.imageUrl == (if body.imageUrl.Given? then Some(body.imageUrl.value) else None)
    ensures r.Rejected? ==> r.fields != [] && r.fields == ItemIssues(body, isUrl)
  {
    var fields := ItemIssues(body, isUrl);
    if fields != [] then
      assert !ItemFieldAccepted(fields[0], body, isUrl);
      Rejected(fields)
    else
      assert ItemFieldAccepted(Name, body, isUrl) && ItemFieldAccepted(Quantity, body, isUrl);
      assert ItemFieldAccepted(LowStockThreshold, body, isUrl) && ItemFieldAccepted(CategoryId, body, isUrl);
      Parsed(ItemInput(
        body.name.value,
        if body.description.Given? then Some(body.description.value) else None,
        body.quantity.value.Floor,
        if body.lowStockThreshold.Missing? then DefaultLowStockThreshold else body.lowStockThreshold.value.Floor,
        body.categoryId.value,
        if body.imageUrl.Given? then Some(body.imageUrl.value) else None))
  }

  /** The `activityLog.create` record of a created item. */
  function CreatedItemLog(id: Id, item: Item, user: Id, now: Timestamp): ActivityLog
  {
    ActivityLog(id, "created", "item", item.id, item.name, user, Some(item.id), now)
  }

  /**
   * What one `POST /api/items` does: the answer, the rows it adds to the item
   * and activity-log tables, and how many ids it issues.
   */
  datatype ItemCreation = ItemCreation(response: Response<Item>, added: seq<Item>, logged: seq<ActivityLog>, issued: nat)

  /**
   * `POST /api/items` on the tables as they are. `nextId` is the next id to
   * issue, `isUrl` zod's URL test, `now` the creation time, `findFails`
   * whether `category.findFirst` throws, `createFails` whether `item.create` throws and `logFails` whether the activity-log
   * write throws (its failure is swallowed).
   */
  function CreateItemOutcome(
    categories: seq<Category>, rooms: seq<Room>, nextId: Id, user: Option<Id>, body: ItemBody,
    isUrl: string -> bool, now: Timestamp, findFails: bool, createFails: bool, logFails: bool): ItemCreation
  {
    if user.None? then ItemCreation(Unauthorized401(), [], [], 0)
    else
      var parsed := ItemSchema(body, isUrl);
      if parsed.Rejected? then ItemCreation(Fail(400, Issues(Paths(parsed.fields, ItemPath))), [], [], 0)
      else
        var input := parsed.value;
        var category := FindOwnedCategory(categories, rooms, input.categoryId, user.value);
        if findFails then ItemCreation(InternalError500(), [], [], 0)
        else if category.None? then ItemCreation(Fail(404, Message("Category not found")), [], [], 0)
        else if createFails then ItemCreation(InternalError500(), [], [], 0)
        else
          var item := Item(nextId, input.name, input.description, input.quantity,
                           input.lowStockThreshold, input.categoryId, input.imageUrl, now);
          if logFails then ItemCreation(Ok(item), [item], [], 1)
          else ItemCreation(Ok(item), [item], [CreatedItemLog(nextId + 1, item, user.value, now)], 2)
  }

  /**
   * The refusals of `POST /api/items`, in the order the handler checks: no
   * session, a body the schema refuses, a failing category lookup, a
   * category outside the caller's rooms, a failing insert. Each adds nothing and issues no id.
   */
  lemma CreateItemRefusals(
    categories: seq<Category>, rooms: seq<Room>, nextId: Id, user: Option<Id>, body: ItemBody,
    isUrl: string -> bool, now: Timestamp, findFails: bool, createFails: bool, logFails: bool)
    ensures var o := CreateItemOutcome(categories, rooms, nextId, user, body, isUrl, now, findFails, createFails, logFails);
      && (user.None? ==> o.response == Fail(401, Message("Unauthorized")))
      && (user.Some? && ItemIssues(body, isUrl) != [] ==>
            o.response == Fail(400, Issues(Paths(ItemIssues(body, isUrl), ItemPath))))
      && (user.Some? && ItemIssues(body, isUrl) == [] ==>
            var owned := CategoryOwnedBy(categories, rooms, body.categoryId.value, user.value);
            && (findFails ==> o.response == Fail(500, Message("Internal server error")))
            && (!findFails && !owned ==> o.response == Fail(404, Message("Category not found")))
            && (!findFails && owned && createFails ==> o.response == Fail(500, Message("Internal server error")))
            && (!findFails && owned && !createFails ==> o.response.Ok?))
      && (o.response.Fail? ==> o.added == [] && o.logged == [] && o.issued == 0)
  {
    if user.Some? {
      var parsed := ItemSchema(body, isUrl);
      if parsed.Parsed? {
        assert parsed.value.categoryId == body.categoryId.value;
      }
    }
  }

  /**
   * A successful `POST /api/items` adds exactly one item, carrying the
   * validated fields, to a category in one of the caller's rooms, and logs its
   * creation unless the log write fails.
   */
  lemma CreateItemAddsOne(
    categories: seq<Category>, rooms: seq<Room>, nextId: Id, user: Option<Id>, body: ItemBody,
    isUrl: string -> bool, now: Timestamp, findFails: bool, createFails: bool, logFails: bool)
    ensures var o := CreateItemOutcome(categories, rooms, nextId, user, body, isUrl, now, findFails, createFails, logFails);
      o.response.Ok? ==>
        var input := ItemSchema(body, isUrl).value;
        var item := Item(nextId, input.name, input.description, input.quantity,
                         input.lowStockThreshold, input.categoryId, input.imageUrl, now);
        && user.Some? && ItemSchema(body, isUrl).Parsed? && !findFails && !createFails
        && 1 <= JsLength(item.name) <= 100 && item.quantity >= 0 && item.lowStockThreshold >= 0
        && CategoryOwnedBy(categories, rooms, item.categoryId, user.value)
        && o.response.body == item && o.added == [item]
        && o.logged == (if logFails then [] else [CreatedItemLog(nextId + 1, item, user.value, now)])
        && o.issued == |o.added| + |o.logged|
  {
  }

  /** Whether the activity-log write fails makes no difference to the answer or to the item table. */
  lemma CreateItemLogIsBestEffort(
    categories: seq<Category>, rooms: seq<Room>, nextId: Id, user: Option<Id>, body: ItemBody,
    isUrl: string -> bool, now: Timestamp, findFails: bool, createFails: bool)
    ensures var written := CreateItemOutcome(categories, rooms, nextId, user, body, isUrl, now, findFails, createFails, false);
      var lost := CreateItemOutcome(categories, rooms, nextId, user, body, isUrl, now, findFails, createFails, true);
      written.response == lost.response && written.added == lost.added && lost.logged == []
  {
  }

  /** A created item lies in a category the tables already hold, under the one new id. */
  lemma CreatedItemInStoredCategory(
    categories: seq<Category>, rooms: seq<Room>, nextId: Id, user: Option<Id>, body: ItemBody,
    isUrl: string -> bool, now: Timestamp, findFails: bool, createFails: bool, logFails: bool)
    requires CategoriesIssuedBelow(categories, nextId)
    ensures var o := CreateItemOutcome(categories, rooms, nextId, user, body, isUrl, now, findFails, createFails, logFails);
      o.response.Ok? ==>
        |o.added| == 1 && o.added[0].id == nextId && o.added[0].categoryId < nextId && nextId < nextId + o.issued
  {
    var o := CreateItemOutcome(categories, rooms, nextId, user, body, isUrl, now, findFails, createFails, logFails);
    if o.response.Ok? {
      var c := FindOwnedCategory(categories, rooms, o.added[0].categoryId, user.value);
      CategoryIdIssued(categories, c.value, nextId);
    }
  }

  /** `POST /api/items`, applied to the store: the tables grow by exactly what `CreateItemOutcome` says. */
  method CreateItem(
    db: Db, user: Option<Id>, body: ItemBody,
    isUrl: string -> bool, now: Timestamp, findFails: bool, createFails: bool, logFails: bool)
    returns (r: Response<Item>)
    requires db.Valid()
    modifies db`items, db`activityLogs, db`nextId
    ensures db.Valid()
    ensures var o := CreateItemOutcome(old(db.categories), old(db.rooms), old(db.nextId), user, body, isUrl, now, findFails, createFails, logFails);
      && r == o.response
      && (r.Ok? ==> db.items == old(db.items) + o.added && db.activityLogs == old(db.activityLogs) + o.logged
                    && db.nextId == old(db.nextId) + o.issued)
      && (r.Fail? ==> unchanged(db))
  {
    var categories, rooms, n := db.categories, db.rooms, db.nextId;
    var o := CreateItemOutcome(categories, rooms, n, user, body, isUrl, now, findFails, createFails, logFails);
    if o.response.Ok? {
      CreatedItemInStoredCategory(categories, rooms, n, user, body, isUrl, now, findFails, createFails, logFails);
      ConsistentAddItem(db.users, db.apiKeys, rooms, categories, db.items, n, o.added, n + o.issued);
      db.AppendItems(o.added, o.logged, n + o.issued);
    }
    r := o.response;
  }

  /** `where: { category: { room: { userId } } }` on items. */
  function ItemsOfUser(items: seq<Item>, categories: seq<Category>, rooms: seq<Room>, user: Id): (r: seq<Item>)
    ensures forall i :: 0 <= i < |r| ==> r[i] in items && ItemOwnedBy(r[i], categories, rooms, user)
    ensures forall i :: 0 <= i < |items| && ItemOwnedBy(items[i], categories, rooms, user) ==> items[i] in r
  {
    Seqs.Filter(items, (it: Item) => ItemOwnedBy(it, categories, rooms, user))
  }

  /** The user's items, `orderBy: { createdAt: "desc" }`. */
  function NewestFirstItems(items: seq<Item>, categories: seq<Category>, rooms: seq<Room>, user: Id): (r: seq<Item>)
    ensures multiset(r) == multiset(ItemsOfUser(items, categories, rooms, user))
    ensures forall i :: 0 <= i < |r| ==> r[i] in items && ItemOwnedBy(r[i], categories, rooms, user)
    ensures forall i, j :: 0 <= i < j < |r| ==> r[i].createdAt >= r[j].createdAt
  {
    var mine := ItemsOfUser(items, categories, rooms, user);
    var sorted := Seqs.SortBy(mine, ItemNewestFirst);
    Seqs.SortByKeeps(mine, ItemNewestFirst, (it: Item) => it in items && ItemOwnedBy(it, categories, rooms, user));
    assert forall i, j :: 0 <= i < j < |sorted| ==> ItemNewestFirst(sorted[i]) <= ItemNewestFirst(sorted[j]);
    sorted
  }

  /**
   * `GET /api/items`: 401 without a session, 500 when `item.findMany` throws
   * (`findFails`), otherwise the caller's items, newest first.
   */
  function ListItems(db: Db, user: Option<Id>, findFails: bool): (r: Response<seq<Item>>)
    reads db
    ensures user.None? <==> r == Fail(401, Message("Unauthorized"))
    ensures user.Some? && findFails <==> r == Fail(500, Message("Internal server error"))
    ensures user.Some? && !findFails ==> r.Ok?
    ensures r.Ok? ==> r.body == NewestFirstItems(db.items, db.categories, db.rooms, user.value)
  {
    if user.None? then Unauthorized401()
    else if findFails then InternalError500()
    else Ok(NewestFirstItems(db.items, db.categories, db.rooms, user.value))
  }
}
