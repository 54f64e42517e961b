/**
 * `GET /api/v1/inventory`: the endpoint external clients call with an API
 * key in the `x-api-key` header. It answers the key owner's rooms, each with
 * its categories and their items, and three totals folded over that tree.
 */
module InventoryRoute {
  import opened Wrappers
  import opened Http
  import opened Store
  import opened Bcrypt
  import ApiKeyAuth

  datatype Inventory = Inventory(rooms: seq<RoomTree>, totalRooms: nat, totalCategories: nat, totalItems: nat)

  /** `rooms.reduce((acc, room) => acc + room.categories.length, 0)`: a left fold. */
  function TotalCategories(rooms: seq<RoomTree>): nat
  {
    if rooms == [] then 0
    else TotalCategories(rooms[..|rooms| - 1]) + |rooms[|rooms| - 1].categories|
  }

  /** `categories.reduce((catAcc, cat) => catAcc + cat.items.length, 0)`. */
  function CategoryItemCount(categories: seq<CategoryTree>): nat
  {
    if categories == [] then 0
    else CategoryItemCount(categories[..|categories| - 1]) + |categories[|categories| - 1].items|
  }

  /** The outer `reduce` of `totalItems`, summing the inner one per room. */
  function TotalItems(rooms: seq<RoomTree>): nat
  {
    if rooms == [] then 0
    else TotalItems(rooms[..|rooms| - 1]) + CategoryItemCount(rooms[|rooms| - 1].categories)
  }

  /** Every category of the tree, room after room. */
  function AllCategories(rooms: seq<RoomTree>): seq<CategoryTree>
  {
    if rooms == [] then [] else rooms[0].categories + AllCategories(rooms[1..])
  }

  /** Every item of a list of categories, category after category. */
  function ItemsOf(categories: seq<CategoryTree>): seq<Item>
  {
    if categories == [] then [] else categories[0].items + ItemsOf(categories[1..])
  }

  /** Every item of the tree. */
  function AllItems(rooms: seq<RoomTree>): seq<Item>
  {
    ItemsOf(AllCategories(rooms))
  }

  lemma {:induction false} AllCategoriesAppend(rooms: seq<RoomTree>, room: RoomTree)
    ensures AllCategories(rooms + [room]) == AllCategories(rooms) + room.categories
  {
    if rooms == [] {
      assert AllCategories([room]) == room.categories + AllCategories([]);
    } else {
      assert (rooms + [room])[1..] == rooms[1..] + [room];
      AllCategoriesAppend(rooms[1..], room);
    }
  }

  lemma {:induction false} ItemsOfAppend(a: seq<CategoryTree>, b: seq<CategoryTree>)
    ensures ItemsOf(a + b) == ItemsOf(a) + ItemsOf(b)
  {
    if a == [] {
      assert a + b == b;
    } else {
      assert (a + b)[1..] == a[1..] + b;
      ItemsOfAppend(a[1..], b);
    }
  }

  /** `totalCategories` counts every category of the tree. */
  lemma {:induction false} TotalCategoriesCountsAll(rooms: seq<RoomTree>)
    ensures TotalCategories(rooms) == |AllCategories(rooms)|
  {
    if rooms != [] {
      var init, last := rooms[..|rooms| - 1], rooms[|rooms| - 1];
      assert rooms == init + [last];
      TotalCategoriesCountsAll(init);
      AllCategoriesAppend(init, last);
    }
  }

  /** The inner fold counts every item of the categories. */
  lemma {:induction false} CategoryItemCountCountsAll(categories: seq<CategoryTree>)
    ensures CategoryItemCount(categories) == |ItemsOf(categories)|
  {
    if categories != [] {
      var init, last := categories[..|categories| - 1], categories[|categories| - 1];
      assert categories == init + [last];
      CategoryItemCountCountsAll(init);
      ItemsOfAppend(init, [last]);
      assert ItemsOf([last]) == last.items + ItemsOf([]);
    }
  }

  /** `totalItems` counts every item of the tree. */
  lemma {:induction false} TotalItemsCountsAll(rooms: seq<RoomTree>)
    ensures TotalItems(rooms) == |AllItems(rooms)|
  {
    if rooms != [] {
      var init, last := rooms[..|rooms| - 1], rooms[|rooms| - 1];
      assert rooms == init + [last];
      TotalItemsCountsAll(init);
      CategoryItemCountCountsAll(last.categories);
      AllCategoriesAppend(init, last);
      ItemsOfAppend(AllCategories(init), last.categories);
    }
  }

  /**
   * `GET /api/v1/inventory`. `apiKeyHeader` is `req.headers.get("x-api-key")`;
   * `bcrypt`, `now`, `findFails` and `updateFails` are passed on to the
   * validation, and `roomsFail` says whether the rooms query throws.
   */
  method GetInventory(
    db: Db, apiKeyHeader: Option<string>, bcrypt: Hasher, now: Timestamp,
    findFails: bool, updateFails: bool, roomsFail: bool)
    returns (r: Response<Inventory>)
    requires db.Valid()
    modifies db`apiKeys
    ensures db.Valid()
    // a missing or empty header is refused before the key is looked at
    ensures apiKeyHeader.None? || apiKeyHeader.value == [] ==>
      r == Fail(401, Message("API key is required")) && db.apiKeys == old(db.apiKeys)
    ensures apiKeyHeader.Some? && apiKeyHeader.value != [] ==>
      var s := ApiKeyAuth.Validate(old(db.apiKeys), apiKeyHeader.value, bcrypt.compare, now, findFails, updateFails);
      && db.apiKeys == s.keys
      && (!s.result.valid ==> r == Fail(401, Message("Invalid API key")))
      && (s.result.valid && roomsFail ==> r == Fail(500, Message("Internal server error")))
      && (s.result.valid && !roomsFail ==> r.Ok? && r.body.rooms == UserRoomTrees(db.rooms, db.categories, db.items, s.result.userId.value))
    ensures r.Ok? ==>
      && r.body.totalRooms == |r.body.rooms|
      && r.body.totalCategories == |AllCategories(r.body.rooms)|
      && r.body.totalItems == |AllItems(r.body.rooms)|
  {
    if apiKeyHeader.None? || apiKeyHeader.value == [] {
      return Fail(401, Message("API key is required"));
    }
    var v, _ := ApiKeyAuth.ValidateApiKey(db, apiKeyHeader.value, bcrypt, now, findFails, updateFails);
    if !v.valid || v.userId.None? {
      return Fail(401, Message("Invalid API key"));
    }
    if roomsFail {
      return InternalError500();
    }
    var rooms := UserRoomTrees(db.rooms, db.categories, db.items, v.userId.value);
    TotalCategoriesCountsAll(rooms);
    TotalItemsCountsAll(rooms);
    return Ok(Inventory(rooms, |rooms|, TotalCategories(rooms), TotalItems(rooms)));
  }

  /** Every room the endpoint answers belongs to the owner of the presented key. */
  lemma AnsweredRoomsBelongToKeyOwner(rooms: seq<Room>, categories: seq<Category>, items: seq<Item>, owner: Id)
    ensures forall t :: t in UserRoomTrees(rooms, categories, items, owner) ==> t.room.userId == owner
  {
    var trees := UserRoomTrees(rooms, categories, items, owner);
    forall t | t in trees ensures t.room.userId == owner {
      var i :| 0 <= i < |trees| && trees[i] == t;
      assert TreeRooms(trees)[i] == t.room;
    }
  }
}
