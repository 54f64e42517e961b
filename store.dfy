/**
 * The relational store the route handlers talk to through Prisma, as
 * in-memory tables. Each table is a sequence in insertion order; record ids
 * come from one counter (the stand-in for generated cuids), so an id is never
 * reused. Relations are by id: a category names its room, an item its
 * category, a room and an API key their owning user.
 */
module Store {
  import opened Wrappers
  import Seqs

  type Id = nat

  /** Milliseconds since the epoch (`new Date()`). */
  type Timestamp = int

  datatype User = User(id: Id, email: string, password: string)

  datatype ApiKey = ApiKey(
    id: Id,
    name: string,
    key: string,              // the bcrypt hash of the plaintext key
    userId: Id,
    isActive: bool,
    lastUsed: Option<Timestamp>,
    createdAt: Timestamp)

  datatype Room = Room(id: Id, name: string, description: Option<string>, userId: Id, createdAt: Timestamp)

  datatype Category = Category(id: Id, name: string, description: Option<string>, roomId: Id, createdAt: Timestamp)

  datatype Item = Item(
    id: Id,
    name: string,
    description: Option<string>,
    quantity: int,
    lowStockThreshold: int,
    categoryId: Id,
    imageUrl: Option<string>,
    createdAt: Timestamp)

  datatype ActivityLog = ActivityLog(
    id: Id,
    action: string,
    entityType: string,
    entityId: Id,
    entityName: string,
    userId: Id,
    itemId: Option<Id>,
    createdAt: Timestamp)

  /** The tables. Handlers that write take the database and declare `modifies`. */
  class Db {
    var users: seq<User>
    var apiKeys: seq<ApiKey>
    var rooms: seq<Room>
    var categories: seq<Category>
    var items: seq<Item>
    var activityLogs: seq<ActivityLog>
    var nextId: Id

    /** The tables are consistent: see `Consistent`. */
    ghost predicate Valid()
      reads this
    {
      Consistent(users, apiKeys, rooms, categories, items, nextId)
    }

    constructor (users: seq<User>)
      requires Distinct(UserIds(users))
      ensures Valid()
      ensures this.users == users
      ensures apiKeys == [] && rooms == [] && categories == [] && items == [] && activityLogs == []
    {
      this.users := users;
      apiKeys, rooms, categories, items, activityLogs := [], [], [], [], [];
      nextId := 0;
    }

    /** `item.create` and `activityLog.create`: appends the rows and moves the id counter on to `next`. */
    method AppendItems(added: seq<Item>, logged: seq<ActivityLog>, next: Id)
      requires Consistent(users, apiKeys, rooms, categories, items + added, next)
      modifies this`items, this`activityLogs, this`nextId
      ensures Valid()
      ensures items == old(items) + added && activityLogs == old(activityLogs) + logged && nextId == next
    {
      items, activityLogs, nextId := items + added, activityLogs + logged, next;
    }

    /** `category.create` and `activityLog.create`: appends the rows and moves the id counter on to `next`. */
    method AppendCategories(added: seq<Category>, logged: seq<ActivityLog>, next: Id)
      requires Consistent(users, apiKeys, rooms, categories + added, items, next)
      modifies this`categories, this`activityLogs, this`nextId
      ensures Valid()
      ensures categories == old(categories) + added && activityLogs == old(activityLogs) + logged && nextId == next
    {
      categories, activityLogs, nextId := categories + added, activityLogs + logged, next;
    }

    /** `apiKey.update`: replaces the API-key table. */
    method SetApiKeys(updated: seq<ApiKey>)
      requires Consistent(users, updated, rooms, categories, items, nextId)
      modifies this`apiKeys
      ensures Valid() && apiKeys == updated
    {
      apiKeys := updated;
    }

    /** `user.update`: replaces the user table. */
    method SetUsers(updated: seq<User>)
      requires Consistent(updated, apiKeys, rooms, categories, items, nextId)
      modifies this`users
      ensures Valid() && users == updated
    {
      users := updated;
    }
  }

  /**
   * User ids are distinct; API-key ids are distinct and below the counter;
   * room, category and item ids, and the room and category ids that
   * categories and items point to, are below the counter. So a freshly
   * issued id is neither a key's id nor referenced by any row. Distinct
   * room, category and item ids are not required: every lookup by such an
   * id takes the first stored match that the caller owns, as `findFirst`
   * does, and no contract here depends on there being only one.
   */
  ghost predicate Consistent(
    users: seq<User>, apiKeys: seq<ApiKey>, rooms: seq<Room>, categories: seq<Category>, items: seq<Item>, nextId: Id)
  {
    && Distinct(UserIds(users))
    && FreshBelow(KeyIds(apiKeys), nextId)
    && RoomsIssuedBelow(rooms, nextId)
    && CategoriesIssuedBelow(categories, nextId)
    && (forall i :: 0 <= i < |items| ==> items[i].id < nextId && items[i].categoryId < nextId)
  }

  predicate RoomsIssuedBelow(rooms: seq<Room>, bound: Id)
  {
    forall i :: 0 <= i < |rooms| ==> rooms[i].id < bound
  }

  predicate CategoriesIssuedBelow(categories: seq<Category>, bound: Id)
  {
    forall i :: 0 <= i < |categories| ==> categories[i].id < bound && categories[i].roomId < bound
  }

  /** Rewriting user records in place, ids kept, keeps the tables consistent. */
  lemma ConsistentReplaceUsers(
    users: seq<User>, apiKeys: seq<ApiKey>, rooms: seq<Room>, categories: seq<Category>, items: seq<Item>, n: Id,
    users': seq<User>)
    requires Consistent(users, apiKeys, rooms, categories, items, n) && UserIds(users') == UserIds(users)
    ensures Consistent(users', apiKeys, rooms, categories, items, n)
  {
  }

  /** Rewriting API-key records in place, ids kept, keeps the tables consistent. */
  lemma ConsistentReplaceKeys(
    users: seq<User>, apiKeys: seq<ApiKey>, rooms: seq<Room>, categories: seq<Category>, items: seq<Item>, n: Id,
    apiKeys': seq<ApiKey>)
    requires Consistent(users, apiKeys, rooms, categories, items, n) && KeyIds(apiKeys') == KeyIds(apiKeys)
    ensures Consistent(users, apiKeys', rooms, categories, items, n)
  {
  }

  /** Consistency survives raising the counter. */
  lemma ConsistentRaise(
    users: seq<User>, apiKeys: seq<ApiKey>, rooms: seq<Room>, categories: seq<Category>, items: seq<Item>, n: Id, m: Id)
    requires Consistent(users, apiKeys, rooms, categories, items, n) && n <= m
    ensures Consistent(users, apiKeys, rooms, categories, items, m)
  {
  }

  /**
   * Inserting one item under the counter's id, in a stored category, keeps
   * the tables consistent whatever the counter moves on to.
   */
  lemma ConsistentAddItem(
    users: seq<User>, apiKeys: seq<ApiKey>, rooms: seq<Room>, categories: seq<Category>, items: seq<Item>,
    n: Id, added: seq<Item>, m: Id)
    requires Consistent(users, apiKeys, rooms, categories, items, n)
    requires |added| == 1 && added[0].id == n && added[0].categoryId < n && n < m
    ensures Consistent(users, apiKeys, rooms, categories, items + added, m)
  {
  }

  /**
   * Inserting one category under the counter's id, in a stored room, keeps
   * the tables consistent whatever the counter moves on to.
   */
  lemma ConsistentAddCategory(
    users: seq<User>, apiKeys: seq<ApiKey>, rooms: seq<Room>, categories: seq<Category>, items: seq<Item>,
    n: Id, added: seq<Category>, m: Id)
    requires Consistent(users, apiKeys, rooms, categories, items, n)
    requires |added| == 1 && added[0].id == n && added[0].roomId < n && n < m
    ensures Consistent(users, apiKeys, rooms, categories + added, items, m)
  {
  }

  /** Inserting one room under the counter's id keeps the tables consistent whatever the counter moves on to. */
  lemma ConsistentAddRoom(
    users: seq<User>, apiKeys: seq<ApiKey>, rooms: seq<Room>, categories: seq<Category>, items: seq<Item>,
    n: Id, added: seq<Room>, m: Id)
    requires Consistent(users, apiKeys, rooms, categories, items, n)
    requires |added| == 1 && added[0].id == n && n < m
    ensures Consistent(users, apiKeys, rooms + added, categories, items, m)
  {
  }

  predicate Distinct(ids: seq<Id>)
  {
    forall i, j :: 0 <= i < j < |ids| ==> ids[i] != ids[j]
  }

  /** Distinct ids, all issued before the counter reached `bound`. */
  predicate FreshBelow(ids: seq<Id>, bound: Id)
  {
    Distinct(ids) && forall i :: 0 <= i < |ids| ==> ids[i] < bound
  }

  /** Issuing the counter's value as a new id keeps the ids distinct and below the next counter. */
  lemma FreshBelowAppend(ids: seq<Id>, bound: Id)
    requires FreshBelow(ids, bound)
    ensures FreshBelow(ids + [bound], bound + 1)
  {
  }

  function UserIds(s: seq<User>): (ids: seq<Id>)
    ensures |ids| == |s| && forall i :: 0 <= i < |s| ==> ids[i] == s[i].id
  {
    if s == [] then [] else [s[0].id] + UserIds(s[1..])
  }

  function KeyIds(s: seq<ApiKey>): (ids: seq<Id>)
    ensures |ids| == |s| && forall i :: 0 <= i < |s| ==> ids[i] == s[i].id
  {
    if s == [] then [] else [s[0].id] + KeyIds(s[1..])
  }

  /** Prisma's `where: { id, userId }` on rooms: the room exists and belongs to the user. */
  predicate RoomOwnedBy(rooms: seq<Room>, roomId: Id, user: Id)
  {
    exists r :: r in rooms && r.id == roomId && r.userId == user
  }

  /** Prisma's `where: { id, room: { userId } }` on categories. */
  predicate CategoryOwnedBy(categories: seq<Category>, rooms: seq<Room>, categoryId: Id, user: Id)
  {
    exists c :: c in categories && c.id == categoryId && RoomOwnedBy(rooms, c.roomId, user)
  }

  /** `room.findFirst({ where: { id, userId } })`. */
  function FindOwnedRoom(rooms: seq<Room>, roomId: Id, user: Id): (r: Option<Room>)
    ensures r.Some? <==> RoomOwnedBy(rooms, roomId, user)
    ensures r.Some? ==> r.value in rooms && r.value.id == roomId && r.value.userId == user
  {
    if rooms == [] then None
    else if rooms[0].id == roomId && rooms[0].userId == user then Some(rooms[0])
    else
      var r := FindOwnedRoom(rooms[1..], roomId, user);
      assert forall x :: x in rooms[1..] ==> x in rooms;
      assert RoomOwnedBy(rooms, roomId, user) ==> RoomOwnedBy(rooms[1..], roomId, user);
      r
  }

  /** `category.findFirst({ where: { id, room: { userId } } })`. */
  function FindOwnedCategory(categories: seq<Category>, rooms: seq<Room>, categoryId: Id, user: Id): (r: Option<Category>)
    ensures r.Some? <==> CategoryOwnedBy(categories, rooms, categoryId, user)
    ensures r.Some? ==> r.value in categories && r.value.id == categoryId && RoomOwnedBy(rooms, r.value.roomId, user)
  {
    if categories == [] then None
    else if categories[0].id == categoryId && RoomOwnedBy(rooms, categories[0].roomId, user) then Some(categories[0])
    else
      var r := FindOwnedCategory(categories[1..], rooms, categoryId, user);
      assert forall x :: x in categories[1..] ==> x in categories;
      assert CategoryOwnedBy(categories, rooms, categoryId, user) ==> CategoryOwnedBy(categories[1..], rooms, categoryId, user);
      r
  }

  /** A stored room's id was issued before the counter reached `bound`. */
  lemma RoomIdIssued(rooms: seq<Room>, r: Room, bound: Id)
    requires RoomsIssuedBelow(rooms, bound) && r in rooms
    ensures r.id < bound
  {
  }

  /** A stored category's id was issued before the counter reached `bound`. */
  lemma CategoryIdIssued(categories: seq<Category>, c: Category, bound: Id)
    requires CategoriesIssuedBelow(categories, bound) && c in categories
    ensures c.id < bound
  {
  }

  /** Prisma's `where: { category: { room: { userId } } }` on items. */
  predicate ItemOwnedBy(item: Item, categories: seq<Category>, rooms: seq<Room>, user: Id)
  {
    CategoryOwnedBy(categories, rooms, item.categoryId, user)
  }

  /** `orderBy: { createdAt: "desc" }` as the ascending order of this key. */
  function RoomNewestFirst(r: Room): int { -r.createdAt }

  function ItemNewestFirst(i: Item): int { -i.createdAt }

  function KeyNewestFirst(k: ApiKey): int { -k.createdAt }

  /** A category with its `items` relation included. */
  datatype CategoryTree = CategoryTree(category: Category, items: seq<Item>)

  /** A room with its `categories` relation included, each with its items. */
  datatype RoomTree = RoomTree(room: Room, categories: seq<CategoryTree>)

  function ItemsOfCategory(items: seq<Item>, categoryId: Id): (r: seq<Item>)
    ensures forall i :: 0 <= i < |r| ==> r[i] in items && r[i].categoryId == categoryId
    ensures forall i :: 0 <= i < |items| && items[i].categoryId == categoryId ==> items[i] in r
  {
    Seqs.Filter(items, (it: Item) => it.categoryId == categoryId)
  }

  /** A category id that no stored item refers to has no items. */
  lemma NoItemsOfUnusedCategory(items: seq<Item>, categoryId: Id)
    requires forall i :: 0 <= i < |items| ==> items[i].categoryId != categoryId
    ensures ItemsOfCategory(items, categoryId) == []
  {
    Seqs.FilterKeepsNone(items, (it: Item) => it.categoryId == categoryId);
  }

  function CategoryTrees(categories: seq<Category>, items: seq<Item>): (r: seq<CategoryTree>)
    ensures |r| == |categories|
    ensures forall i :: 0 <= i < |r| ==> r[i].category == categories[i]
    ensures forall i :: 0 <= i < |r| ==> r[i].items == ItemsOfCategory(items, categories[i].id)
  {
    if categories == [] then []
    else [CategoryTree(categories[0], ItemsOfCategory(items, categories[0].id))] + CategoryTrees(categories[1..], items)
  }

  function CategoriesOfRoom(categories: seq<Category>, roomId: Id): (r: seq<Category>)
    ensures forall i :: 0 <= i < |r| ==> r[i] in categories && r[i].roomId == roomId
    ensures forall i :: 0 <= i < |categories| && categories[i].roomId == roomId ==> categories[i] in r
  {
    Seqs.Filter(categories, (c: Category) => c.roomId == roomId)
  }

  /** The rooms of a list of room trees, in order. */
  function TreeRooms(trees: seq<RoomTree>): (r: seq<Room>)
    ensures |r| == |trees|
    ensures forall i :: 0 <= i < |r| ==> r[i] == trees[i].room
  {
    if trees == [] then [] else [trees[0].room] + TreeRooms(trees[1..])
  }

  function RoomTrees(rooms: seq<Room>, categories: seq<Category>, items: seq<Item>): (r: seq<RoomTree>)
    ensures |r| == |rooms|
    ensures TreeRooms(r) == rooms
    ensures forall i :: 0 <= i < |r| ==> r[i].room == rooms[i]
    ensures forall i :: 0 <= i < |r| ==>
      r[i].categories == CategoryTrees(CategoriesOfRoom(categories, rooms[i].id), items)
  {
    if rooms == [] then []
    else
      [RoomTree(rooms[0], CategoryTrees(CategoriesOfRoom(categories, rooms[0].id), items))]
      + RoomTrees(rooms[1..], categories, items)
  }

  /** `where: { userId }` on rooms. */
  function RoomsOfUser(rooms: seq<Room>, user: Id): (r: seq<Room>)
    ensures forall x :: x in r ==> x in rooms && x.userId == user
    ensures forall i :: 0 <= i < |rooms| && rooms[i].userId == user ==> rooms[i] in r
  {
    Seqs.Filter(rooms, (rm: Room) => rm.userId == user)
  }

  /** One user's rooms, newest first. */
  function NewestFirstRooms(rooms: seq<Room>, user: Id): (r: seq<Room>)
    ensures multiset(r) == multiset(RoomsOfUser(rooms, user))
    ensures forall i :: 0 <= i < |r| ==> r[i] in rooms && r[i].userId == user
    ensures forall i, j :: 0 <= i < j < |r| ==> r[i].createdAt >= r[j].createdAt
  {
    var mine := RoomsOfUser(rooms, user);
    var sorted := Seqs.SortBy(mine, RoomNewestFirst);
    Seqs.SortByKeeps(mine, RoomNewestFirst, (rm: Room) => rm in rooms && rm.userId == user);
    assert forall i, j :: 0 <= i < j < |sorted| ==> RoomNewestFirst(sorted[i]) <= RoomNewestFirst(sorted[j]);
    sorted
  }

  /**
   * `room.findMany({ where: { userId }, include: { categories: { include: { items } } },
   * orderBy: { createdAt: "desc" } })`.
   */
  function UserRoomTrees(rooms: seq<Room>, categories: seq<Category>, items: seq<Item>, user: Id): (r: seq<RoomTree>)
    ensures TreeRooms(r) == NewestFirstRooms(rooms, user)
  {
    RoomTrees(NewestFirstRooms(rooms, user), categories, items)
  }
}
