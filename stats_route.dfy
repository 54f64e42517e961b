/**
 * `GET /api/dashboard/stats`: the dashboard's counts over the caller's
 * items. `itemsByRoom` and `quantityByCategory` are built by a `reduce` that
 * updates an accumulator object in place; a JavaScript object with string
 * keys keeps its keys in insertion order, so the accumulator is an ordered
 * list of named entries here.
 */
module DashboardStats {
  import opened Wrappers
  import opened Http
  import opened Store
  import Seqs
  import ItemsRoute

  /** One entry of the accumulator: `{ name, count }` or `{ name, quantity }`. */
  datatype Entry = Entry(name: string, total: int)

  /** Where `acc[name]` lives in the accumulator, or -1 when it is not set. */
  function IndexOf(entries: seq<Entry>, name: string): (j: int)
    ensures -1 <= j < |entries|
    ensures j >= 0 ==> entries[j].name == name
    ensures j == -1 <==> forall i :: 0 <= i < |entries| ==> entries[i].name != name
  {
    if entries == [] then -1
    else if entries[0].name == name then 0
    else
      var k := IndexOf(entries[1..], name);
      if k < 0 then -1 else k + 1
  }

  /** One `acc[name] = (acc[name] || 0) + weight` step. */
  function Add(entries: seq<Entry>, name: string, weight: int): seq<Entry>
  {
    var j := IndexOf(entries, name);
    if j >= 0 then entries[j := Entry(name, entries[j].total + weight)]
    else entries + [Entry(name, weight)]
  }

  /** The accumulator after `reduce` has visited every row, adding `weight(row)` under `key(row)`. */
  function Tally<T>(rows: seq<T>, key: T -> string, weight: T -> int): seq<Entry>
  {
    if rows == [] then []
    else
      var last := rows[|rows| - 1];
      Add(Tally(rows[..|rows| - 1], key, weight), key(last), weight(last))
  }

  /** The sum of `weight` over the rows filed under `name`. */
  function WeightOf<T>(rows: seq<T>, key: T -> string, weight: T -> int, name: string): int
  {
    if rows == [] then 0
    else
      var last := rows[|rows| - 1];
      WeightOf(rows[..|rows| - 1], key, weight, name) + (if key(last) == name then weight(last) else 0)
  }

  /** The names the rows are filed under. */
  function KeysOf<T>(rows: seq<T>, key: T -> string): set<string>
  {
    if rows == [] then {} else KeysOf(rows[..|rows| - 1], key) + {key(rows[|rows| - 1])}
  }

  /** The sum of `weight` over all rows. */
  function TotalWeight<T>(rows: seq<T>, weight: T -> int): int
  {
    if rows == [] then 0 else TotalWeight(rows[..|rows| - 1], weight) + weight(rows[|rows| - 1])
  }

  function SumTotals(entries: seq<Entry>): int
  {
    if entries == [] then 0 else entries[0].total + SumTotals(entries[1..])
  }

  predicate DistinctNames(entries: seq<Entry>)
  {
    forall i, j :: 0 <= i < j < |entries| ==> entries[i].name != entries[j].name
  }

  /** `reduce` with the accumulator updated in place, one row at a time. */
  method Accumulate<T>(rows: seq<T>, key: T -> string, weight: T -> int) returns (acc: seq<Entry>)
    ensures acc == Tally(rows, key, weight)
  {
    acc := [];
    for i := 0 to |rows|
      invariant acc == Tally(rows[..i], key, weight)
    {
      var name := key(rows[i]);
      var j := IndexOf(acc, name);
      if j >= 0 {
        acc := acc[j := Entry(name, acc[j].total + weight(rows[i]))];
      } else {
        acc := acc + [Entry(name, weight(rows[i]))];
      }
      assert rows[..i + 1][..i] == rows[..i];
    }
    assert rows[..|rows|] == rows;
  }

  /** A name no row is filed under carries no weight. */
  lemma {:induction false} NoKeyNoWeight<T>(rows: seq<T>, key: T -> string, weight: T -> int, name: string)
    requires name !in KeysOf(rows, key)
    ensures WeightOf(rows, key, weight, name) == 0
  {
    if rows != [] {
      NoKeyNoWeight(rows[..|rows| - 1], key, weight, name);
    }
  }

  /** Adding under a name keeps the names distinct. */
  lemma AddDistinct(entries: seq<Entry>, name: string, weight: int)
    requires DistinctNames(entries)
    ensures DistinctNames(Add(entries, name, weight))
  {
  }

  /** The accumulator lists no name twice. */
  lemma {:induction false} TallyDistinct<T>(rows: seq<T>, key: T -> string, weight: T -> int)
    ensures DistinctNames(Tally(rows, key, weight))
  {
    if rows != [] {
      var prefix, last := rows[..|rows| - 1], rows[|rows| - 1];
      TallyDistinct(prefix, key, weight);
      AddDistinct(Tally(prefix, key, weight), key(last), weight(last));
    }
  }

  /** Every name a row is filed under has an entry. */
  lemma {:induction false} TallyCovers<T>(rows: seq<T>, key: T -> string, weight: T -> int)
    ensures forall n :: n in KeysOf(rows, key) ==> IndexOf(Tally(rows, key, weight), n) >= 0
  {
    if rows != [] {
      var prefix, last := rows[..|rows| - 1], rows[|rows| - 1];
      TallyCovers(prefix, key, weight);
      var t0 := Tally(prefix, key, weight);
      var k := key(last);
      var t := Add(t0, k, weight(last));
      var j := IndexOf(t0, k);
      var at := if j >= 0 then j else |t0|;
      assert t[at].name == k;
      forall n | n in KeysOf(rows, key) ensures IndexOf(t, n) >= 0 {
        if n != k {
          var m := IndexOf(t0, n);
          assert t[m].name == n;
        }
      }
    }
  }

  /** Every entry is a name some row is filed under, holding the total weight of those rows. */
  lemma {:induction false} TallyEntries<T>(rows: seq<T>, key: T -> string, weight: T -> int)
    ensures forall e :: e in Tally(rows, key, weight) ==> e.name in KeysOf(rows, key) && e.total == WeightOf(rows, key, weight, e.name)
  {
    if rows != [] {
      var prefix, last := rows[..|rows| - 1], rows[|rows| - 1];
      TallyEntries(prefix, key, weight);
      TallyDistinct(prefix, key, weight);
      var t0 := Tally(prefix, key, weight);
      var k, w := key(last), weight(last);
      var t := Add(t0, k, w);
      var j := IndexOf(t0, k);
      if j < 0 {
        TallyCovers(prefix, key, weight);
        NoKeyNoWeight(prefix, key, weight, k);
      }
      assert Tally(rows, key, weight) == t;
      assert KeysOf(rows, key) == KeysOf(prefix, key) + {k};
      forall e | e in t ensures e.name in KeysOf(rows, key) && e.total == WeightOf(rows, key, weight, e.name) {
        var i :| 0 <= i < |t| && t[i] == e;
        var n := t[i].name;
        assert WeightOf(rows, key, weight, n) == WeightOf(prefix, key, weight, n) + (if k == n then w else 0);
        if i == j {
          assert t[i] == Entry(k, t0[j].total + w);
          assert t0[j] in t0;
        } else if i == |t0| {
          assert j < 0 && t[i] == Entry(k, w);
          assert WeightOf(prefix, key, weight, k) == 0;
        } else {
          assert t[i] == t0[i];
          assert n != k;
          assert t0[i] in t0;
        }
      }
    }
  }

  /**
   * What the accumulator holds: one entry per name the rows are filed
   * under, and nothing else, each holding the total weight of its rows.
   */
  lemma TallyMeaning<T>(rows: seq<T>, key: T -> string, weight: T -> int)
    ensures var t := Tally(rows, key, weight);
      && DistinctNames(t)
      && (forall e :: e in t ==> e.name in KeysOf(rows, key) && e.total == WeightOf(rows, key, weight, e.name))
      && (forall n :: n in KeysOf(rows, key) ==> IndexOf(t, n) >= 0)
  {
    TallyDistinct(rows, key, weight);
    TallyEntries(rows, key, weight);
    TallyCovers(rows, key, weight);
  }

  lemma {:induction false} SumTotalsAppend(entries: seq<Entry>, x: Entry)
    ensures SumTotals(entries + [x]) == SumTotals(entries) + x.total
  {
    if entries != [] {
      assert (entries + [x])[1..] == entries[1..] + [x];
      SumTotalsAppend(entries[1..], x);
    }
  }

  lemma {:induction false} SumTotalsUpdate(entries: seq<Entry>, j: nat, x: Entry)
    requires j < |entries|
    ensures SumTotals(entries[j := x]) == SumTotals(entries) - entries[j].total + x.total
  {
    if j == 0 {
      assert entries[j := x][1..] == entries[1..];
    } else {
      assert entries[j := x][1..] == entries[1..][j - 1 := x];
      SumTotalsUpdate(entries[1..], j - 1, x);
    }
  }

  /** The accumulator's entries add up to the total weight of all rows: nothing is lost or counted twice. */
  lemma {:induction false} TallySum<T>(rows: seq<T>, key: T -> string, weight: T -> int)
    ensures SumTotals(Tally(rows, key, weight)) == TotalWeight(rows, weight)
  {
    if rows != [] {
      var prefix, last := rows[..|rows| - 1], rows[|rows| - 1];
      TallySum(prefix, key, weight);
      var t0 := Tally(prefix, key, weight);
      var j := IndexOf(t0, key(last));
      if j >= 0 {
        SumTotalsUpdate(t0, j, Entry(key(last), t0[j].total + weight(last)));
      } else {
        SumTotalsAppend(t0, Entry(key(last), weight(last)));
      }
    }
  }

  /** The sort key of `sort((a, b) => b.quantity - a.quantity)`. */
  function Descending(e: Entry): int { -e.total }

  /** `.sort((a, b) => b.quantity - a.quantity).slice(0, 5)`. */
  function TopFive(entries: seq<Entry>): (r: seq<Entry>)
    ensures |r| == if |entries| < 5 then |entries| else 5
    ensures forall i, j :: 0 <= i < j < |r| ==> r[i].total >= r[j].total
  {
    var sorted := Seqs.SortBy(entries, Descending);
    assert forall i, j :: 0 <= i < j < |sorted| ==> Descending(sorted[i]) <= Descending(sorted[j]);
    Seqs.Take(sorted, 5)
  }

  /** The top five come from the entries, and every entry left out holds no more than any entry kept. */
  lemma TopFiveIsTop(entries: seq<Entry>)
    ensures var r := TopFive(entries);
      && (forall i :: 0 <= i < |r| ==> r[i] in entries)
      && (forall e :: e in entries && e !in r ==> forall i :: 0 <= i < |r| ==> r[i].total >= e.total)
  {
    Seqs.TakeSortedBy(entries, Descending, 5);
  }

  /** Drawing the top five from entries with distinct names keeps the names distinct. */
  lemma TopFiveDistinct(entries: seq<Entry>)
    requires DistinctNames(entries)
    ensures DistinctNames(TopFive(entries))
  {
    var sorted := Seqs.SortBy(entries, Descending);
    forall i, j | 0 <= i < j < |entries| ensures entries[i] != entries[j] {
      assert entries[i].name != entries[j].name;
    }
    Seqs.SortByDistinct(entries, Descending);
    assert |sorted| == |entries|;
    assert multiset(sorted) == multiset(entries);
    forall i, j | 0 <= i < j < |sorted| ensures sorted[i].name != sorted[j].name {
      SortedNamesDiffer(entries, sorted, i, j);
    }
  }

  lemma SortedNamesDiffer(entries: seq<Entry>, sorted: seq<Entry>, i: nat, j: nat)
    requires DistinctNames(entries) && multiset(sorted) == multiset(entries)
    requires i < j < |sorted| && sorted[i] != sorted[j]
    ensures sorted[i].name != sorted[j].name
  {
    assert sorted[i] in multiset(entries) && sorted[j] in multiset(entries);
    var a :| 0 <= a < |entries| && entries[a] == sorted[i];
    var b :| 0 <= b < |entries| && entries[b] == sorted[j];
  }

  /** An item of the caller's, with `include: { category: { include: { room: true } } }` flattened to the two names used. */
  datatype StatRow = StatRow(item: Item, categoryName: string, roomName: string)

  /** The row's names are those of the item's stored category and of that category's room, which the user owns. */
  ghost predicate Placed(row: StatRow, categories: seq<Category>, rooms: seq<Room>, user: Id)
  {
    exists c :: c in categories && c.id == row.item.categoryId && c.name == row.categoryName
      && exists rm :: rm in rooms && rm.id == c.roomId && rm.userId == user && rm.name == row.roomName
  }

  /** Following each item's `category` and its `room` relation. */
  function Place(items: seq<Item>, categories: seq<Category>, rooms: seq<Room>, user: Id): (r: seq<StatRow>)
    requires forall i :: 0 <= i < |items| ==> ItemOwnedBy(items[i], categories, rooms, user)
    ensures |r| == |items|
    ensures forall i :: 0 <= i < |r| ==> r[i].item == items[i] && Placed(r[i], categories, rooms, user)
  {
    if items == [] then []
    else
      assert ItemOwnedBy(items[0], categories, rooms, user);
      var c := FindOwnedCategory(categories, rooms, items[0].categoryId, user).value;
      var rm := FindOwnedRoom(rooms, c.roomId, user).value;
      [StatRow(items[0], c.name, rm.name)] + Place(items[1..], categories, rooms, user)
  }

  /** `item.findMany({ where: { category: { room: { userId } } }, include: ... })`. */
  function UserRows(rooms: seq<Room>, categories: seq<Category>, items: seq<Item>, user: Id): (r: seq<StatRow>)
    ensures |r| == |ItemsRoute.ItemsOfUser(items, categories, rooms, user)|
    ensures forall i :: 0 <= i < |r| ==>
      && r[i].item == ItemsRoute.ItemsOfUser(items, categories, rooms, user)[i]
      && r[i].item in items && Placed(r[i], categories, rooms, user)
  {
    Place(ItemsRoute.ItemsOfUser(items, categories, rooms, user), categories, rooms, user)
  }

  /** `category.count({ where: { room: { userId } } })` counts these. */
  function CategoriesOfUser(categories: seq<Category>, rooms: seq<Room>, user: Id): (r: seq<Category>)
    ensures forall i :: 0 <= i < |r| ==> r[i] in categories && RoomOwnedBy(rooms, r[i].roomId, user)
    ensures forall i :: 0 <= i < |categories| && RoomOwnedBy(rooms, categories[i].roomId, user) ==> categories[i] in r
  {
    Seqs.Filter(categories, (c: Category) => RoomOwnedBy(rooms, c.roomId, user))
  }

  predicate IsLowStock(row: StatRow) { row.item.quantity <= row.item.lowStockThreshold }

  predicate IsOutOfStock(row: StatRow) { row.item.quantity == 0 }

  predicate IsLowBand(row: StatRow) { row.item.quantity > 0 && row.item.quantity <= row.item.lowStockThreshold }

  predicate IsNormalStock(row: StatRow) { row.item.quantity > row.item.lowStockThreshold }

  function RoomName(row: StatRow): string { row.roomName }

  function CategoryName(row: StatRow): string { row.categoryName }

  function Quantity(row: StatRow): int { row.item.quantity }

  function One(row: StatRow): int { 1 }

  datatype StockLevels = StockLevels(outOfStock: nat, lowStock: nat, normalStock: nat)

  datatype Stats = Stats(
    totalRooms: nat,
    totalCategories: nat,
    totalItems: nat,
    lowStockItems: nat,
    itemsByRoom: seq<Entry>,
    stockLevels: StockLevels,
    quantityByCategory: seq<Entry>)

  /** The `stats` object the handler answers for `user`. */
  function StatsOf(rooms: seq<Room>, categories: seq<Category>, items: seq<Item>, user: Id): Stats
  {
    var rows := UserRows(rooms, categories, items, user);
    Stats(
      |RoomsOfUser(rooms, user)|,
      |CategoriesOfUser(categories, rooms, user)|,
      |rows|,
      |Seqs.Filter(rows, IsLowStock)|,
      Tally(rows, RoomName, One),
      StockLevels(|Seqs.Filter(rows, IsOutOfStock)|, |Seqs.Filter(rows, IsLowBand)|, |Seqs.Filter(rows, IsNormalStock)|),
      TopFive(Tally(rows, CategoryName, Quantity)))
  }

  /**
   * `GET /api/dashboard/stats`: 401 without a session, 500 when a query
   * throws (`queryFails`), otherwise the stats, the two accumulators built by
   * `Accumulate`.
   */
  method GetStats(db: Db, user: Option<Id>, queryFails: bool) returns (r: Response<Stats>)
    ensures user.None? <==> r == Fail(401, Message("Unauthorized"))
    ensures user.Some? && queryFails <==> r == Fail(500, Message("Internal server error"))
    ensures user.Some? && !queryFails ==> r.Ok?
    ensures r.Ok? ==> r.body == StatsOf(db.rooms, db.categories, db.items, user.value)
  {
    if user.None? {
      return Unauthorized401();
    }
    if queryFails {
      return InternalError500();
    }
    var me := user.value;
    var totalRooms := |RoomsOfUser(db.rooms, me)|;
    var totalCategories := |CategoriesOfUser(db.categories, db.rooms, me)|;
    var rows := UserRows(db.rooms, db.categories, db.items, me);
    var lowStockItems := |Seqs.Filter(rows, IsLowStock)|;
    var itemsByRoom := Accumulate(rows, RoomName, One);
    var stockLevels := StockLevels(
      |Seqs.Filter(rows, IsOutOfStock)|, |Seqs.Filter(rows, IsLowBand)|, |Seqs.Filter(rows, IsNormalStock)|);
    var quantityByCategory := Accumulate(rows, CategoryName, Quantity);
    r := Ok(Stats(totalRooms, totalCategories, |rows|, lowStockItems, itemsByRoom, stockLevels, TopFive(quantityByCategory)));
  }

  /** Every item is either low on stock or normal, whatever the numbers. */
  lemma LowOrNormal(rooms: seq<Room>, categories: seq<Category>, items: seq<Item>, user: Id)
    ensures var s := StatsOf(rooms, categories, items, user);
      s.lowStockItems + s.stockLevels.normalStock == s.totalItems
  {
    Seqs.FilterSplit(UserRows(rooms, categories, items, user), IsLowStock, IsNormalStock);
  }

  /**
   * With quantities and thresholds non-negative (what the item schemas
   * admit), the low-stock count is the out-of-stock items plus the low band,
   * and the three stock levels split all the items.
   */
  lemma StockLevelsPartition(rooms: seq<Room>, categories: seq<Category>, items: seq<Item>, user: Id)
    requires forall i :: 0 <= i < |items| ==> items[i].quantity >= 0 && items[i].lowStockThreshold >= 0
    ensures var s := StatsOf(rooms, categories, items, user);
      && s.lowStockItems == s.stockLevels.outOfStock + s.stockLevels.lowStock
      && s.stockLevels.outOfStock + s.stockLevels.lowStock + s.stockLevels.normalStock == s.totalItems
  {
    var rows := UserRows(rooms, categories, items, user);
    assert forall i :: 0 <= i < |rows| ==> rows[i].item.quantity >= 0 && rows[i].item.lowStockThreshold >= 0;
    Seqs.FilterUnion(rows, IsOutOfStock, IsLowBand, IsLowStock);
    LowOrNormal(rooms, categories, items, user);
  }

  lemma {:induction false} CountOfRows(rows: seq<StatRow>)
    ensures TotalWeight(rows, One) == |rows|
  {
    if rows != [] {
      CountOfRows(rows[..|rows| - 1]);
    }
  }

  /**
   * `itemsByRoom` lists each room name once (rooms sharing a name merge),
   * exactly the names of rooms holding the caller's items, each with the
   * number of those items, and the counts add up to `totalItems`.
   */
  lemma ItemsByRoomCounts(rooms: seq<Room>, categories: seq<Category>, items: seq<Item>, user: Id)
    ensures var rows := UserRows(rooms, categories, items, user);
      var s := StatsOf(rooms, categories, items, user);
      && DistinctNames(s.itemsByRoom)
      && (forall e :: e in s.itemsByRoom ==> e.name in KeysOf(rows, RoomName) && e.total == WeightOf(rows, RoomName, One, e.name))
      && (forall n :: n in KeysOf(rows, RoomName) ==> IndexOf(s.itemsByRoom, n) >= 0)
      && SumTotals(s.itemsByRoom) == s.totalItems
  {
    var rows := UserRows(rooms, categories, items, user);
    TallyMeaning(rows, RoomName, One);
    TallySum(rows, RoomName, One);
    CountOfRows(rows);
  }

  /**
   * The top five of the per-category quantities: no name twice, largest
   * first, each with the summed quantity of its rows; a name left out holds
   * no more than any name shown.
   */
  lemma TopFiveOfTally(rows: seq<StatRow>)
    ensures var top := TopFive(Tally(rows, CategoryName, Quantity));
      && DistinctNames(top)
      && (forall e :: e in top ==> e.name in KeysOf(rows, CategoryName) && e.total == WeightOf(rows, CategoryName, Quantity, e.name))
      && (forall n :: n in KeysOf(rows, CategoryName) && IndexOf(top, n) < 0 ==>
            forall i :: 0 <= i < |top| ==> top[i].total >= WeightOf(rows, CategoryName, Quantity, n))
  {
    var all := Tally(rows, CategoryName, Quantity);
    var top := TopFive(all);
    TallyMeaning(rows, CategoryName, Quantity);
    TopFiveIsTop(all);
    TopFiveDistinct(all);
    forall e | e in top ensures e in all {
      var k :| 0 <= k < |top| && top[k] == e;
    }
    forall n | n in KeysOf(rows, CategoryName) && IndexOf(top, n) < 0
      ensures forall i :: 0 <= i < |top| ==> top[i].total >= WeightOf(rows, CategoryName, Quantity, n)
    {
      var e := all[IndexOf(all, n)];
      assert e in all && e !in top;
    }
  }

  /**
   * `quantityByCategory` is at most five category names, no name twice,
   * largest quantity first, each with the summed quantity of the caller's
   * items in categories of that name; a category name left out holds no
   * more than any name shown.
   */
  lemma QuantityByCategoryTopFive(rooms: seq<Room>, categories: seq<Category>, items: seq<Item>, user: Id)
    ensures var rows := UserRows(rooms, categories, items, user);
      var top := StatsOf(rooms, categories, items, user).quantityByCategory;
      && |top| <= 5
      && DistinctNames(top)
      && (forall i, j :: 0 <= i < j < |top| ==> top[i].total >= top[j].total)
      && (forall e :: e in top ==> e.name in KeysOf(rows, CategoryName) && e.total == WeightOf(rows, CategoryName, Quantity, e.name))
      && (forall n :: n in KeysOf(rows, CategoryName) && IndexOf(top, n) < 0 ==>
            forall i :: 0 <= i < |top| ==> top[i].total >= WeightOf(rows, CategoryName, Quantity, n))
  {
    TopFiveOfTally(UserRows(rooms, categories, items, user));
  }
}
