/**
 * The items page: the search, room and stock filters, the sort menu, and the
 * CSV export's text (the download itself is left out).
 */
module ItemsPage {
  import opened Wrappers
  import opened Store
  import opened Text
  import Seqs

  /** An item as `GET /api/items` delivers it, with its category and the category's room. */
  datatype ListedItem = ListedItem(item: Item, categoryName: string, roomId: Id, roomName: string)

  /** `isLowStock`. */
  predicate IsLowStock(it: ListedItem)
  {
    it.item.quantity <= it.item.lowStockThreshold
  }

  /** The room menu: `"all"` or one room's id. */
  datatype RoomFilter = AllRooms | OnlyRoom(roomId: Id)

  /** Case-insensitive search in the item's name; the empty search matches every name. */
  predicate MatchesSearch(it: ListedItem, search: string)
  {
    Includes(Lower(it.item.name), Lower(search))
  }

  predicate MatchesRoom(it: ListedItem, room: RoomFilter)
  {
    room.AllRooms? || it.roomId == room.roomId
  }

  /** The stock menu: `"all"`, `"low"` or `"normal"`; any other value matches nothing. */
  predicate MatchesStock(it: ListedItem, stock: string)
  {
    stock == "all" || (stock == "low" && IsLowStock(it)) || (stock == "normal" && !IsLowStock(it))
  }

  predicate Matches(it: ListedItem, search: string, room: RoomFilter, stock: string)
  {
    MatchesSearch(it, search) && MatchesRoom(it, room) && MatchesStock(it, stock)
  }

  /** The `filter` half of `filteredItems`: exactly the matching items, in list order. */
  function FilterItems(items: seq<ListedItem>, search: string, room: RoomFilter, stock: string): (r: seq<ListedItem>)
    ensures forall i :: 0 <= i < |r| ==> Matches(r[i], search, room, stock)
    ensures forall i :: 0 <= i < |items| && Matches(items[i], search, room, stock) ==> items[i] in r
    ensures multiset(r) <= multiset(items)
  {
    Seqs.Filter(items, (it: ListedItem) => Matches(it, search, room, stock))
  }

  /** Filtering keeps list order: filtering a concatenation concatenates the filtered parts. */
  lemma FilterItemsKeepsOrder(a: seq<ListedItem>, b: seq<ListedItem>, search: string, room: RoomFilter, stock: string)
    ensures FilterItems(a + b, search, room, stock) == FilterItems(a, search, room, stock) + FilterItems(b, search, room, stock)
  {
    Seqs.FilterAppend(a, b, (it: ListedItem) => Matches(it, search, room, stock));
  }

  /** The page's initial filters (empty search, all rooms, all stock) show every item. */
  lemma NoFilterKeepsAll(items: seq<ListedItem>)
    ensures FilterItems(items, "", AllRooms, "all") == items
  {
    forall i | 0 <= i < |items| ensures Matches(items[i], "", AllRooms, "all") {
      assert OccursAt(Lower(items[i].item.name), Lower(""), 0);
    }
    Seqs.FilterKeepsAll(items, (it: ListedItem) => Matches(it, "", AllRooms, "all"));
  }

  /** For fixed search and room, the `"low"` and `"normal"` views split the `"all"` view between them. */
  lemma LowAndNormalSplitAll(items: seq<ListedItem>, search: string, room: RoomFilter)
    ensures multiset(FilterItems(items, search, room, "low")) + multiset(FilterItems(items, search, room, "normal"))
      == multiset(FilterItems(items, search, room, "all"))
    ensures |FilterItems(items, search, room, "low")| + |FilterItems(items, search, room, "normal")|
      == |FilterItems(items, search, room, "all")|
  {
    Seqs.FilterUnion(items,
      (it: ListedItem) => Matches(it, search, room, "low"),
      (it: ListedItem) => Matches(it, search, room, "normal"),
      (it: ListedItem) => Matches(it, search, room, "all"));
  }

  /** A stock menu value other than the three choices shows nothing. */
  lemma UnknownStockShowsNothing(items: seq<ListedItem>, search: string, room: RoomFilter, stock: string)
    requires stock != "all" && stock != "low" && stock != "normal"
    ensures FilterItems(items, search, room, stock) == []
  {
    Seqs.FilterKeepsNone(items, (it: ListedItem) => Matches(it, search, room, stock));
  }

  /**
   * The comparator of the sort menu as the ascending order of a key.
   * `collate` ranks names in the locale's collation order (what
   * `localeCompare` compares); an unknown choice compares everything as equal.
   */
  function SortKey(sortBy: string, collate: string -> int): ListedItem -> int
  {
    match sortBy
    case "name-asc" => (it: ListedItem) => collate(it.item.name)
    case "name-desc" => (it: ListedItem) => -collate(it.item.name)
    case "quantity-asc" => (it: ListedItem) => it.item.quantity
    case "quantity-desc" => (it: ListedItem) => -it.item.quantity
    case "date-asc" => (it: ListedItem) => it.item.createdAt
    case "date-desc" => (it: ListedItem) => -it.item.createdAt
    case _ => (it: ListedItem) => 0
  }

  /** The `sort` half of `filteredItems`: a stable sort, so a permutation of its input. */
  function SortItems(items: seq<ListedItem>, sortBy: string, collate: string -> int): (r: seq<ListedItem>)
    ensures multiset(r) == multiset(items)
    ensures Seqs.SortedBy(r, SortKey(sortBy, collate))
  {
    Seqs.SortBy(items, SortKey(sortBy, collate))
  }

  /** `filteredItems`: the matching items in the chosen order. */
  function VisibleItems(
    items: seq<ListedItem>, search: string, room: RoomFilter, stock: string, sortBy: string, collate: string -> int): (r: seq<ListedItem>)
    ensures multiset(r) == multiset(FilterItems(items, search, room, stock))
    ensures forall i :: 0 <= i < |r| ==> Matches(r[i], search, room, stock)
  {
    var kept := FilterItems(items, search, room, stock);
    Seqs.SortByKeeps(kept, SortKey(sortBy, collate), (it: ListedItem) => Matches(it, search, room, stock));
    SortItems(kept, sortBy, collate)
  }

  /** Each quantity and date choice orders by that field, in the named direction. */
  lemma SortOrders(items: seq<ListedItem>, collate: string -> int)
    ensures var r := SortItems(items, "quantity-asc", collate);
      forall i, j :: 0 <= i < j < |r| ==> r[i].item.quantity <= r[j].item.quantity
    ensures var r := SortItems(items, "quantity-desc", collate);
      forall i, j :: 0 <= i < j < |r| ==> r[i].item.quantity >= r[j].item.quantity
    ensures var r := SortItems(items, "date-asc", collate);
      forall i, j :: 0 <= i < j < |r| ==> r[i].item.createdAt <= r[j].item.createdAt
    ensures var r := SortItems(items, "date-desc", collate);
      forall i, j :: 0 <= i < j < |r| ==> r[i].item.createdAt >= r[j].item.createdAt
  {
  }

  /** The name choices order by collation rank, up or down. */
  lemma SortByName(items: seq<ListedItem>, collate: string -> int)
    ensures var r := SortItems(items, "name-asc", collate);
      forall i, j :: 0 <= i < j < |r| ==> collate(r[i].item.name) <= collate(r[j].item.name)
    ensures var r := SortItems(items, "name-desc", collate);
      forall i, j :: 0 <= i < j < |r| ==> collate(r[i].item.name) >= collate(r[j].item.name)
  {
  }

  /** A sort choice the switch does not know leaves the list as it is. */
  lemma UnknownSortKeepsOrder(items: seq<ListedItem>, sortBy: string, collate: string -> int)
    requires sortBy !in ["name-asc", "name-desc", "quantity-asc", "quantity-desc", "date-asc", "date-desc"]
    ensures SortItems(items, sortBy, collate) == items
  {
    var key := SortKey(sortBy, collate);
    assert forall it :: key(it) == 0;
    Seqs.SortByConstantKey(items, key);
  }

  /** `replace(/"/g, '""')`: every double quote doubled. */
  function DoubleQuotes(text: string): (r: string)
    ensures |r| >= |text|
  {
    if text == [] then []
    else (if text[0] == '"' then "\"\"" else [text[0]]) + DoubleQuotes(text[1..])
  }

  /** One exported cell: the text in double quotes, with its own quotes doubled. */
  function CsvCell(text: string): string
  {
    "\"" + DoubleQuotes(text) + "\""
  }

  function QuoteAll(cells: seq<string>): (r: seq<string>)
    ensures |r| == |cells|
    ensures forall i :: 0 <= i < |r| ==> r[i] == CsvCell(cells[i])
  {
    if cells == [] then [] else [CsvCell(cells[0])] + QuoteAll(cells[1..])
  }

  /** `row.map(quote).join(",")`. */
  function CsvLine(cells: seq<string>): string
  {
    Join(QuoteAll(cells), ",")
  }

  const CsvHeaders: seq<string> :=
    ["Name", "Description", "Quantity", "Low Stock Threshold", "Room", "Category", "Status", "Image URL", "Created At"]

  /** `headers.join(",")`: the header line is not quoted. */
  function HeaderLine(): string
  {
    Join(CsvHeaders, ",")
  }

  /**
   * The nine fields exported for an item, in header order. `formatDate` is
   * `toLocaleDateString`, which depends on the browser's locale.
   */
  function CsvFields(it: ListedItem, formatDate: Timestamp -> string): (r: seq<string>)
    ensures |r| == |CsvHeaders|
    ensures r[0] == it.item.name && r[4] == it.roomName && r[5] == it.categoryName
    ensures r[6] == "Low Stock" <==> IsLowStock(it)
    ensures r[6] == "Normal" <==> !IsLowStock(it)
  {
    [ it.item.name,
      it.item.description.GetOr(""),
      IntToString(it.item.quantity),
      IntToString(it.item.lowStockThreshold),
      it.roomName,
      it.categoryName,
      if IsLowStock(it) then "Low Stock" else "Normal",
      it.item.imageUrl.GetOr(""),
      formatDate(it.item.createdAt) ]
  }

  function Records(items: seq<ListedItem>, formatDate: Timestamp -> string): (r: seq<seq<string>>)
    ensures |r| == |items|
    ensures forall i :: 0 <= i < |r| ==> r[i] == CsvFields(items[i], formatDate)
  {
    if items == [] then [] else [CsvFields(items[0], formatDate)] + Records(items[1..], formatDate)
  }

  function Lines(records: seq<seq<string>>): (r: seq<string>)
    ensures |r| == |records|
    ensures forall i :: 0 <= i < |r| ==> r[i] == CsvLine(records[i])
  {
    if records == [] then [] else [CsvLine(records[0])] + Lines(records[1..])
  }

  /** `exportToCSV`'s text: none for an empty list (the page shows an error instead). */
  function ExportCsv(items: seq<ListedItem>, formatDate: Timestamp -> string): (r: Option<string>)
    ensures r.None? <==> items == []
  {
    if items == [] then None
    else Some(Join([HeaderLine()] + Lines(Records(items, formatDate)), "\n"))
  }

  /**
   * Reads the rest of a quoted cell, after its opening quote: the text up to
   * the closing quote, where a doubled quote stands for one, and what follows.
   */
  function ReadQuoted(s: string): (r: Option<(string, string)>)
    ensures r.Some? ==> |r.value.1| < |s|
  {
    if s == [] then None
    else if s[0] == '"' then
      if |s| >= 2 && s[1] == '"' then
        match ReadQuoted(s[2..])
        case None => None
        case Some((text, rest)) => Some(("\"" + text, rest))
      else Some(("", s[1..]))
    else
      match ReadQuoted(s[1..])
      case None => None
      case Some((text, rest)) => Some(([s[0]] + text, rest))
  }

  /** Reads one record of quoted cells separated by commas, and what follows it. */
  function ReadCells(s: string): (r: Option<(seq<string>, string)>)
    ensures r.Some? ==> |r.value.1| < |s|
    decreases |s|
  {
    if s == [] || s[0] != '"' then None
    else
      match ReadQuoted(s[1..])
      case None => None
      case Some((cell, rest)) =>
        if rest != [] && rest[0] == ',' then
          match ReadCells(rest[1..])
          case None => None
          case Some((more, tail)) => Some(([cell] + more, tail))
        else Some(([cell], rest))
  }

  /** Reads records of quoted cells, one per line, as a CSV reader following RFC 4180 does. */
  function ReadRecords(s: string): Option<seq<seq<string>>>
    decreases |s|
  {
    match ReadCells(s)
    case None => None
    case Some((record, rest)) =>
      if rest == [] then Some([record])
      else if rest[0] == '\n' then
        match ReadRecords(rest[1..])
        case None => None
        case Some(more) => Some([record] + more)
      else None
  }

  /** A doubled-up text followed by the closing quote reads back as the text. */
  lemma {:induction false} ReadQuotedDoubled(text: string, rest: string)
    requires rest == [] || rest[0] != '"'
    ensures ReadQuoted(DoubleQuotes(text) + "\"" + rest) == Some((text, rest))
  {
    if text == [] {
      assert DoubleQuotes(text) + "\"" + rest == "\"" + rest;
    } else {
      ReadQuotedDoubled(text[1..], rest);
      var tail := DoubleQuotes(text[1..]) + "\"" + rest;
      assert text == [text[0]] + text[1..];
      if text[0] == '"' {
        assert DoubleQuotes(text) + "\"" + rest == "\"\"" + tail;
        assert ("\"\"" + tail)[2..] == tail;
      } else {
        assert DoubleQuotes(text) + "\"" + rest == [text[0]] + tail;
        assert ([text[0]] + tail)[1..] == tail;
      }
    }
  }

  /** The first cell of a line, and the comma before the rest. */
  lemma {:induction false} CsvLineUnfold(cells: seq<string>)
    requires cells != []
    ensures |cells| == 1 ==> CsvLine(cells) == CsvCell(cells[0])
    ensures |cells| > 1 ==> CsvLine(cells) == CsvCell(cells[0]) + "," + CsvLine(cells[1..])
  {
    assert QuoteAll(cells)[1..] == QuoteAll(cells[1..]);
  }

  /** A cell followed by neither a quote nor a comma ends its record. */
  lemma {:induction false} ReadLastCell(cell: string, after: string)
    requires after == [] || (after[0] != '"' && after[0] != ',')
    ensures ReadCells(CsvCell(cell) + after) == Some(([cell], after))
  {
    ReadQuotedDoubled(cell, after);
    var s := CsvCell(cell) + after;
    assert s == "\"" + (DoubleQuotes(cell) + "\"" + after);
  }

  /** A cell followed by a comma goes on with the next cell. */
  lemma {:induction false} ReadNextCell(cell: string, more: string, cells: seq<string>, tail: string)
    requires ReadCells(more) == Some((cells, tail))
    ensures ReadCells(CsvCell(cell) + "," + more) == Some(([cell] + cells, tail))
  {
    var after := "," + more;
    ReadQuotedDoubled(cell, after);
    var s := CsvCell(cell) + after;
    assert CsvCell(cell) + "," + more == s;
    assert s == "\"" + (DoubleQuotes(cell) + "\"" + after);
    assert s[1..] == DoubleQuotes(cell) + "\"" + after;
    assert after[0] == ',' && after[1..] == more;
  }

  /** An exported line reads back as its cells, whatever they contain. */
  lemma {:induction false} ReadLine(cells: seq<string>, rest: string)
    requires cells != []
    requires rest == [] || rest[0] == '\n'
    ensures ReadCells(CsvLine(cells) + rest) == Some((cells, rest))
  {
    CsvLineUnfold(cells);
    if |cells| == 1 {
      ReadLastCell(cells[0], rest);
      assert [cells[0]] == cells;
    } else {
      var more := CsvLine(cells[1..]);
      ReadLine(cells[1..], rest);
      ReadNextCell(cells[0], more + rest, cells[1..], rest);
      assert CsvLine(cells) + rest == CsvCell(cells[0]) + "," + (more + rest);
      assert [cells[0]] + cells[1..] == cells;
    }
  }

  /** The first line of an export body, and the line break before the rest. */
  lemma {:induction false} LinesUnfold(records: seq<seq<string>>)
    requires records != []
    ensures |records| == 1 ==> Join(Lines(records), "\n") == CsvLine(records[0])
    ensures |records| > 1 ==> Join(Lines(records), "\n") == CsvLine(records[0]) + "\n" + Join(Lines(records[1..]), "\n")
  {
    assert Lines(records)[1..] == Lines(records[1..]);
  }

  /** A single exported line reads back as its one record. */
  lemma {:induction false} ReadOneLine(records: seq<seq<string>>)
    requires |records| == 1 && records[0] != []
    ensures ReadRecords(Join(Lines(records), "\n")) == Some(records)
  {
    LinesUnfold(records);
    ReadLine(records[0], []);
    assert CsvLine(records[0]) + [] == CsvLine(records[0]);
    assert [records[0]] == records;
  }

  /** An exported line followed by a line break goes on with the lines after it. */
  lemma {:induction false} ReadNextLine(records: seq<seq<string>>)
    requires |records| > 1 && records[0] != []
    requires ReadRecords(Join(Lines(records[1..]), "\n")) == Some(records[1..])
    ensures ReadRecords(Join(Lines(records), "\n")) == Some(records)
  {
    var more := Join(Lines(records[1..]), "\n");
    assert Join(Lines(records), "\n") == CsvLine(records[0]) + "\n" + more by {
      LinesUnfold(records);
    }
    assert [records[0]] + records[1..] == records;
    ReadLineThen(records[0], more, records[1..]);
  }

  /** An exported line, a line break and text holding records read back as the line's cells and those records. */
  lemma {:induction false} ReadLineThen(cells: seq<string>, more: string, records: seq<seq<string>>)
    requires cells != []
    requires ReadRecords(more) == Some(records)
    ensures ReadRecords(CsvLine(cells) + "\n" + more) == Some([cells] + records)
  {
    ReadLine(cells, "\n" + more);
    assert CsvLine(cells) + "\n" + more == CsvLine(cells) + ("\n" + more);
    ReadRecordsStep(CsvLine(cells) + "\n" + more, cells, more, records);
  }

  /** A record ended by a line break goes on with the records read after it. */
  lemma {:induction false} ReadRecordsStep(s: string, record: seq<string>, more: string, records: seq<seq<string>>)
    requires ReadCells(s) == Some((record, "\n" + more))
    requires ReadRecords(more) == Some(records)
    ensures ReadRecords(s) == Some([record] + records)
  {
    var rest := "\n" + more;
    assert rest[0] == '\n' && rest[1..] == more;
  }

  /** Exported lines joined by newlines read back as their records. */
  lemma {:induction false} ReadLines(records: seq<seq<string>>)
    requires records != []
    requires forall i :: 0 <= i < |records| ==> records[i] != []
    ensures ReadRecords(Join(Lines(records), "\n")) == Some(records)
  {
    if |records| == 1 {
      ReadOneLine(records);
    } else {
      ReadLines(records[1..]);
      ReadNextLine(records);
    }
  }

  /** A separator-free list joined without line breaks has no line break. */
  lemma {:induction false} JoinHasNoLineBreak(parts: seq<string>, sep: string)
    requires '\n' !in sep
    requires forall i :: 0 <= i < |parts| ==> '\n' !in parts[i]
    ensures '\n' !in Join(parts, sep)
  {
    if |parts| > 1 {
      JoinHasNoLineBreak(parts[1..], sep);
    }
  }

  /** The header line holds no line break, so it is exactly the first line of an export. */
  lemma HeaderIsOneLine()
    ensures '\n' !in HeaderLine()
  {
    forall i | 0 <= i < |CsvHeaders| ensures '\n' !in CsvHeaders[i] {
    }
    JoinHasNoLineBreak(CsvHeaders, ",");
  }

  /** A non-empty export is the header line, a line break, and the item lines. */
  lemma {:induction false} ExportShape(items: seq<ListedItem>, formatDate: Timestamp -> string)
    requires items != []
    ensures ExportCsv(items, formatDate) == Some(HeaderLine() + "\n" + Join(Lines(Records(items, formatDate)), "\n"))
  {
    var lines := Lines(Records(items, formatDate));
    assert ([HeaderLine()] + lines)[1..] == lines;
  }

  /**
   * A non-empty export is the header on a line of its own followed by the
   * item lines, and reading those back gives each item's nine fields in
   * header order, the Status field saying "Low Stock" exactly for low-stock
   * items. Cells may hold commas, quotes and line breaks.
   */
  lemma ExportReadsBack(items: seq<ListedItem>, formatDate: Timestamp -> string)
    requires items != []
    ensures var body := Join(Lines(Records(items, formatDate)), "\n");
      && ExportCsv(items, formatDate) == Some(HeaderLine() + "\n" + body)
      && '\n' !in HeaderLine()
      && ReadRecords(body) == Some(Records(items, formatDate))
  {
    ExportShape(items, formatDate);
    HeaderIsOneLine();
    ReadLines(Records(items, formatDate));
  }
}
