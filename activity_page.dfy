/**
 * The activity page: how an action is labelled and coloured, the action and
 * entity filters, and what `formatChanges` shows for a log entry's
 * `changes` (the JSX it renders is left out).
 */
module ActivityPage {
  import opened Wrappers
  import opened Text
  import Seqs

  /** A regular-expression word character (`\w`): an ASCII letter, digit or underscore. */
  predicate IsWordChar(c: char)
  {
    IsAsciiLower(c) || IsAsciiUpper(c) || ('0' <= c <= '9') || c == '_'
  }

  /** `replace(/_/g, " ")`. */
  function SpaceOut(s: string): (r: string)
    ensures |r| == |s|
    ensures forall i :: 0 <= i < |s| ==> r[i] == (if s[i] == '_' then ' ' else s[i])
  {
    if s == [] then [] else [if s[0] == '_' then ' ' else s[0]] + SpaceOut(s[1..])
  }

  /**
   * `replace(/\b\w/g, l => l.toUpperCase())` on the rest of a string;
   * `afterWord` says whether the character before it is a word character.
   */
  function UpperWordStarts(s: string, afterWord: bool): (r: string)
    ensures |r| == |s|
  {
    if s == [] then []
    else
      [if IsWordChar(s[0]) && !afterWord then UpperChar(s[0]) else s[0]]
      + UpperWordStarts(s[1..], IsWordChar(s[0]))
  }

  /** `formatAction`: underscores to spaces, then the first character of each word upper-cased. */
  function FormatAction(action: string): string
  {
    UpperWordStarts(SpaceOut(action), false)
  }

  /**
   * A word starts at `i` of `s`: a word character not preceded by one,
   * where `afterWord` says whether the character before `s` is one.
   */
  predicate StartsWord(s: string, i: nat, afterWord: bool)
    requires i < |s|
  {
    IsWordChar(s[i]) && if i == 0 then !afterWord else !IsWordChar(s[i - 1])
  }

  /** The character at `i` once the word starts of `s` are upper-cased. */
  function Capitalized(s: string, i: nat, afterWord: bool): char
    requires i < |s|
  {
    if StartsWord(s, i, afterWord) then UpperChar(s[i]) else s[i]
  }

  lemma UpperCharKeepsWordChars(c: char)
    ensures IsWordChar(UpperChar(c)) == IsWordChar(c)
    ensures UpperChar(UpperChar(c)) == UpperChar(c)
  {
  }

  lemma {:induction false} UpperWordStartsAt(s: string, afterWord: bool)
    ensures forall i :: 0 <= i < |s| ==> UpperWordStarts(s, afterWord)[i] == Capitalized(s, i, afterWord)
  {
    if s != [] {
      UpperWordStartsAt(s[1..], IsWordChar(s[0]));
      var r := UpperWordStarts(s, afterWord);
      assert r[1..] == UpperWordStarts(s[1..], IsWordChar(s[0]));
      forall i | 1 <= i < |s|
        ensures r[i] == Capitalized(s, i, afterWord)
      {
        assert r[i] == r[1..][i - 1] && s[i] == s[1..][i - 1];
        assert r[1..][i - 1] == Capitalized(s[1..], i - 1, IsWordChar(s[0]));
        if i > 1 {
          assert s[i - 1] == s[1..][i - 2];
        }
      }
    }
  }

  /**
   * What `formatAction` does, character by character: same length, every
   * underscore a space, every character that starts a word upper-cased and
   * every other character kept.
   */
  lemma FormatActionChars(action: string)
    ensures |FormatAction(action)| == |action|
    ensures forall i :: 0 <= i < |action| ==> FormatAction(action)[i] != '_'
    ensures forall i :: 0 <= i < |action| && action[i] == '_' ==> FormatAction(action)[i] == ' '
    ensures forall i :: 0 <= i < |action| ==> FormatAction(action)[i] == Capitalized(SpaceOut(action), i, false)
    ensures forall i :: 0 <= i < |action| && StartsWord(SpaceOut(action), i, false) ==> !IsAsciiLower(FormatAction(action)[i])
  {
    UpperWordStartsAt(SpaceOut(action), false);
  }

  lemma {:induction false} UpperWordStartsTwice(s: string, afterWord: bool)
    ensures UpperWordStarts(UpperWordStarts(s, afterWord), afterWord) == UpperWordStarts(s, afterWord)
  {
    if s != [] {
      UpperCharKeepsWordChars(s[0]);
      UpperWordStartsTwice(s[1..], IsWordChar(s[0]));
      var r := UpperWordStarts(s, afterWord);
      assert r[1..] == UpperWordStarts(s[1..], IsWordChar(s[0]));
      assert IsWordChar(r[0]) == IsWordChar(s[0]);
    }
  }

  lemma {:induction false} SpaceOutNoUnderscore(s: string)
    requires forall i :: 0 <= i < |s| ==> s[i] != '_'
    ensures SpaceOut(s) == s
  {
    if s != [] {
      SpaceOutNoUnderscore(s[1..]);
    }
  }

  /** Formatting an already formatted action changes nothing. */
  lemma FormatActionIdempotent(action: string)
    ensures FormatAction(FormatAction(action)) == FormatAction(action)
  {
    var r := FormatAction(action);
    FormatActionChars(action);
    SpaceOutNoUnderscore(r);
    UpperWordStartsTwice(SpaceOut(action), false);
  }

  /** `getActionColor`. */
  function GetActionColor(action: string): (r: string)
    ensures r == "text-gray-600" <==> action !in ["created", "updated", "deleted", "quantity_adjusted"]
  {
    match action
    case "created" => "text-green-600"
    case "updated" => "text-blue-600"
    case "deleted" => "text-red-600"
    case "quantity_adjusted" => "text-purple-600"
    case _ => "text-gray-600"
  }

  /** The four known actions get four different colours. */
  lemma ActionColorsDiffer()
    ensures var known := ["created", "updated", "deleted", "quantity_adjusted"];
      forall i, j :: 0 <= i < j < |known| ==> GetActionColor(known[i]) != GetActionColor(known[j])
  {
  }

  /** A log entry as `GET /api/activity` delivers it (the user and the date are left out). */
  datatype Activity = Activity(action: string, entityType: string, entityName: string, changes: Json)

  predicate MatchesFilters(a: Activity, filterAction: string, filterEntity: string)
  {
    (filterAction == "all" || a.action == filterAction) && (filterEntity == "all" || a.entityType == filterEntity)
  }

  /** `filteredActivities`: exactly the entries matching both menus, in list order. */
  function FilterActivities(activities: seq<Activity>, filterAction: string, filterEntity: string): (r: seq<Activity>)
    ensures forall i :: 0 <= i < |r| ==> r[i] in activities && MatchesFilters(r[i], filterAction, filterEntity)
    ensures forall i :: 0 <= i < |activities| && MatchesFilters(activities[i], filterAction, filterEntity) ==> activities[i] in r
  {
    Seqs.Filter(activities, (a: Activity) => MatchesFilters(a, filterAction, filterEntity))
  }

  /** With both menus on "all", every entry shows, in the order given. */
  lemma AllFiltersKeepAll(activities: seq<Activity>)
    ensures FilterActivities(activities, "all", "all") == activities
  {
    Seqs.FilterKeepsAll(activities, (a: Activity) => MatchesFilters(a, "all", "all"));
  }

  /** Filtering keeps the relative order: filtering a concatenation concatenates the filtered parts. */
  lemma FilterActivitiesKeepsOrder(a: seq<Activity>, b: seq<Activity>, filterAction: string, filterEntity: string)
    ensures FilterActivities(a + b, filterAction, filterEntity)
      == FilterActivities(a, filterAction, filterEntity) + FilterActivities(b, filterAction, filterEntity)
  {
    Seqs.FilterAppend(a, b, (x: Activity) => MatchesFilters(x, filterAction, filterEntity));
  }

  /** A JSON value as the page receives it; `Undefined` is a property that is not there. */
  datatype Json = Undefined | Null | Bool(b: bool) | Num(n: int) | Str(s: string) | Arr(elems: seq<Json>) | Obj(members: seq<Member>)

  datatype Member = Member(key: string, value: Json)

  /** JavaScript truthiness. */
  predicate Truthy(j: Json)
  {
    match j
    case Undefined => false
    case Null => false
    case Bool(b) => b
    case Num(n) => n != 0
    case Str(s) => s != ""
    case _ => true
  }

  /** `a || b`. */
  function Or(a: Json, b: Json): Json
  {
    if Truthy(a) then a else b
  }

  function Lookup(members: seq<Member>, key: string): (r: Json)
    ensures r != Undefined ==> exists i :: 0 <= i < |members| && members[i].key == key && members[i].value == r
    ensures (forall i :: 0 <= i < |members| ==> members[i].key != key) ==> r == Undefined
  {
    if members == [] then Undefined
    else if members[0].key == key then members[0].value
    else Lookup(members[1..], key)
  }

  /** `j.key`: a member of an object, undefined on other values, and a TypeError on null or undefined. */
  function Get(j: Json, key: string): Option<Json>
  {
    match j
    case Undefined => None
    case Null => None
    case Obj(members) => Some(Lookup(members, key))
    case _ => Some(Undefined)
  }

  /** `Object.keys(j)`: an object's keys in order. */
  function Keys(j: Json): (r: seq<string>)
    ensures j.Obj? ==> |r| == |j.members| && forall i :: 0 <= i < |r| ==> r[i] == j.members[i].key
  {
    match j
    case Obj(members) => seq(|members|, i requires 0 <= i < |members| => members[i].key)
    case _ => []
  }

  /** One row of an update: the field, and its old and new values with "empty" for a falsy one. */
  datatype FieldChange = FieldChange(field: string, from: Json, to: Json)

  /** What `formatChanges` renders, without the markup. */
  datatype ChangeView =
    | QuantityView(from: Json, to: Json, adjustment: Json, increase: bool)
    | FieldsView(rows: seq<FieldChange>)
    | DeletedView(name: Json, quantity: Option<Json>)
    | TypeError

  function Empty(): Json { Str("empty") }

  /** `changes[field].from || "empty"` and `.to || "empty"` for each field in turn. */
  function FieldRows(changes: Json, fields: seq<string>): (r: Option<seq<FieldChange>>)
    ensures r.Some? ==> |r.value| == |fields|
    ensures r.Some? ==> forall i :: 0 <= i < |fields| ==> r.value[i].field == fields[i]
  {
    if fields == [] then Some([])
    else
      match Get(changes, fields[0])
      case None => None
      case Some(entry) =>
        (match (Get(entry, "from"), Get(entry, "to"))
         case (Some(from), Some(to)) =>
           (match FieldRows(changes, fields[1..])
            case None => None
            case Some(rest) => Some([FieldChange(fields[0], Or(from, Empty()), Or(to, Empty()))] + rest))
         case _ => None)
  }

  /** `adjustment > 0` for a number; other values are not compared. */
  predicate Positive(j: Json)
  {
    j.Num? && j.n > 0
  }

  /** `formatChanges(action, changes)`: `None` where the page renders `null`. */
  function FormatChanges(action: string, changes: Json): Option<ChangeView>
  {
    if !Truthy(changes) then None
    else if action == "quantity_adjusted" then
      match (Get(changes, "from"), Get(changes, "to"), Get(changes, "adjustment"))
      case (Some(from), Some(to), Some(adjustment)) => Some(QuantityView(from, to, adjustment, Positive(adjustment)))
      case _ => Some(TypeError)
    else if action == "updated" then
      var fields := Keys(changes);
      if fields == [] then None
      else
        match FieldRows(changes, fields)
        case None => Some(TypeError)
        case Some(rows) => Some(FieldsView(rows))
    else if action == "deleted" then
      match (Get(changes, "deletedItem"), Get(changes, "deletedRoom"), Get(changes, "deletedCategory"))
      case (Some(item), Some(room), Some(category)) =>
        var deleted := Or(Or(item, room), category);
        if !Truthy(deleted) then None
        else
          (match (Get(deleted, "name"), Get(deleted, "quantity"))
           case (Some(name), Some(quantity)) => Some(DeletedView(name, if quantity == Undefined then None else Some(quantity)))
           case _ => Some(TypeError))
      case _ => Some(TypeError)
    else None
  }

  /**
   * `formatChanges` renders nothing for falsy `changes`, for an action other
   * than the three it knows, and for an update without fields.
   */
  lemma FormatChangesNothing(action: string, changes: Json)
    ensures !Truthy(changes) ==> FormatChanges(action, changes).None?
    ensures action !in ["quantity_adjusted", "updated", "deleted"] ==> FormatChanges(action, changes).None?
    ensures action == "updated" && changes == Obj([]) ==> FormatChanges(action, changes).None?
  {
  }

  lemma {:induction false} LookupDistinct(members: seq<Member>, i: nat)
    requires i < |members|
    requires forall j, k :: 0 <= j < k < |members| ==> members[j].key != members[k].key
    ensures Lookup(members, members[i].key) == members[i].value
  {
    if i > 0 {
      LookupDistinct(members[1..], i - 1);
    }
  }

  /**
   * An update of an object whose fields each hold an object renders one row
   * per field in member order, with the old and the new value, each shown as
   * "empty" when it is falsy.
   */
  lemma UpdatedRowsPerField(changes: Json)
    requires changes.Obj? && changes.members != []
    requires forall i :: 0 <= i < |changes.members| ==> changes.members[i].value.Obj?
    requires forall i, j :: 0 <= i < j < |changes.members| ==> changes.members[i].key != changes.members[j].key
    ensures FormatChanges("updated", changes).Some?
    ensures FormatChanges("updated", changes).value.FieldsView?
    ensures |FormatChanges("updated", changes).value.rows| == |changes.members|
    ensures forall i :: 0 <= i < |changes.members| ==>
      && FormatChanges("updated", changes).value.rows[i].field == changes.members[i].key
      && FormatChanges("updated", changes).value.rows[i].from == Or(Lookup(changes.members[i].value.members, "from"), Empty())
      && FormatChanges("updated", changes).value.rows[i].to == Or(Lookup(changes.members[i].value.members, "to"), Empty())
  {
    var fields := Keys(changes);
    forall f | f in fields
      ensures Lookup(changes.members, f).Obj?
    {
      var i :| 0 <= i < |fields| && fields[i] == f;
      LookupDistinct(changes.members, i);
    }
    RowsAt(changes, fields);
    forall i | 0 <= i < |changes.members|
      ensures Lookup(changes.members, fields[i]) == changes.members[i].value
    {
      LookupDistinct(changes.members, i);
    }
  }

  lemma {:induction false} RowsAt(changes: Json, fields: seq<string>)
    requires changes.Obj?
    requires forall f :: f in fields ==> Lookup(changes.members, f).Obj?
    ensures FieldRows(changes, fields).Some?
    ensures forall i :: 0 <= i < |fields| ==>
      && FieldRows(changes, fields).value[i].from == Or(Lookup(Lookup(changes.members, fields[i]).members, "from"), Empty())
      && FieldRows(changes, fields).value[i].to == Or(Lookup(Lookup(changes.members, fields[i]).members, "to"), Empty())
  {
    if fields != [] {
      RowsAt(changes, fields[1..]);
      var r := FieldRows(changes, fields);
      assert r.value[1..] == FieldRows(changes, fields[1..]).value;
      forall i | 1 <= i < |fields|
        ensures r.value[i].from == Or(Lookup(Lookup(changes.members, fields[i]).members, "from"), Empty())
        ensures r.value[i].to == Or(Lookup(Lookup(changes.members, fields[i]).members, "to"), Empty())
      {
        assert r.value[i] == r.value[1..][i - 1] && fields[i] == fields[1..][i - 1];
      }
    }
  }

  /** `e.key` on a value that is neither null nor undefined: a member of an object, undefined otherwise. */
  function Prop(e: Json, key: string): Json
  {
    if e.Obj? then Lookup(e.members, key) else Undefined
  }

  /** The deletion row for a deleted record `e`: its name, and its quantity when it has one. */
  function Shown(e: Json): ChangeView
  {
    var q := Prop(e, "quantity");
    DeletedView(Prop(e, "name"), if q == Undefined then None else Some(q))
  }

  /**
   * A deletion shows the first truthy one of the deleted item, room and
   * category, and nothing when all three are falsy.
   */
  lemma DeletedShowsFirstTruthy(changes: Json)
    requires changes.Obj?
    ensures var item, room, category :=
        Lookup(changes.members, "deletedItem"), Lookup(changes.members, "deletedRoom"), Lookup(changes.members, "deletedCategory");
      var v := FormatChanges("deleted", changes);
      && (Truthy(item) ==> v == Some(Shown(item)))
      && (!Truthy(item) && Truthy(room) ==> v == Some(Shown(room)))
      && (!Truthy(item) && !Truthy(room) && Truthy(category) ==> v == Some(Shown(category)))
      && (!Truthy(item) && !Truthy(room) && !Truthy(category) ==> v.None?)
  {
    var item, room, category :=
      Lookup(changes.members, "deletedItem"), Lookup(changes.members, "deletedRoom"), Lookup(changes.members, "deletedCategory");
    var deleted := Or(Or(item, room), category);
    assert FormatChanges("deleted", changes) == if Truthy(deleted) then Some(Shown(deleted)) else None by {
      if Truthy(deleted) {
        GetProp(deleted, "name");
        GetProp(deleted, "quantity");
      }
    }
  }

  /** On a value that is neither null nor undefined, `e.key` does not throw. */
  lemma GetProp(e: Json, key: string)
    requires Truthy(e)
    ensures Get(e, key) == Some(Prop(e, key))
  {
  }
}
