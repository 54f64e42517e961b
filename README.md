# Inventory tracker: a verified model of its core

This project models the core of a home-inventory web application built on
Next.js route handlers, Prisma and zod. The application keeps rooms, the
categories inside each room, and the items inside each category, for each
signed-in user.

The model covers these parts:

- **API keys.** A user issues keys, each `inv_` followed by 64 lowercase hex
  digits, and lists them. Only a bcrypt hash of each key is stored.
  `GET /api/v1/inventory` authenticates a presented key by comparing it with
  the hash of every active key, in order, and stamps `lastUsed` on the first
  key that matches.
- **Create handlers** for items, categories and rooms, and the `GET` listings
  of items and rooms. Each handler checks its steps in order:
  - no session gives 401;
  - a body the zod schema refuses gives 400, with one issue per failing
    check, so a field can be listed twice;
  - a lookup of the parent room or category that throws gives 500;
  - an id outside the caller's rooms gives 404;
  - an insert that throws gives 500;
  - otherwise the new record is inserted. A failed activity-log write is
    swallowed.
- **Password change.** The handler answers with zod's first issue, then checks
  the stored user and the current password, then stores the bcrypt hash of the
  new password.
- **Dashboard statistics.** The handler computes counts, the low-stock
  figures, the items per room, and the five categories holding the most units.
- **The items page.** It filters by a search text, a room and a stock level,
  sorts by one of six choices, and exports a CSV file.
- **The activity page.** It labels and colours each action, filters by action
  and by entity, and renders `changes`. It renders nothing when `changes` is
  falsy.

The code is organised as follows:

- Each core source file is one Dafny module.
- The tables live in `Store.Db`, a class whose `seq` fields the writing
  handlers reassign, directly or through its small write methods. Each writing handler is a `method` proved against a
  heap-free `…Outcome` function, and lemmas state that function's properties.
- Read-only handlers and page logic are functions, with lemmas relating them
  to independent definitions.
- The loops the source runs become methods with invariants:
  - the candidate-key loop of `validateApiKey`;
  - the `reduce` accumulators of the statistics.

Some foreign parts are kept abstract:

- bcrypt is a pair of functions, `hash` and `compare`. The ghost predicate
  `Bcrypt.Sound` states the one property the code relies on: a password
  verifies against its own hash.
- `crypto.randomBytes`, the clock, the salt, `localeCompare`,
  `toLocaleDateString` and zod's URL test are parameters.
- Whether each database call throws is a boolean parameter.

In `validateApiKey` the `lastUsed` write sits inside the same `try` as the
key lookup, so when it throws the key is answered as invalid
(`ApiKeyAuth.Validate`, `ApiKeyAuth.FailuresReadInvalid`).

## Model

| member | source | states |
|---|---|---|
| ApiKeyAuth.FirstMatch | src/lib/api-key.ts:23-34 | the index found is the first candidate whose hash verifies the key; none is found exactly when no candidate verifies |
| ApiKeyAuth.ScanCandidates | src/lib/api-key.ts:23-34 | the loop stops at the first verifying candidate and has handed `compare` exactly the candidates up to and including it, or all of them when none verifies |
| ApiKeyAuth.ValidateApiKey | src/lib/api-key.ts:4-41 | the answer and the new key table are the ones `Validate` gives; the tables stay consistent |
| ApiKeyAuth.PrefixGuard | src/lib/api-key.ts:7-9 | a key without the `inv_` prefix is invalid, with no store read and no comparison |
| ApiKeyAuth.FailuresReadInvalid | src/lib/api-key.ts:11-40 | a throwing fetch or `lastUsed` write answers invalid; an invalid answer leaves the key table unchanged |
| ApiKeyAuth.ComparesOnlyActiveKeys | src/lib/api-key.ts:13-24 | only active keys are compared, each at most once |
| ApiKeyAuth.NoVerifyingKeyIsInvalid | src/lib/api-key.ts:23-36 | a key that verifies against no active record is invalid and changes nothing |
| ApiKeyAuth.FirstVerifyingKeyWins | src/lib/api-key.ts:23-33 | a valid answer names the owner of the first verifying active key, compares nothing after it, and changes only that key's `lastUsed` |
| ApiKeyAuth.ValidMeansActiveOwner | src/lib/api-key.ts:23-32 | a valid answer names the owner of an active key whose hash verifies the presented key |
| ApiKeyAuth.TouchLastUsed | src/lib/api-key.ts:27-30 | the update keeps the length and the id of every record |
| ApiKeyAuth.TouchLastUsedChangesOnlyThatKey | src/lib/api-key.ts:27-30 | with unique ids, the update by id changes exactly that record's `lastUsed` |
| ApiKeyAuth.ActiveKeys | src/lib/api-key.ts:13-20 | `where: { isActive: true }`: a key is fetched exactly when it is in the table and active |
| KeysRoute.KeySchema | src/app/api/keys/route.ts:8-10 | a name is accepted exactly when it is a string of 1 to 100 UTF-16 units |
| KeysRoute.GenerateApiKey | src/app/api/keys/route.ts:12-14 | a key is 68 characters, has the `inv_` prefix, and its hex part decodes back to the random bytes |
| KeysRoute.ListKeys | src/app/api/keys/route.ts:16-44 | 401 exactly without a session; 500 exactly when the query throws; a signed-in caller whose query succeeds always gets 200 with their keys, newest first, without their hashes |
| KeysRoute.NewestFirstKeys | src/app/api/keys/route.ts:24-35 | a permutation of the caller's keys, all owned by the caller, in non-increasing `createdAt` order |
| KeysRoute.KeysOfUser | src/app/api/keys/route.ts:25 | exactly the keys the user owns |
| KeysRoute.CreateKey | src/app/api/keys/route.ts:46-90 | 401, 400 or 500 change nothing; a signed-in caller with a valid name whose insert does not throw always succeeds; on success exactly one record is appended, and it holds a hash (not the plaintext) that verifies the returned plaintext |
| KeysRoute.IssuedKeyAuthenticates | src/app/api/keys/route.ts:58-66 | once stored and active, an issued key validates, as its owner when no earlier active key's hash verifies it |
| Bcrypt.HexEncode | src/app/api/keys/route.ts:13 | hex text has two lowercase digits per byte |
| Bcrypt.HexRoundTrip | src/app/api/keys/route.ts:13 | decoding the hex text of bytes gives the bytes back |
| Bcrypt.HexEncodeInjective | src/app/api/keys/route.ts:13 | distinct random bytes give distinct key texts |
| InventoryRoute.GetInventory | src/app/api/v1/inventory/route.ts:5-65 | 401 for a missing or empty header and for an invalid key; 500 when the rooms query throws; otherwise the key owner's room tree newest first, with totals equal to the numbers of rooms, categories and items in it |
| InventoryRoute.TotalCategoriesCountsAll | src/app/api/v1/inventory/route.ts:51 | the `reduce` for `totalCategories` counts every category of the tree |
| InventoryRoute.CategoryItemCountCountsAll | src/app/api/v1/inventory/route.ts:55 | the inner `reduce` counts every item of the categories |
| InventoryRoute.TotalItemsCountsAll | src/app/api/v1/inventory/route.ts:52-57 | `totalItems` counts every item of the tree |
| InventoryRoute.AnsweredRoomsBelongToKeyOwner | src/app/api/v1/inventory/route.ts:25-46 | every answered room belongs to the key's owner |
| Store.FindOwnedRoom | src/app/api/categories/route.ts:24-26 | a room is found exactly when it exists and belongs to the user |
| Store.FindOwnedCategory | src/app/api/items/route.ts:63-68 | a category is found exactly when it exists in one of the user's rooms |
| Store.NewestFirstRooms | src/app/api/rooms/route.ts:19-29 | a permutation of the user's rooms, in non-increasing `createdAt` order |
| Store.UserRoomTrees | src/app/api/rooms/route.ts:19-29 | the rooms of the tree are the user's rooms, newest first |
| Store.RoomTrees | src/app/api/rooms/route.ts:21-27 | each room carries exactly its categories, each with exactly its items |
| Store.ItemsOfCategory | src/app/api/categories/route.ts:38-40 | exactly the items of the category |
| Store.CategoriesOfRoom | src/app/api/rooms/route.ts:22-26 | exactly the categories of the room |
| Store.NoItemsOfUnusedCategory | src/app/api/categories/route.ts:32-41 | a category id no item refers to has no items |
| Store.ConsistentAddItem | src/app/api/items/route.ts:77-86 | inserting an item under a fresh id, in a stored category, keeps the tables consistent |
| Store.ConsistentAddCategory | src/app/api/categories/route.ts:32-41 | inserting a category under a fresh id, in a stored room, keeps the tables consistent |
| Store.ConsistentAddRoom | src/app/api/rooms/route.ts:51-57 | inserting a room under a fresh id keeps the tables consistent |
| Store.ConsistentReplaceUsers | src/app/api/auth/change-password/route.ts:51-54 | rewriting user records with the same ids keeps the tables consistent |
| Store.ConsistentReplaceKeys | src/lib/api-key.ts:27-30 | rewriting key records with the same ids keeps the tables consistent |
| Store.FreshBelowAppend | src/app/api/keys/route.ts:61-66 | issuing the counter as an id keeps ids distinct |
| Http.Refused | src/app/api/categories/route.ts:60-61 | the issue list holds exactly the refused fields, drawn from the schema's fields |
| Http.RefusedInOrder | src/app/api/categories/route.ts:60-61 | the issues follow the schema's field order, so no field is reported twice |
| Http.Paths | src/app/api/items/route.ts:106-108 | one issue path per issue, in order |
| Http.JsLength | src/app/api/items/route.ts:7 | a string's UTF-16 length lies between its number of characters and twice that |
| Http.JsLengthCountsAstral | src/app/api/items/route.ts:7 | the UTF-16 length counts a character above U+FFFF twice and every other character once |
| Http.JsLengthAppend | src/app/api/items/route.ts:7 | the UTF-16 length of a concatenation is the sum of the lengths |
| ItemsRoute.FieldIssues | src/app/api/items/route.ts:7-12 | a field raises no issue exactly when `itemSchema` accepts it, otherwise one per failing check; it raises two exactly when it is `quantity` or `lowStockThreshold` holding a negative non-integer (`int` and `min(0)` both fail) |
| ItemsRoute.IssuesOf | src/app/api/items/route.ts:6-13 | the issues name exactly the refused fields among those checked |
| ItemsRoute.IssuesOfInOrder | src/app/api/items/route.ts:6-13 | the issues come field after field, in schema order |
| ItemsRoute.IssuesOfCount | src/app/api/items/route.ts:6-13 | each field is reported as often as its own checks fail |
| ItemsRoute.ItemIssues | src/app/api/items/route.ts:6-13 | a field is listed exactly when `itemSchema` refuses it |
| ItemsRoute.ItemIssuesPerCheck | src/app/api/items/route.ts:6-13 | the issues come in schema order, and each field is listed once per failing check, so `quantity: -1.5` is listed twice |
| ItemsRoute.ItemSchema | src/app/api/items/route.ts:6-13 | parsing succeeds exactly when no field is refused; the parsed input carries the body's values, with a threshold of 10 when none is given; a rejection lists the issues `ItemIssues` gives, one per failing check |
| ItemsRoute.CreateItemRefusals | src/app/api/items/route.ts:52-113 | no session gives 401; a refused body gives 400 with one path per failing check; a throwing category lookup gives 500; a category outside the caller's rooms gives 404 "Category not found"; a throwing insert gives 500; otherwise it succeeds. None of the refusals adds anything or issues an id |
| ItemsRoute.CreateItemAddsOne | src/app/api/items/route.ts:77-104 | success adds exactly one item with the validated fields, in the caller's category, and logs it unless the log write fails |
| ItemsRoute.CreateItemLogIsBestEffort | src/app/api/items/route.ts:88-102 | whether the log write fails changes neither the answer nor the item table |
| ItemsRoute.CreatedItemInStoredCategory | src/app/api/items/route.ts:62-86 | the new item lies in a stored category and takes the one new id |
| ItemsRoute.CreateItem | src/app/api/items/route.ts:50-115 | the tables change exactly as `CreateItemOutcome` says and stay consistent |
| ItemsRoute.ItemsOfUser | src/app/api/items/route.ts:23-28 | exactly the items in categories of the user's rooms |
| ItemsRoute.NewestFirstItems | src/app/api/items/route.ts:23-39 | a permutation of the user's items, in non-increasing `createdAt` order |
| ItemsRoute.ListItems | src/app/api/items/route.ts:15-48 | 401 exactly without a session; 500 exactly when the query throws; a signed-in caller whose query succeeds always gets 200 with their items, newest first |
| CategoriesRoute.CategoryIssues | src/app/api/categories/route.ts:6-10 | a field is listed exactly when `categorySchema` refuses it, once, in schema order |
| CategoriesRoute.CategorySchema | src/app/api/categories/route.ts:6-10 | parsing succeeds exactly when no field is refused; a rejection lists the refused fields |
| CategoriesRoute.CreateCategoryRefusals | src/app/api/categories/route.ts:14-41 | 401, 400 with the refused paths, 500 for a throwing room lookup, 404 "Room not found" for a room outside the caller's, or 500 for a throwing insert, in that order, and success otherwise; no refusal adds anything or issues an id |
| CategoriesRoute.CreateCategoryAddsOne | src/app/api/categories/route.ts:32-58 | success adds exactly one category in the caller's room and logs it unless the log write fails |
| CategoriesRoute.CreatedCategoryIsEmpty | src/app/api/categories/route.ts:38-40 | the answered category's `items` is empty |
| CategoriesRoute.CreateCategoryLogIsBestEffort | src/app/api/categories/route.ts:43-56 | whether the log write fails changes neither the answer nor the category table |
| CategoriesRoute.CreatedCategoryInStoredRoom | src/app/api/categories/route.ts:24-41 | the new category lies in a stored room and takes the one new id |
| CategoriesRoute.CreateCategory | src/app/api/categories/route.ts:12-69 | the tables change exactly as `CreateCategoryOutcome` says and stay consistent |
| RoomsRoute.RoomIssues | src/app/api/rooms/route.ts:6-9 | a field is listed exactly when `roomSchema` refuses it, once, in schema order |
| RoomsRoute.RoomSchema | src/app/api/rooms/route.ts:6-9 | parsing succeeds exactly when no field is refused; a rejection lists the refused fields |
| RoomsRoute.CreateRoomCases | src/app/api/rooms/route.ts:40-70 | 401, 400 or 500 add nothing; success adds exactly one room owned by the caller under the new id |
| RoomsRoute.CreateRoom | src/app/api/rooms/route.ts:40-70 | the tables change exactly as `CreateRoomOutcome` says and stay consistent |
| RoomsRoute.ListRooms | src/app/api/rooms/route.ts:11-38 | 401 exactly without a session; 500 exactly when the query throws; a signed-in caller whose query succeeds always gets 200 with their rooms, newest first |
| RoomsRoute.ListedRoomsBelongToCaller | src/app/api/rooms/route.ts:19-29 | every listed room is the caller's, every category lies in its room and every item in its category |
| ChangePasswordRoute.StringIssue | src/app/api/auth/change-password/route.ts:8-10 | a field has no issue exactly when it is a string at least `min` long; a missing field is "Required"; a short one gets its own message |
| ChangePasswordRoute.PasswordIssues | src/app/api/auth/change-password/route.ts:7-14 | no issue exactly when the current password is given, the new one has at least 8 units and matches the confirmation. A mismatch is the last issue. The first issue is the current password's message, or else the new password's |
| ChangePasswordRoute.FindUser | src/app/api/auth/change-password/route.ts:28-31 | the user is found exactly when a record has the id |
| ChangePasswordRoute.SetPassword | src/app/api/auth/change-password/route.ts:51-54 | exactly the records with the id get the new password; ids are kept |
| ChangePasswordRoute.SetPasswordChangesOnlyThatUser | src/app/api/auth/change-password/route.ts:51-54 | with unique ids, exactly one record changes |
| ChangePasswordRoute.ChangePassword | src/app/api/auth/change-password/route.ts:16-70 | 401, 400 with the first issue, 500 for a throwing lookup, 404, 400 "Current password is incorrect" and 500 for a throwing update, in that order, change nothing; when every check passes and the update does not throw, the change succeeds. The table changes only after every check passes, and then exactly by `SetPassword` with the new hash |
| ChangePasswordRoute.NewPasswordVerifies | src/app/api/auth/change-password/route.ts:48-54 | after the change, the new password verifies against the stored hash; a password not starting with `$` is never stored as itself |
| DashboardStats.IndexOf | src/app/api/dashboard/stats/route.ts:47 | the index holds the name, and -1 means the name is absent |
| DashboardStats.Accumulate | src/app/api/dashboard/stats/route.ts:45-49 | the loop builds exactly the tally `Tally` defines |
| DashboardStats.TallyMeaning | src/app/api/dashboard/stats/route.ts:45-69 | the tally holds each key once, exactly the keys of the rows, each with the total weight of its rows |
| DashboardStats.TallySum | src/app/api/dashboard/stats/route.ts:45-69 | the totals of the tally add up to the total weight of the rows |
| DashboardStats.TopFive | src/app/api/dashboard/stats/route.ts:82-85 | exactly five entries, or all of them when there are fewer, in non-increasing order of total |
| DashboardStats.TopFiveIsTop | src/app/api/dashboard/stats/route.ts:82-85 | the kept entries come from the tally, and any entry left out has no more than every kept one |
| DashboardStats.TopFiveDistinct | src/app/api/dashboard/stats/route.ts:82-85 | the top five name distinct categories |
| DashboardStats.Place | src/app/api/dashboard/stats/route.ts:24-37 | each row carries the item with the names of its category and room |
| DashboardStats.UserRows | src/app/api/dashboard/stats/route.ts:24-37 | one row for each of the user's items, in the query's order, each naming that item's own category and room |
| DashboardStats.GetStats | src/app/api/dashboard/stats/route.ts:5-94 | 401 exactly without a session; 500 exactly when a query throws; a signed-in caller whose queries succeed always gets 200 with the statistics `StatsOf` computes |
| DashboardStats.LowOrNormal | src/app/api/dashboard/stats/route.ts:40-42 | low-stock and normal-stock items add up to all items |
| DashboardStats.StockLevelsPartition | src/app/api/dashboard/stats/route.ts:52-59 | for non-negative quantities and thresholds, out-of-stock plus low band equals `lowStockItems`, and the three levels add up to all items |
| DashboardStats.ItemsByRoomCounts | src/app/api/dashboard/stats/route.ts:45-49 | one entry for each name of a room holding the caller's items and for no other name, each counting those items; the counts add up to `totalItems` (for names not inherited from `Object.prototype`) |
| DashboardStats.QuantityByCategoryTopFive | src/app/api/dashboard/stats/route.ts:62-85 | the answered categories are at most five distinct ones holding the most units (for names not inherited from `Object.prototype`) |
| ItemsPage.FilterItems | src/app/dashboard/items/page.tsx:278-288 | exactly the items matching search, room and stock, drawn from the list |
| ItemsPage.FilterItemsKeepsOrder | src/app/dashboard/items/page.tsx:278-288 | filtering keeps the relative order |
| ItemsPage.NoFilterKeepsAll | src/app/dashboard/items/page.tsx:280-285 | an empty search with "all" rooms and "all" stock shows every item |
| ItemsPage.LowAndNormalSplitAll | src/app/dashboard/items/page.tsx:282-285 | "low" and "normal" split the list: together they hold every item once |
| ItemsPage.UnknownStockShowsNothing | src/app/dashboard/items/page.tsx:282-285 | a stock choice other than "all", "low" and "normal" shows nothing |
| ItemsPage.SortItems | src/app/dashboard/items/page.tsx:289-306 | a permutation, ordered by the chosen key |
| ItemsPage.VisibleItems | src/app/dashboard/items/page.tsx:278-306 | the sorted list holds exactly the filtered items |
| ItemsPage.SortOrders | src/app/dashboard/items/page.tsx:295-302 | quantity and date sort in the direction named |
| ItemsPage.SortByName | src/app/dashboard/items/page.tsx:291-294 | name sorts follow the collation, ascending or descending |
| ItemsPage.UnknownSortKeepsOrder | src/app/dashboard/items/page.tsx:303-304 | an unknown sort choice keeps the list as it is |
| ItemsPage.CsvFields | src/app/dashboard/items/page.tsx:118-128 | nine fields; the status is "Low Stock" exactly for low-stock items and "Normal" otherwise |
| ItemsPage.ExportCsv | src/app/dashboard/items/page.tsx:98-136 | nothing is exported exactly when the filtered list is empty |
| ItemsPage.ExportReadsBack | src/app/dashboard/items/page.tsx:131-136 | the export is the header line, a line break and a body; the header has no line break; an RFC 4180 reader recovers every row's nine fields from the body, whatever quotes, commas or line breaks they hold |
| ItemsPage.ReadQuotedDoubled | src/app/dashboard/items/page.tsx:134 | a quoted cell with its quotes doubled reads back as its text |
| ItemsPage.ReadLine | src/app/dashboard/items/page.tsx:133-135 | an exported row reads back as its cells |
| ItemsPage.ReadLines | src/app/dashboard/items/page.tsx:131-136 | exported rows joined by line breaks read back as the rows |
| ItemsPage.HeaderIsOneLine | src/app/dashboard/items/page.tsx:105-115 | the header names hold no line break |
| ActivityPage.FormatActionChars | src/app/dashboard/activity/page.tsx:95-97 | same length; no underscore is left; each underscore becomes a space; a word character not preceded by one is upper-cased, and every other character is kept |
| ActivityPage.FormatActionIdempotent | src/app/dashboard/activity/page.tsx:95-97 | formatting a formatted action changes nothing |
| ActivityPage.SpaceOut | src/app/dashboard/activity/page.tsx:96 | every underscore becomes a space and nothing else changes |
| ActivityPage.GetActionColor | src/app/dashboard/activity/page.tsx:80-93 | gray exactly for an action other than the four known ones |
| ActivityPage.ActionColorsDiffer | src/app/dashboard/activity/page.tsx:80-93 | the four known actions get four different colours |
| ActivityPage.FilterActivities | src/app/dashboard/activity/page.tsx:149-153 | exactly the entries matching both menus, drawn from the list |
| ActivityPage.AllFiltersKeepAll | src/app/dashboard/activity/page.tsx:149-153 | "all" in both menus shows every entry, in order |
| ActivityPage.FilterActivitiesKeepsOrder | src/app/dashboard/activity/page.tsx:149-153 | filtering keeps the relative order |
| ActivityPage.FormatChangesNothing | src/app/dashboard/activity/page.tsx:99-146 | nothing is rendered for falsy `changes` whatever the action, for an action other than the three known ones, or for an update with no fields |
| ActivityPage.UpdatedRowsPerField | src/app/dashboard/activity/page.tsx:115-129 | an update renders one row per field, in the object's member order, showing the old and the new value, each as "empty" when it is falsy |
| ActivityPage.DeletedShowsFirstTruthy | src/app/dashboard/activity/page.tsx:132-143 | a deletion shows the first truthy of the deleted item, room and category, with its quantity only when one is present; all three falsy render nothing |

## Left out

- Sessions (`getCurrentUser`) are an `Option<Id>` parameter. Cookies and NextAuth are not modelled.
- `req.json()` failing on a body that is not JSON is not modelled. Bodies arrive already parsed, field by field.
- Each zod issue is represented by its `path` only. The `code`, `message` and other issue fields of the 400 answers are not modelled.
- Whether a database call throws is a boolean parameter, one per call. The exception is `GetStats`, whose one parameter covers its three queries, since any of them answers 500. Prisma, connection pooling and transactions are not modelled.
- cuid ids are numbers from one counter, which the model uses as the stand-in for "fresh and never reused".
- `Date` values are integer milliseconds. `new Date()` is a parameter.
- bcrypt's algorithm and cost factor 12 are not modelled. Only `Bcrypt.Sound` is assumed of it.
- `crypto.randomBytes` is a parameter. Randomness, and the uniqueness it gives in practice, are not modelled.
- Key revocation and deletion, uploads, images, item updates and adjustments, and the room and category detail routes are not modelled. They are outside the modelled core.
- ItemsPage.SortKey: `localeCompare` is an integer collation key supplied by the caller, so two names compare as their keys do. Locale rules are not modelled.
- ItemsPage.CsvFields: `toLocaleDateString` is a caller-supplied function. `String(number)` is exact for the integer quantities.
- ItemsPage.MatchesSearch: `toLowerCase` is modelled for ASCII letters only.
- ItemsPage.ExportCsv: the Blob, the download link and the toasts are not modelled.
- ActivityPage.FormatAction: `\w` and `toUpperCase` are ASCII-only in JavaScript for these characters, so the model is exact. A literal worked example (`"quantity_adjusted"`) is not proved. `FormatActionChars` states the rule it instantiates.
- ActivityPage.FormatChanges: returns what is shown, not the JSX. The `capitalize` CSS class and `String()` of the shown values are not modelled. `adjustment > 0` is true only for a positive number, so JavaScript's coercion of strings is not modelled. `Object.keys` of a truthy non-object (an array or a string) is taken as empty. `Object.keys` lists integer-like keys first, in numeric order; the model lists keys in member order, so an update whose field names look like integers renders its rows in another order.
- ActivityPage.Lookup: a member is looked up by its first occurrence. `JSON.parse` keeps the last of duplicate keys. The two agree when keys are distinct, as `UpdatedRowsPerField` requires.
- DashboardStats.ItemsByRoomCounts: entries follow first-insertion order. JavaScript's `Object.entries` puts integer-like keys first in numeric order, and the model does not. The tally starts from `{}`, so a room name that is a property inherited from `Object.prototype` reads that property instead of `undefined`. For `constructor`, `toString`, `valueOf`, `hasOwnProperty`, `isPrototypeOf`, `propertyIsEnumerable`, `toLocaleString`, `__defineGetter__` and the other inherited names, the first `acc[name] || 0` is a function, so the entry becomes a string and later items append "1" to it. For `__proto__` the assignment is ignored and no entry appears. The model counts every name as a number, so its counts and their sum hold only for rooms whose names are not inherited properties.
- DashboardStats.QuantityByCategoryTopFive: the quantity tally has the same gap for category names inherited from `Object.prototype`. Such an entry holds a string, `b.quantity - a.quantity` then gives NaN, and the sort order is no longer defined by the quantities. The model's sums and its top-five order hold only for categories whose names are not inherited properties. `DashboardStats.GetStats` answers `StatsOf`, so both gaps carry over to its body.
- DashboardStats.StockLevelsPartition: requires non-negative quantities and thresholds. zod enforces both on creation, but the stored rows are not constrained by the model.
- DashboardStats.TopFive: `Array.prototype.sort` is stable, and the model's insertion sort is too. Ties among equal quantities therefore keep tally order.
- Rendering, the DOM, the dialogs and every other page are not modelled.
