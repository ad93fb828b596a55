# Todo app core in Dafny

A model of the core of a small todo application. It has an Express API with two in-memory
repositories (todos and categories), the controllers that orchestrate them, the error
middleware and the zod request schemas. It also has the pure logic of the Redux web client.

- **Stores.** Each repository is a `Tables.Table`: a map from id to record together with the
  insertion order of the keys. The order is that of a JavaScript `Map`, and listing and
  `findByName` depend on it.
- **Controllers.** They are pure functions from the two stores to a reply: status, data or
  error, and the stores afterwards.
- **Schemas.** Each one is a parser from a raw JSON value to either the normalised request or
  the list of issues. `formatZodError` groups those issues by path.
- **Client.** The Redux reducers are functions on the slice state. The form dialog and the
  todo card are functions on strings and local-time fields.

Each operation comes with a partner. The slices, the form and the card have round-trips and
idempotence lemmas. The repositories and schemas have reference definitions: the query a
todo matches, the three-state patch rule, and what a schema accepts. The controllers keep
invariants: every todo names a stored category, and category names are unique ignoring case.

Modules: `Wrappers`, `Text`, `Lists`, `Sorting`, `Tables` (shared vocabulary); `Todos`,
`Categories` (repositories); `Errors`, `Controllers` (API); `Schemas`, `Validation`
(guards); `TodosSlice`, `CategoriesSlice`, `WallClock`, `TodoForm`, `TodoItem` (web client).

A title or a category name has its length checked before `.trim()` runs. So a value made of
blanks passes and is stored as `""`: `Schemas.BlankTitleAccepted` and
`Schemas.BlankNameAccepted` state this for `"   "`.

## Model

| member | source | states |
|---|---|---|
| Text.Trim | libs/guards/src/v1/todo.schema.ts:23 | `.trim()` yields a slice of the input with no blank at either end |
| Text.TrimIdempotent | libs/guards/src/v1/todo.schema.ts:23 | trimming a trimmed string changes nothing |
| Text.TrimEmptyIff | apps/web/src/features/todos/components/TodoFormDialog.tsx:133 | a string trims to `""` exactly when it is all blanks |
| Text.Lower | apps/api/src/data/category.repository.ts:22 | `toLowerCase` keeps the length, turns each capital letter into the small letter at the same place in the alphabet, and leaves every other character as it is |
| Text.LowerIdempotent | apps/api/src/data/category.repository.ts:22 | folding twice is folding once |
| Text.LexLeTotal | apps/api/src/data/todo.repository.ts:45 | the string comparison behind `localeCompare` relates any two strings |
| Text.LexLeAntisymmetric | apps/api/src/data/todo.repository.ts:45 | two strings each no greater than the other are equal |
| Text.LexLeTransitive | apps/api/src/data/todo.repository.ts:45 | the string order is transitive, so sorting by it is well defined |
| Text.EmptyIsLeast | apps/api/src/data/todo.repository.ts:43-44 | the `''` that stands for a missing sort field sorts before everything else |
| Text.ParseNatToString | apps/web/src/features/todos/components/TodoFormDialog.tsx:50 | `parseInt(n.toString(), 10)` gives back `n` |
| Text.ParsePadded | apps/web/src/features/todos/components/TodoItem.tsx:29 | a number below 100 padded to two digits has two digits and reads back to itself |
| Text.PadStart | apps/web/src/features/todos/components/TodoItem.tsx:45-46 | `padStart` keeps the string as a suffix and fills only in front, up to the width |
| Text.Join | libs/guards/src/utils/validation.utils.ts:12 | joining no segments gives `""`; joining one gives that segment |
| Text.JoinAppend | libs/guards/src/utils/validation.utils.ts:12 | joining two non-empty lists is joining each and putting one separator between them |
| Lists.Filter | apps/api/src/data/todo.repository.ts:21 | `filter` keeps exactly the elements that pass, each at most as often as in the input |
| Lists.FilterCounts | apps/api/src/data/todo.repository.ts:21 | an element that passes occurs as often as before; one that fails does not occur |
| Lists.FilterSubsequence | apps/api/src/data/todo.repository.ts:21 | the elements `filter` keeps stay in their original relative order |
| Lists.FirstIndex | apps/web/src/features/todos/todosSlice.ts:147 | `findIndex` gives the first index that matches, or none exactly when nothing matches |
| Lists.UpdateFirst | apps/web/src/features/todos/todosSlice.ts:119-123 | only the first match is rewritten; the length and every other element stay |
| Lists.GroupByMeaning | apps/web/src/features/todos/todosSlice.ts:186-192 | the keys of the grouping are the keys that occur, and each group lists its elements in order |
| Lists.GroupByCount | libs/guards/src/utils/validation.utils.ts:11-17 | summed over the keys, the groups hold exactly as many entries as the input |
| Sorting.SortBy | apps/api/src/data/todo.repository.ts:42-47 | the sort returns a permutation of its input that is in order by the key, ascending or descending |
| Tables.Values | apps/api/src/data/todo.repository.ts:17 | `Array.from(map.values())` lists the rows in key-insertion order |
| Tables.ValuesOnce | apps/api/src/data/category.repository.ts:11-13 | when every record sits under its own id, each stored record occurs exactly once among the values |
| Tables.Put | apps/api/src/data/todo.repository.ts:72 | `Map.set` stores the value under the key and keeps the position of an existing key |
| Tables.ValuesAfterInsert | apps/api/src/data/todo.repository.ts:72 | a new key's value is listed last |
| Tables.Remove | apps/api/src/data/todo.repository.ts:93-95 | `Map.delete` reports whether the key was there and removes exactly that key; the other keys keep their insertion order |
| Tables.RemoveAll | apps/api/src/data/todo.repository.ts:99-101 | deleting a list of keys one by one removes exactly those keys |
| Tables.RemoveAllKeepsOrder | apps/api/src/data/todo.repository.ts:99-101 | after deleting a list of keys, the remaining keys keep their insertion order |
| Todos.Matches | apps/api/src/data/todo.repository.ts:20-36 | a query with no category and no status (or `all`) keeps every todo; a matched todo is in the queried category; `active` never keeps a done or overdue todo, and `completed` never keeps an open one |
| Todos.FindAll | apps/api/src/data/todo.repository.ts:16-50 | each stored todo that passes the category and status filters occurs exactly once, nothing else occurs, and the result is ordered by the sort field (`createdAt` by default, missing as `''`), ascending for `asc` and descending for `desc` (the default) |
| Todos.SelectedCount | apps/api/src/data/todo.repository.ts:19-36 | after the two filters, each todo occurs once if it is stored and matches the query, and otherwise not at all |
| Todos.SortedByKey | apps/api/src/data/todo.repository.ts:42-47 | a list sorted by the comparator is ordered by the sort key in the chosen direction |
| Todos.FindById | apps/api/src/data/todo.repository.ts:52-54 | the stored todo, and none exactly when the id is unknown |
| Todos.FindByCategoryId | apps/api/src/data/todo.repository.ts:56-58 | lists a todo exactly when it is stored and belongs to the category |
| Todos.FindByCategoryIdOnce | apps/api/src/data/todo.repository.ts:56-58 | no todo of the category is listed twice and none is missing |
| Todos.Create | apps/api/src/data/todo.repository.ts:60-74 | a new open todo copies title, description, due date and category, has `createdAt == updatedAt == now`, and a fresh id adds exactly one key |
| Todos.CreateThenFind | apps/api/src/data/todo.repository.ts:60-74 | `findById` on the new id returns the created todo |
| Todos.Resolve | apps/api/src/data/todo.repository.ts:84-86 | the three-state rule: left out keeps, `null` clears, a value overwrites |
| Todos.Merge | apps/api/src/data/todo.repository.ts:80-88 | present fields overwrite; description and due date follow the three-state rule; `id` and `createdAt` stay; `updatedAt` is refreshed |
| Todos.MergeIdempotent | apps/api/src/data/todo.repository.ts:80-88 | applying the same patch again changes nothing but `updatedAt` |
| Todos.EmptyPatchKeepsFields | apps/api/src/data/todo.repository.ts:80-88 | the empty patch changes only `updatedAt` |
| Todos.Update | apps/api/src/data/todo.repository.ts:76-91 | an unknown id gives null and leaves the store as it was; otherwise the merged todo replaces the old one in place |
| Todos.Delete | apps/api/src/data/todo.repository.ts:93-95 | true exactly when the id was stored; afterwards `findById` finds nothing |
| Todos.DeleteTwice | apps/api/src/data/todo.repository.ts:93-95 | a second delete of the same id returns false and changes nothing |
| Todos.DeleteByCategoryId | apps/api/src/data/todo.repository.ts:97-103 | every todo of the category goes and every other todo stays as it was; the count returned is the number `findByCategoryId` listed |
| Categories.FindAll | apps/api/src/data/category.repository.ts:11-13 | exactly the stored categories, one per key, in insertion order |
| Categories.FindById | apps/api/src/data/category.repository.ts:15-17 | the stored category, and none exactly when the id is unknown |
| Categories.FindByName | apps/api/src/data/category.repository.ts:19-25 | the first category in insertion order whose name equals the query ignoring case; none exactly when there is no such category |
| Categories.Create | apps/api/src/data/category.repository.ts:27-37 | the name is stored with `createdAt == updatedAt`, and a fresh id adds exactly one entry |
| Categories.CreateThenFindByName | apps/api/src/data/category.repository.ts:19-37 | a category created with a name no other category has is then what `findByName` finds |
| Categories.Update | apps/api/src/data/category.repository.ts:39-50 | an unknown id gives null and leaves the store as it was; otherwise only `name` and `updatedAt` change, in place |
| Categories.Delete | apps/api/src/data/category.repository.ts:52-54 | true exactly when the id was stored; afterwards `findById` finds nothing |
| Errors.NotFoundError | apps/api/src/middleware/error.middleware.ts:23-27 | status 404, code `NOT_FOUND`, the message `<resource> with id '<id>' not found`, no details |
| Errors.ConflictError | apps/api/src/middleware/error.middleware.ts:32-36 | status 409, code `CONFLICT`, the given message, no details |
| Errors.ErrorHandler | apps/api/src/middleware/error.middleware.ts:41-69 | an `AppError` keeps its own status, code, message and details; any other error becomes 500 `INTERNAL_ERROR` with a fixed message and no details |
| Errors.StatusMatchesCode | apps/api/src/middleware/error.middleware.ts:23-36 | for every error the controllers raise, and for unexpected ones, the status sent agrees with the code |
| Errors.CodeNamesDistinct | apps/api/src/middleware/error.middleware.ts:25 | different codes have different wire names |
| Controllers.Fail | apps/api/src/controllers/category.controller.ts:45-47 | a thrown error is answered with its own status and leaves the stores as they were |
| Controllers.ListCategories | apps/api/src/controllers/category.controller.ts:16-23 | 200 with every stored category exactly once; nothing changes |
| Controllers.GetCategory | apps/api/src/controllers/category.controller.ts:25-35 | 200 with the category, or 404 naming the id exactly when it is unknown |
| Controllers.CreateCategory | apps/api/src/controllers/category.controller.ts:37-48 | created (201) exactly when no stored name equals the new one ignoring case; otherwise 409 `Category '<name>' already exists` and no change |
| Controllers.UpdateCategory | apps/api/src/controllers/category.controller.ts:50-64 | the name check comes first and ignores the category itself. With unique names: another category with the name gives a 409 naming it, even for an unknown id; otherwise an unknown id gives a 404 naming the id; otherwise 200 with the renamed category. Errors change nothing |
| Controllers.NameCheck | apps/api/src/controllers/category.controller.ts:52-55 | while names are unique, `findByName` finds a category with another id exactly when some other category has the name |
| Controllers.DeleteCategory | apps/api/src/controllers/category.controller.ts:66-90 | cascade only for `cascade=true`; with todos and no cascade, 409 with their count and no change; otherwise the category's todos go, then 404 if the category is unknown, else 204 and the category is gone |
| Controllers.WithoutCategory | apps/api/src/controllers/category.controller.ts:77-80 | after the cascade step, exactly the todos of other categories remain |
| Controllers.ListTodos | apps/api/src/controllers/todo.controller.ts:16-23 | 200 with each stored todo the query selects exactly once and nothing else, ordered by the sort field in the requested direction; nothing changes |
| Controllers.GetTodo | apps/api/src/controllers/todo.controller.ts:25-35 | 200 with the todo, or 404 naming the id exactly when it is unknown |
| Controllers.CreateTodo | apps/api/src/controllers/todo.controller.ts:37-48 | created (201) exactly when the category is stored; otherwise 404 naming the category and no change |
| Controllers.UpdateTodo | apps/api/src/controllers/todo.controller.ts:50-66 | a non-empty category id must be stored (404 naming it, checked first); then an unknown todo gives a 404 naming the todo; otherwise 200 with the merged todo; errors change nothing |
| Controllers.DeleteTodo | apps/api/src/controllers/todo.controller.ts:68-78 | 204 and the todo is gone exactly when it was stored; otherwise 404 and no change |
| Controllers.DeleteTodoTwice | apps/api/src/controllers/todo.controller.ts:68-78 | repeating a delete gives 404 |
| Controllers.CreateCategoryKeepsNamesUnique | apps/api/src/controllers/category.controller.ts:39-43 | creating keeps category names unique ignoring case |
| Controllers.UpdateCategoryKeepsNamesUnique | apps/api/src/controllers/category.controller.ts:52-56 | renaming keeps category names unique ignoring case |
| Controllers.CreateTodoKeepsReferences | apps/api/src/controllers/todo.controller.ts:37-48 | after a create, every todo still names a stored category |
| Controllers.UpdateTodoKeepsReferences | apps/api/src/controllers/todo.controller.ts:50-66 | after an update, every todo still names a stored category |
| Controllers.DeleteCategoryKeepsReferences | apps/api/src/controllers/category.controller.ts:71-85 | after a category delete, every todo still names a stored category |
| Controllers.DeletedCategoryHasNoTodos | apps/api/src/controllers/category.controller.ts:78-86 | after a successful delete, listing the todos of that category finds none |
| Controllers.CaseInsensitiveConflict | apps/api/src/controllers/category.controller.ts:39-42 | any stored category whose name equals the requested one ignoring case (`Work` against `work`) makes the create a 409 `Category '<name>' already exists`, and nothing changes |
| Schemas.CheckIssues | libs/guards/src/v1/todo.schema.ts:19-23 | every failing check reports under the field's key, and there are none exactly when all checks pass |
| Schemas.ParseString | libs/guards/src/v1/todo.schema.ts:19-23 | accepted exactly when the value is a string that passes every check; checks see the untrimmed string; the output is trimmed when `.trim()` is chained |
| Schemas.ParseOptional | libs/guards/src/v1/todo.schema.ts:24 | `undefined` passes as absent; anything else must pass the string rule |
| Schemas.ParseNullable | libs/guards/src/v1/todo.schema.ts:31-32 | left out, `null` and a value become the three patch states |
| Schemas.ParseOptionalBool | libs/guards/src/v1/todo.schema.ts:33 | accepted exactly when left out or a boolean |
| Schemas.ParseEnum | libs/guards/src/v1/todo.schema.ts:38-40 | a missing value takes the default; a present one must name an option and maps to its value |
| Schemas.ParseObject | libs/guards/src/v1/todo.schema.ts:18 | the top level must be an object; otherwise one issue at the root |
| Schemas.CreateTitle | libs/guards/src/v1/todo.schema.ts:19-23 | a required string of 1 to 200 characters, counted before trimming; the output is trimmed |
| Schemas.CreateDescription | libs/guards/src/v1/todo.schema.ts:24 | optional; at most 2000 characters |
| Schemas.CreateDueDate | libs/guards/src/v1/todo.schema.ts:25 | optional; an ISO datetime when present |
| Schemas.CreateCategoryId | libs/guards/src/v1/todo.schema.ts:26 | required; a UUID |
| Schemas.ParseCreateTodo | libs/guards/src/v1/todo.schema.ts:18-27 | accepted exactly when every field rule holds; the output is the trimmed title with the other fields as sent |
| Schemas.CreateRoundTrip | libs/guards/src/v1/todo.schema.ts:18-27 | a well-formed create request, sent as JSON and parsed, comes back unchanged |
| Schemas.CreateIgnoresUnknownKeys | libs/guards/src/v1/todo.schema.ts:18-27 | keys the schema does not declare make no difference |
| Schemas.BlankTitleAccepted | libs/guards/src/v1/todo.schema.ts:19-23 | a title of three blanks passes and becomes `""` |
| Schemas.UpdateTitle | libs/guards/src/v1/todo.schema.ts:30 | optional; 1 to 200 characters before trimming; trimmed |
| Schemas.UpdateDescription | libs/guards/src/v1/todo.schema.ts:31 | left out, `null`, or at most 2000 characters |
| Schemas.UpdateDueDate | libs/guards/src/v1/todo.schema.ts:32 | left out, `null`, or an ISO datetime |
| Schemas.UpdateCategoryId | libs/guards/src/v1/todo.schema.ts:34 | left out or a UUID; `null` is rejected |
| Schemas.ParseUpdateTodo | libs/guards/src/v1/todo.schema.ts:29-35 | every field may be left out; only description and due date accept `null`, which becomes a clear |
| Schemas.UpdateRoundTrip | libs/guards/src/v1/todo.schema.ts:29-35 | a well-formed patch, `null`s included, sent as JSON and parsed, comes back unchanged |
| Schemas.QueryCategoryId | libs/guards/src/v1/todo.schema.ts:41 | left out, or a UUID |
| Schemas.ParseQuery | libs/guards/src/v1/todo.schema.ts:37-42 | accepts exactly an object whose status, sort and order are left out or one of their enum names and whose category id is left out or a UUID; each given name becomes the value paired with it, and the ones left out become `all`, `createdAt` and `desc` |
| Schemas.QueryRejectsUnknownStatus | libs/guards/src/v1/todo.schema.ts:38 | a status outside the enum is rejected |
| Schemas.QueryDefaultsAgree | libs/guards/src/v1/todo.schema.ts:37-42 | the parsed empty query selects and orders exactly as the repository does with no parameters |
| Schemas.ParseCategory | libs/guards/src/v1/category.schema.ts:14-20 | accepted exactly when `name` is a string of 1 to 100 characters before trimming; the output is the trimmed name |
| Schemas.CategoryOnlyName | libs/guards/src/v1/category.schema.ts:14-16 | no key but `name` affects the result |
| Schemas.CategoryNameRejections | libs/guards/src/v1/category.schema.ts:14-16 | for any body: a non-object fails the object check; a missing or non-string name gets Zod's type message; an empty name gets `Name is required`; one over 100 characters gets `Name must be 100 characters or less` |
| Schemas.BlankNameAccepted | libs/guards/src/v1/category.schema.ts:15 | a name of three blanks passes and becomes `""` |
| Validation.PathKey | libs/guards/src/utils/validation.utils.ts:12 | never empty; `root` for an empty path; a one-segment path is its own key; a longer path is the key of its parent segments, a dot, and its last segment |
| Validation.FormatZodError | libs/guards/src/utils/validation.utils.ts:8-24 | code `VALIDATION_ERROR` and message `Validation failed`; the keys are exactly the joined paths, and each key lists its issues' messages in issue order |
| Validation.FormatZodErrorCount | libs/guards/src/utils/validation.utils.ts:11-17 | the grouped messages number exactly as many as the issues |
| Validation.OneFieldIssues | libs/guards/src/utils/validation.utils.ts:11-17 | issues that are all on one named field are listed under that field alone, every message in the order raised |
| Validation.Validate | libs/guards/src/utils/validation.utils.ts:29-40 | success with the parsed data exactly when parsing succeeds; otherwise the formatted error |
| Validation.ValidateCreate | libs/guards/src/utils/validation.utils.ts:29-40 | a create body passes exactly when every field rule holds |
| Validation.NonObjectIsRoot | libs/guards/src/utils/validation.utils.ts:12 | a body that is not an object is reported under `root` |
| TodosSlice.InitialFiltersAreDefaults | apps/web/src/features/todos/todosSlice.ts:23-32 | empty items, no error, and filters that select and order as the server's defaults do |
| TodosSlice.SetStatusFilter | apps/web/src/features/todos/todosSlice.ts:102-104 | sets the status filter and changes nothing else |
| TodosSlice.SetSortField | apps/web/src/features/todos/todosSlice.ts:105-107 | sets the sort field and changes nothing else |
| TodosSlice.SetSortOrder | apps/web/src/features/todos/todosSlice.ts:108-110 | sets the sort order and changes nothing else |
| TodosSlice.SetCategoryFilter | apps/web/src/features/todos/todosSlice.ts:111-113 | sets or clears the category filter and changes nothing else |
| TodosSlice.ClearError | apps/web/src/features/todos/todosSlice.ts:114-116 | clears the error and changes nothing else |
| TodosSlice.OptimisticToggle | apps/web/src/features/todos/todosSlice.ts:118-124 | only `completed` and `updatedAt` of the first todo with the id change; no match, no change; the length stays |
| TodosSlice.ToggleTodoCompleted | apps/web/src/features/todos/todosSlice.ts:68-84 | a toggle that syncs is the optimistic write alone |
| TodosSlice.ToggleRollback | apps/web/src/features/todos/todosSlice.ts:72-81 | after a failed toggle the todo holds the negation of the requested value, every other todo is as before, and the error is stored |
| TodosSlice.FetchPending | apps/web/src/features/todos/todosSlice.ts:128-131 | loading, no error, nothing else changes |
| TodosSlice.FetchFulfilled | apps/web/src/features/todos/todosSlice.ts:132-135 | not loading, the server's list replaces the items |
| TodosSlice.FetchRejected | apps/web/src/features/todos/todosSlice.ts:136-139 | not loading, the error is stored |
| TodosSlice.Rejected | apps/web/src/features/todos/todosSlice.ts:143-145 | a rejected create, update, toggle or delete stores the error and changes nothing else |
| TodosSlice.CreateFulfilled | apps/web/src/features/todos/todosSlice.ts:140-142 | exactly one item is appended at the end |
| TodosSlice.UpdateFulfilled | apps/web/src/features/todos/todosSlice.ts:146-151 | the first item with the id is replaced; no match, no change; the length stays |
| TodosSlice.DeleteFulfilled | apps/web/src/features/todos/todosSlice.ts:159-161 | every item with the id goes; every other item stays as often as before and in its original order |
| TodosSlice.DeleteFulfilledIdempotent | apps/web/src/features/todos/todosSlice.ts:159-161 | deleting the same id again changes nothing |
| TodosSlice.GroupedByCategory | apps/web/src/features/todos/todosSlice.ts:185-193 | one group per category that occurs, holding that category's items in list order |
| TodosSlice.GroupedByCategoryCount | apps/web/src/features/todos/todosSlice.ts:185-193 | every item is in its own category's group, and the groups together hold exactly as many items as the list |
| CategoriesSlice.ClearError | apps/web/src/features/categories/categoriesSlice.ts:73-75 | clears the error and changes nothing else |
| CategoriesSlice.FetchPending | apps/web/src/features/categories/categoriesSlice.ts:80-83 | loading, no error, same items |
| CategoriesSlice.FetchFulfilled | apps/web/src/features/categories/categoriesSlice.ts:84-87 | not loading, the server's list replaces the items |
| CategoriesSlice.FetchRejected | apps/web/src/features/categories/categoriesSlice.ts:88-91 | not loading, the error is stored, same items |
| CategoriesSlice.FetchSucceeds | apps/web/src/features/categories/categoriesSlice.ts:80-87 | a fetch that succeeds leaves the server's list, no error and no loading |
| CategoriesSlice.Rejected | apps/web/src/features/categories/categoriesSlice.ts:96-98 | a rejected create, update or delete stores the error and changes nothing else |
| CategoriesSlice.CreateFulfilled | apps/web/src/features/categories/categoriesSlice.ts:93-95 | exactly one item is appended at the end |
| CategoriesSlice.UpdateFulfilled | apps/web/src/features/categories/categoriesSlice.ts:100-105 | the first item with the id is replaced; no match, no change |
| CategoriesSlice.DeleteFulfilled | apps/web/src/features/categories/categoriesSlice.ts:110-112 | every item with the id goes; every other item stays as often as before and in its original order |
| CategoriesSlice.CreateThenDelete | apps/web/src/features/categories/categoriesSlice.ts:93-112 | creating a category with a new id and then deleting it gives back the state |
| WallClock.Hour12 | apps/web/src/features/todos/components/TodoItem.tsx:27-28 | the clock-face hour lies in 1..12 and agrees with the hour modulo 12 |
| WallClock.To24 | apps/web/src/features/todos/components/TodoFormDialog.tsx:115-119 | for a clock-face hour, a day's hour in 0..23 on the same clock face and in the chosen half of the day |
| WallClock.To24OfHour12 | apps/web/src/features/todos/components/TodoFormDialog.tsx:46-51 | every hour of the day survives the trip to the 12-hour clock and back |
| WallClock.Hour12OfTo24 | apps/web/src/features/todos/components/TodoFormDialog.tsx:115-119 | every clock-face reading survives the trip to a 24-hour hour and back |
| TodoForm.To12Hour | apps/web/src/features/todos/components/TodoFormDialog.tsx:46-51 | an hour value in 1..12 on the same clock face, PM exactly from noon on; midnight is 12 AM and noon is 12 PM |
| TodoForm.HourValue | apps/web/src/features/todos/components/TodoFormDialog.tsx:111 | an hour that fails to parse or parses to 0 becomes 12; any other parsed hour is kept |
| TodoForm.MinuteValue | apps/web/src/features/todos/components/TodoFormDialog.tsx:112 | a minute that fails to parse becomes 0; a parsed minute is kept |
| TodoForm.ShownValuesReadBack | apps/web/src/features/todos/components/TodoFormDialog.tsx:77-79 | the minute the form shows reads back as that minute, and a non-zero hour it shows reads back as that hour |
| TodoForm.BuildDateTime | apps/web/src/features/todos/components/TodoFormDialog.tsx:108-127 | no day, no due time; otherwise the picked day at the selected time, in the chosen half of the day, with a missing or zero hour read as 12 |
| TodoForm.Prefill | apps/web/src/features/todos/components/TodoFormDialog.tsx:69-86 | the form shows the todo's title, description (or `''`) and category; the date fields are filled exactly when the todo has a due date, and otherwise keep their blank defaults |
| TodoForm.PrefillRoundTrip | apps/web/src/features/todos/components/TodoFormDialog.tsx:74-80 | opening a todo and building its due time again gives back the time it had |
| TodoForm.FieldErrors | apps/web/src/features/todos/components/TodoFormDialog.tsx:131-138 | a title error exactly when the title is blank; a category error exactly when none is chosen |
| TodoForm.DescriptionToSend | apps/web/src/features/todos/components/TodoFormDialog.tsx:152 | the trimmed description, or nothing exactly when it is blank |
| TodoForm.DueDateToSend | apps/web/src/features/todos/components/TodoFormDialog.tsx:153 | a due date is sent exactly when a day is picked |
| TodoForm.SubmitWith | apps/web/src/features/todos/components/TodoFormDialog.tsx:129-167 | blocked, with nothing sent, exactly when the title is blank or no category is chosen; otherwise a create, or an update of the edited todo with the trimmed title |
| TodoForm.Submit | apps/web/src/features/todos/components/TodoFormDialog.tsx:146-157 | as written, an emptied description or due date leaves its field out of the update |
| TodoForm.EmptiedFieldsSurvive | apps/web/src/features/todos/components/TodoFormDialog.tsx:146-157 | as written, emptying both fields and saving leaves the stored ones unchanged |
| TodoForm.EmptiedDescriptionExample | apps/web/src/features/todos/components/TodoFormDialog.tsx:152 | one instance of `TodoForm.EmptiedFieldsSurvive`, given as an example and not as a further property: a todo with a description keeps it after the user empties the field |
| TodoForm.SubmitCorrected | apps/web/src/features/todos/components/TodoFormDialog.tsx:146-157 | corrected: an emptied description or due date is sent as `null` |
| TodoForm.SubmittedFormSticks | apps/web/src/features/todos/components/TodoFormDialog.tsx:146-157 | corrected: after the server merges the update, the todo holds exactly what the form showed |
| TodoItem.FormatTime | apps/web/src/features/todos/components/TodoItem.tsx:23-30 | ends in `PM` exactly from noon on and in `AM` before |
| TodoItem.FormatTimeRoundTrip | apps/web/src/features/todos/components/TodoItem.tsx:23-30 | the printed time of any moment of the day reads back to its hour and minute |
| TodoItem.FormatCreatedAt | apps/web/src/features/todos/components/TodoItem.tsx:43-50 | begins with the one-based month and the day, each padded to two digits |
| TodoItem.FormatCreatedAtRoundTrip | apps/web/src/features/todos/components/TodoItem.tsx:43-50 | the stamp reads back to the local year, month, day, hour and minute it was printed from |
| TodoItem.ReadTimeOnlyFormatted | apps/web/src/features/todos/components/TodoItem.tsx:23-30 | the only text read as a time is the text `formatTime` prints for it, so with the round trip the printed time is fixed completely, including `12` for hour 0 |
| TodoItem.ReadCreatedAtOnlyFormatted | apps/web/src/features/todos/components/TodoItem.tsx:43-50 | the only text read as a creation stamp is the text `formatCreatedAt` prints for that moment |
| TodoItem.MidnightPrint | apps/web/src/features/todos/components/TodoItem.tsx:23-30 | of all times of day, only midnight prints as `12:00 AM` |
| TodoItem.IsOverdue | apps/web/src/features/todos/components/TodoItem.tsx:54 | an open todo whose due instant is before now, which is the server's own past-due test |
| TodoItem.HasTime | apps/web/src/features/todos/components/TodoItem.tsx:57 | no due date shows no time; for a due time in range, a time is shown exactly when it would not print as `12:00 AM` |
| TodoItem.OverdueIffNotActive | apps/web/src/features/todos/components/TodoItem.tsx:53-54 | the card marks an open todo overdue exactly when the server's `active` listing leaves it out, and never marks a finished one |
| TodoItem.BuiltTimeShown | apps/web/src/features/todos/components/TodoItem.tsx:57 | a due time from the form shows no time exactly when it is 12 AM and minute 0, the form's starting time |

## Left out

- Express plumbing is not part of this model: routes, the validation middleware that turns a failed parse into a 400, `app.ts`, `main.ts`, the store singleton and the health route. The controllers are pure functions from the stores to a reply.
- The `{ data: … }` envelope of successful responses is not modelled; a reply carries the status and the value.
- `uuid()` becomes a parameter, the fresh id. `new Date().toISOString()` becomes a parameter, the time as an ISO string. `new Date(dueDate)` and the current instant make up `Todos.Clock`.
- `localeCompare` is modelled as code-point lexicographic order (`Text.LexLe`). For the ISO timestamps being compared, the two agree.
- `toLowerCase` is modelled as ASCII case folding (`Text.Lower`); letters outside ASCII are left unfolded.
- Zod internals are not modelled. `uuid()` and `datetime()` are given predicates (`Schemas.Formats`). Messages use Zod 3's default wording, with the schemas' own messages where they give one.
- Zod counts string length in UTF-16 code units; the model counts characters.
- Todos.FindAll: the order among todos with equal sort keys is not stated. The model proves a sorted permutation, not the stability of `Array.prototype.sort`.
- Controllers.DeletedCategoryHasNoTodos: requires a non-empty id, because an empty `categoryId` query applies no filter at all.
- Controllers.UpdateTodoKeepsReferences: requires that the patch's category id is not `""`. The controller skips the existence check for a falsy id; the schema rejects `""` as a UUID before the controller runs.
- Controllers.CreateCategoryKeepsNamesUnique: requires a fresh id, which `uuid()` supplies.
- `console.error` in the error handler is logging and is not modelled.
- The axios client, the API wrappers and the async machinery of the thunks are not modelled. Only the reducers' effects are. Pending actions of create, update and delete have no reducer in the source and none here.
- React and MUI rendering are not modelled; this covers every component and page.
- `formatDate` (`toLocaleDateString`) is not modelled.
- dayjs and `Date` field extraction are parameters: `TodoForm.Reader` reads a stored string into local fields, and `TodoForm.Writer` is `toISOString()`. Time zones live inside them.
- `parseInt` is modelled on unsigned digit strings. Leading blanks and signs are not, and the select options never contain them.
- `WallClock.LocalTime` has a non-negative year; years before year 0 are not modelled.
- TodoItem.FormatTime: its contract states only the AM/PM suffix. The full text is fixed by two lemmas. `TodoItem.FormatTimeRoundTrip` reads the text back. `TodoItem.ReadTimeOnlyFormatted` shows that the reader accepts only the text `formatTime` prints, a clock-face hour from 1 to 12 included.
- TodoItem.FormatCreatedAt: its contract states only the padded month and day. The full text is fixed the same way, by `TodoItem.FormatCreatedAtRoundTrip` and `TodoItem.ReadCreatedAtOnlyFormatted`.
- The test files, fixtures and the contracts package's type declarations supply evidence and type shapes only.

## Findings

| source | as written | input that shows it | evidently intended | confidence | as-written member | corrected member |
|---|---|---|---|---|---|---|
| apps/web/src/features/todos/components/TodoFormDialog.tsx:146-157 | the edit dialog sends `description: undefined` and `dueDate: undefined` when the user has emptied them; JSON leaves such keys out, and the server's merge keeps a left-out field | a todo with description `two litres`; the user empties the description and saves; the server still stores `two litres` | send `null` for an emptied field, which the update schema accepts and the repository turns into a cleared field | medium; not executed | TodoForm.EmptiedFieldsSurvive | TodoForm.SubmittedFormSticks |
