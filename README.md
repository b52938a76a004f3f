# TODO domain layer in Dafny

A Dafny model of the in-memory TODO application (a Flask server with a small
browser front end) at the level of its domain objects:

- `todo.dfy` (module `Todo`): the three-valued `TodoStatus` with its Korean
  display labels 예정, 진행중 and 완료, content validation with Python's
  `str.strip()`, construction of a `TodoItem` with its defaults, and
  `TodoItem.dict()`.
- `datetime.dfy` (module `DateTimes`): naive date-times as used for
  `target_date`, `created_at` and `updated_at`. It holds their chronological
  order, the text `datetime.isoformat()` writes, and a reader for that text.
- `repository.dfy` (module `Repository`): the store `TodoRepository`, a class
  holding a map from id to item and the sequence of ids in the dict's
  iteration order, with create, get-by-id, get-all, filter-by-status,
  partial update, delete, clear and count.
- `ordering.dfy` (module `Ordering`): what the repository does to its id
  order: removal, the reorder policy, and the sort by target date.
- `service.dfy` (module `Service`): `TodoService`, which turns the
  repository's `None` or `False` into `TodoNotFound` and validation errors
  into `InvalidTodo`, and computes the statistics. It also holds the
  service scenarios of the test suite (statistics, reorder, sort) as client
  methods on a fresh repository.
- `exceptions.dfy` (module `Exceptions`): the error variants of
  models/exceptions.py and the messages the service attaches to them.
- `serializer.dfy` (module `Serializer`): `to_response`, `to_dict` and
  `to_list`, with the inverse reading of a response.
- `script.dfy` (module `Script`): `getStatusClass` and `escapeHtml` from the
  browser script, with the inverse of the escaping.
- `wrappers.dfy` (module `Wrappers`): `Option` and `Result`.

Python exceptions become `Result` values. `uuid4()` and `datetime.now()`
become parameters: the repository's `Create` takes the fresh id, with the
precondition that it is not stored yet, and two clock readings. `Update`
takes the clock reading `now`.

In four places the model follows the code where one would expect, or the
test suite asks for, something else:

- **Two clock readings.** One might expect `created_at == updated_at` at
  creation. The code fills the two fields from two separate
  `datetime.now` default factories (models/todo.py:21-22). So the model
  takes two clock readings and does not promise equality.
- **Update does not validate.** tests/test_repository.py:386-397 expects
  updated content to pass the same validation as construction. The code
  assigns the new content as given (models/repository.py:43-44), and the
  model has no `validate_assignment` (models/todo.py:48-60). See
  "## Findings". The corrected update is `Repository.ValidatedPatch`, on
  the store `TodoRepository.UpdateValidated`, and in the service
  `TodoService.UpdateTodoValidated`. `TodoService.UpdateTodo` keeps calling
  the update as written, as the code does.
- **`set_order` and `sort_by_date` are reconstructed.** The service calls
  both (models/service.py:148, 157), but models/repository.py does not
  define them, so as written these two service calls would fail with an
  `AttributeError`. The model gives the repository the two methods,
  `TodoRepository.SetOrder` and `TodoRepository.SortByDate`. What each one
  does is the model's own choice: `SetOrder` follows the policy
  `Ordering.Reordered`, and `SortByDate` an insertion sort by target date
  (`Ordering.SortedByDate`). "## Left out" says what that choice decides.
- **`update_todo` cannot raise `InvalidTodo`.** Because the repository's
  update never validates, the service's `except ValueError` branch
  (models/service.py:105-106) is dead code. The model's `UpdateTodo`
  returns only `TodoNotFound` errors. Over the corrected update, that
  branch does fire: `UpdateTodoValidated` turns a rejected content into
  `InvalidTodo` with the "TODO 수정 실패: " message.

## Model

| member | source | states |
|---|---|---|
| Todo.StatusFromLabel | models/todo.py:8-12 | a label read back as a status is a status with exactly that label |
| Todo.TodoStatus.Label | models/todo.py:10-12 | defines each status's value: 예정 for Scheduled, 진행중 for InProgress, 완료 for Completed |
| Todo.StatusLabelRoundTrip | models/todo.py:8-12 | each status is recovered from its label, so the three labels 예정, 진행중, 완료 are distinct |
| Todo.IsWhitespace | models/todo.py:30 | defines the characters `str.isspace()` accepts and `str.strip()` removes: tab to carriage return, the four separators U+001C to U+001F, space, U+0085, U+00A0, U+1680, U+2000 to U+200A, U+2028, U+2029, U+202F, U+205F and U+3000 |
| Todo.TrimStart | models/todo.py:28-30 | the result is the suffix left after removing leading whitespace: everything removed is whitespace and the result does not start with whitespace |
| Todo.TrimEnd | models/todo.py:28-30 | the result is the prefix left after removing trailing whitespace: everything removed is whitespace and the result does not end with whitespace |
| Todo.Strip | models/todo.py:28-30 | `str.strip()`: the result has whitespace at neither end, is no longer than the input, and is empty exactly when the input is all whitespace |
| Todo.StripEmptyIffBlank | models/todo.py:28-30 | trimming both ends leaves nothing exactly when the input is all whitespace |
| Todo.TrimStartSkipsBlanks | models/todo.py:30 | leading whitespace in front of a text does not change what trimming the start leaves |
| Todo.TrimEndSkipsBlanks | models/todo.py:30 | trailing whitespace after a text does not change what trimming the end leaves |
| Todo.StripIdempotent | models/todo.py:30 | stripping twice gives the same as stripping once |
| Todo.StripOfTrimmed | models/todo.py:30 | a string with no whitespace at either end is its own strip |
| Todo.StripSurrounded | models/todo.py:30 | stripping removes exactly the whitespace around a core that has none at its ends |
| Todo.ValidateContent | models/todo.py:24-30 | content is accepted exactly when it is not all whitespace (the empty string included); accepted content is stored stripped, non-empty and trimmed; otherwise the error is the blank-content error |
| Todo.ValidationError.Message | models/todo.py:29 | defines the text of the error raised for blank content |
| Todo.ValidateContentIdempotent | models/todo.py:30 | validating already-accepted content gives it back unchanged |
| Todo.ValidateContentTrimsExample | models/todo.py:30 | "  테스트  " is accepted as "테스트" |
| Todo.ValidateContentRejectsBlankExamples | models/todo.py:28-29 | "" and "   " are both rejected |
| Todo.TodoItem.Dict | models/todo.py:40-46 | `dict()` has exactly the six field keys; id and content are copied, the status is its label, and the three dates are their ISO text |
| Todo.FieldMap | models/serializer.py:25-32 | the six-key dict has exactly the keys id, content, target_date, status, created_at, updated_at, each mapped to its own given value |
| Todo.NewTodoItem | models/todo.py:15-30 | construction fails exactly for blank content; on success the item has the fresh id, the stripped content, the given target date (any date-time, no range check), the given or default status and the two clock readings, and its content passes validation |
| Todo.DefaultStatusIsScheduled | models/todo.py:20 | an item built without a status is Scheduled |
| Todo.NewTodoItemTimestampsOrdered | models/todo.py:21-22 | when the second clock reading is not earlier than the first, the new item's updated_at is not earlier than its created_at |
| DateTimes.DaysInMonth | models/todo.py:19 | every month has 28 to 31 days, and February has 29 exactly in leap years |
| DateTimes.Before | models/todo.py:19 | defines Python's `<` on naive datetimes: the first differing field, from the year down to the microsecond, decides |
| DateTimes.IsValid | models/todo.py:19 | defines the field ranges Python's `datetime` enforces: year 1 to 9999, month 1 to 12, day within the month (leap years included), hour 0 to 23, minute and second 0 to 59, microsecond 0 to 999999 |
| DateTimes.NotAfter | models/todo.py:19 | defines Python's `<=` on naive datetimes: equal, or earlier |
| DateTimes.BeforeIsStrict | models/todo.py:19 | the chronological order on date-times is irreflexive and asymmetric |
| DateTimes.NotAfterIsTotal | models/todo.py:19 | any two date-times are comparable |
| DateTimes.NotAfterIsTransitive | models/todo.py:19 | the non-strict order is transitive |
| DateTimes.Padded | models/todo.py:43-45 | a zero-padded field has exactly the requested width and only digits |
| DateTimes.ParseDigits | models/todo.py:43-45 | a digit string is read exactly when every character is a digit, and its value is below ten to the power of its length |
| DateTimes.ParsePadded | models/todo.py:43-45 | reading a zero-padded field gives back the number it was written from |
| DateTimes.IsoFormat | models/todo.py:43-45 | the ISO text is 19 characters long, or 26 when there are microseconds, with the separators `-`, `-`, `T`, `:`, `:` in their fixed places |
| DateTimes.DatePart | models/todo.py:43-45 | the date part is 10 characters with `-` at positions 4 and 7 |
| DateTimes.TimePart | models/todo.py:43-45 | the time part is 8 characters with `:` at positions 2 and 5 |
| DateTimes.IsoFields | models/todo.py:43-45 | each field of the date-time sits, zero-padded, at its fixed position of the ISO text, and the microseconds follow a `.` when present |
| DateTimes.ParseIso | models/todo.py:43-45 | text that is read as a date-time has one of the two ISO lengths |
| DateTimes.IsoRoundTrip | models/serializer.py:16-19 | the ISO text of any date-time reads back as the same date-time |
| DateTimes.IsoFormatInjective | models/serializer.py:16-19 | distinct date-times have distinct ISO texts |
| Exceptions.NotFoundMessage | models/service.py:66 | the not-found message quotes the id right after its four-character prefix |
| Exceptions.NotFoundMessageInjective | models/service.py:66 | misses on different ids give different messages |
| Exceptions.CreateFailedMessage | models/service.py:40 | the create-failure message ends with the validator's message |
| Exceptions.UpdateFailedMessage | models/service.py:105-106 | the update-failure message ends with the validator's message |
| Exceptions.FailedMessagesDiffer | models/service.py:40-106 | a rejected create and a rejected update get different messages |
| Ordering.DistinctCount | models/repository.py:64-66 | a list without repetition is as long as its set of elements |
| Ordering.Without | models/repository.py:55-56 | removing an id leaves exactly the other ids |
| Ordering.WithoutProperties | models/repository.py:55-56 | removing an absent id changes nothing; removal keeps the rest in order and without repetition, and shortens a repetition-free list by one when the id was there |
| Ordering.KeepListed | models/service.py:141-148 | the kept part of a reorder request has no repetition and holds exactly the requested ids that exist |
| Ordering.Unlisted | models/service.py:141-148 | the rest of a reorder holds exactly the existing ids the request left out |
| Ordering.Reordered | models/service.py:141-148 | defines the reconstructed `set_order` policy: the requested ids that exist, first occurrence only, then the other existing ids in their previous order |
| Ordering.UnlistedProperties | models/service.py:141-148 | the rest of a reorder keeps the previous relative order and has no repetition |
| Ordering.ReorderedIsPermutation | models/service.py:141-148 | a reorder yields the same ids, each once |
| Ordering.KeepListedAll | models/service.py:141-148 | a repetition-free request of existing ids is kept entirely, in its order |
| Ordering.UnlistedNone | models/service.py:141-148 | nothing is left over when the request names every existing id |
| Ordering.ReorderedFullRequest | models/service.py:141-148 | a request naming every existing id exactly once becomes the new order as given |
| Ordering.InsertByDate | models/service.py:150-158 | inserting adds exactly that id to the multiset of ids |
| Ordering.InsertByDateOrdered | models/service.py:150-158 | inserting into a date-ordered list keeps it date-ordered |
| Ordering.InsertByDateDistinct | models/service.py:150-158 | inserting a new id into a repetition-free list keeps it repetition-free |
| Ordering.SortedByDate | models/service.py:150-158 | sorting is a permutation of the ids (same multiset) |
| Ordering.SortedByDateOrdered | models/service.py:150-158 | the sorted ids have non-decreasing target dates |
| Ordering.SortedByDateDistinct | models/service.py:150-158 | sorting a repetition-free list keeps it repetition-free |
| Repository.FilterStatus | models/repository.py:31-33 | the filter is no longer than the list and keeps exactly the list's items that have the status |
| Repository.FilterStatusKeepsOrder | models/repository.py:31-33 | the filtered items appear in the list's order |
| Repository.StatusFiltersPartition | models/repository.py:31-33 | the three status filters together are as long as the whole list |
| Repository.Patched | models/repository.py:43-50 | each given field is assigned exactly as given, the content neither stripped nor checked; the other fields and the id and created_at are kept; updated_at becomes the clock reading |
| Repository.PatchedWithNothingTouchesOnlyTimestamp | models/repository.py:50 | an update with no field still refreshes updated_at and changes nothing else |
| Repository.PatchedAnyStatusTransition | models/repository.py:47-48 | any status can be set from any other status |
| Repository.PatchedStoresBlankContent | models/repository.py:43-44 | as written, update stores "  " as the content, which construction would have rejected |
| Repository.ValidatedPatch | models/repository.py:43-50 | the corrected update fails exactly when the given content is blank, and otherwise stores the stripped content |
| Repository.ValidatedPatchKeepsValidContent | models/repository.py:43-50 | the corrected update never turns an item with valid content into one without |
| Repository.PatchedKeepsTimestampsOrdered | models/repository.py:50 | when the clock reading is not earlier than the last update, an item not updated before it was created stays so after the update |
| Repository.PatchedAdvancesTimestamp | models/repository.py:50 | when the clock reading is later than the last update, the update makes updated_at strictly later and keeps created_at |
| Repository.UpdateKeepsStoreTimestampsOrdered | models/repository.py:35-51 | under the same clock assumption, storing the patched item keeps every stored item's updated_at no earlier than its created_at |
| Repository.OrderLengthIsCount | models/repository.py:27-29 | an order with no repetition over exactly the stored ids is as long as the store |
| Repository.ItemsOf | models/repository.py:27-29 | the listing holds the item stored under each id of the order, position by position |
| Repository.ItemsOfCoversStore | models/repository.py:27-29 | every stored item is in the listing |
| Repository.ItemsOfAppend | models/repository.py:20 | storing a new id last appends its item to the listing |
| Repository.NoDupAppend | models/repository.py:20 | appending a new id keeps the order repetition-free |
| Repository.AppendToStore | models/repository.py:13-21 | storing an item under a new id last keeps the order repetition-free and in step with the store, appends the item to the listing and grows the store by one |
| Repository.ReplaceInStore | models/repository.py:35-51 | replacing a stored item by one with the same id keeps every listed id stored, every stored id listed, and each item under its own id |
| Repository.TodoRepository.constructor | models/repository.py:9-11 | a new repository is empty and valid |
| Repository.TodoRepository.Count | models/repository.py:64-66 | the count is the number of stored ids |
| Repository.TodoRepository.GetById | models/repository.py:23-25 | the stored item, or None exactly for an unknown id; a found item carries the id it was looked up by |
| Repository.TodoRepository.GetAll | models/repository.py:27-29 | one item per stored id in iteration order, every stored item present, as many as the count |
| Repository.TodoRepository.GetByStatus | models/repository.py:31-33 | exactly the stored items with that status, in the order of the full listing |
| Repository.TodoRepository.Create | models/repository.py:13-21 | the result is the constructed item; on success it is stored under its fresh id, the other items are untouched, the count grows by one and the item is last in the listing; on failure nothing changes |
| Repository.TodoRepository.Update | models/repository.py:35-51 | None and no change for an unknown id; otherwise the stored item is replaced by its patched version, the order and the count are kept |
| Repository.TodoRepository.Valid | models/repository.py:11-29 | defines the store's invariant: the insertion order lists every stored id exactly once and nothing else, and each item is stored under its own id |
| Repository.TodoRepository.UpdateValidated | models/repository.py:35-51 | the corrected update on the store: None and no change for an unknown id; otherwise the result of ValidatedPatch, stored only on success, with the order kept |
| Repository.TodoRepository.Delete | models/repository.py:53-58 | True exactly when the id was stored; the item is gone, the count drops by one, the order loses that id; for an unknown id nothing changes |
| Repository.TodoRepository.ClearAll | models/repository.py:60-62 | the store is empty and the count is zero |
| Repository.TodoRepository.SetOrder | models/service.py:141-148 | reconstructed `set_order`: no item changes, the new order is the reorder of the old one, and a request naming every stored id once becomes the order exactly |
| Repository.TodoRepository.SortByDate | models/service.py:150-158 | reconstructed `sort_by_date`: no item changes, the order is a permutation of the old one and target dates never decrease along it |
| Service.TodoService.constructor | models/service.py:12-19 | the service uses the injected repository |
| Service.TodoService.CreateTodo | models/service.py:21-40 | succeeds exactly for non-blank content, with the repository's new item stored last; a rejected create is `InvalidTodo` with the "TODO 생성 실패: " message and changes nothing |
| Service.TodoService.GetAllTodos | models/service.py:42-49 | the repository's listing, as long as the count |
| Service.TodoService.GetTodoById | models/service.py:51-67 | the stored item, or `TodoNotFound` naming the id exactly when it is unknown; never an absent value |
| Service.TodoService.GetTodosByStatus | models/service.py:69-79 | the repository's filter; every returned item has the status |
| Service.TodoService.UpdateTodo | models/service.py:81-106 | `TodoNotFound` with no change exactly for an unknown id; otherwise the patched item, stored in place; never `InvalidTodo` |
| Service.TodoService.UpdateTodoValidated | models/service.py:81-106 | over the corrected update: `TodoNotFound` with no change for an unknown id; a blank content is `InvalidTodo` with the "TODO 수정 실패: " message and no change; otherwise the validated item, stored in place; `InvalidTodo` exactly when the id is known and the content is blank |
| Service.TodoService.DeleteTodo | models/service.py:108-123 | success exactly for a stored id, and its value is always True; an unknown id is `TodoNotFound`; the item is removed |
| Service.TodoService.GetStatistics | models/service.py:125-139 | the total is the listing's length and the count; each status count is the length of that status's filter; the three counts add up to the total |
| Service.TodoService.ReorderTodos | models/service.py:141-148 | no item changes; a request naming every stored id once is the order in which the listing then returns the items |
| Service.TodoService.SortByDate | models/service.py:150-158 | returns the new listing: the same items, a permutation of the old order, with non-decreasing target dates |
| Service.TodoService.ClearAllTodos | models/service.py:160-162 | the repository is empty afterwards |
| Service.TodoService.GetTodoCount | models/service.py:164-171 | the repository's count, which equals the listing's length |
| Service.CreateDigit | models/service.py:21-40 | a create with a one-digit content always succeeds and stores the item last |
| Service.CreateTwo | models/service.py:21-40 | two such creates in a row store both items, in call order, at the end |
| Service.TwoItemService | models/service.py:12-40 | a new service after two creates holds exactly those two items, in call order |
| Service.FourItemService | models/service.py:12-40 | a new service after four creates lists the four ids in call order with the given statuses |
| Service.ThreeItemService | models/service.py:12-40 | a new service after three creates holds exactly those ids, in call order, with the given target dates |
| Service.FullRequest | models/service.py:141-148 | the request c, a, b names every stored id of the three-item store exactly once |
| Service.StatisticsScenario | models/service.py:125-139 | two Scheduled items, one InProgress and one Completed give statistics 4, 2, 1, 1 |
| Service.FourStoredStatuses | models/service.py:125-139 | the status filters over the four-item scenario store have lengths 2, 1, 1 |
| Service.FourStatuses | models/repository.py:31-33 | the status filters over a four-item list with statuses S, S, I, C have lengths 2, 1, 1 |
| Service.ReorderScenario | models/service.py:141-148 | after creating a, b, c and reordering to c, a, b, the listing gives the ids c, a, b |
| Service.SortScenario | models/service.py:150-158 | items created with dates three, one and two steps ahead come back earliest first, each date strictly before the next |
| Service.ThreeStoredDates | models/service.py:150-158 | the listing of the sorted three-item store gives the dates in increasing order |
| Service.ThreeDates | models/service.py:150-158 | a date-ordered arrangement of three ids with distinct dates lists the dates in increasing order |
| Service.ThreeSortedDates | models/service.py:150-158 | three distinct, non-decreasing dates drawn from d1 < d2 < d3 are d1, d2, d3 |
| Serializer.ToResponse | models/serializer.py:10-20 | id and content are copied; the status text reads back as the item's status; each date text reads back as the item's date-time |
| Serializer.FromResponse | models/dtos.py:22-29 | an item read from a response has the response's id and content and a status whose label is the response's status |
| Serializer.ResponseRoundTrip | models/serializer.py:10-20 | reading back the response of an item gives that item |
| Serializer.ToResponseInjective | models/serializer.py:10-20 | different items give different responses |
| Serializer.ToDict | models/serializer.py:22-32 | the six keys, with the same values as the response, and equal to the item's own `dict()` |
| Serializer.ToDictInjective | models/serializer.py:22-32 | different items give different dicts |
| Serializer.ToList | models/serializer.py:34-37 | one dict per item: same length, and element i is the dict of item i |
| Serializer.MapEach | models/serializer.py:37 | the list comprehension: same length, element i is the function applied to element i |
| Serializer.MapEachAppend | models/serializer.py:37 | mapping over a concatenation concatenates the mapped parts |
| Serializer.ToListAppend | models/serializer.py:34-37 | the list of a concatenation is the concatenation of the lists |
| Script.GetStatusClass | static/js/script.js:324-331 | the class is one of scheduled, in-progress, completed; any text that is not a status label gets scheduled |
| Script.StatusClassOfLabel | static/js/script.js:324-331 | 예정, 진행중 and 완료 get scheduled, in-progress and completed |
| Script.StatusClassDistinguishes | static/js/script.js:324-331 | the three statuses get three different classes |
| Script.Entity | static/js/script.js:334-341 | a special character becomes an entity of at least four characters starting with `&`; any other character stays as it is; no replacement contains < > " ' |
| Script.EscapeHtml | static/js/script.js:333-342 | the output is never shorter than the input, is exactly as long only when nothing is special, is the input in that case, and contains none of < > " ' |
| Script.IsSpecial | static/js/script.js:341 | defines the characters the escaping regular expression matches: & < > " ' |
| Script.HasSpecialCons | static/js/script.js:341 | a text has a special character exactly when its first character is special or its rest has one |
| Script.EscapeHtmlAppend | static/js/script.js:341 | escaping works per character: the escape of a concatenation is the concatenation of the escapes, so every other character passes through in order |
| Script.EscapeHtmlTable | static/js/script.js:334-340 | & < > " ' become &amp; &lt; &gt; &quot; &#039;, and any other single character is kept |
| Script.EscapeHtmlNotIdempotent | static/js/script.js:341 | escaping is a single pass: "&amp;" becomes "&amp;amp;" |
| Script.UnescapeHtml | static/js/script.js:341 | decoding never lengthens the text |
| Script.UnescapeEntity | static/js/script.js:334-341 | decoding reads each replacement back as the character it came from |
| Script.EscapeRoundTrip | static/js/script.js:333-342 | decoding the escaped text gives the original text |
| Script.EscapeHtmlInjective | static/js/script.js:333-342 | different texts escape differently |

## Left out

- Flask routing, request parsing, HTTP status codes, the app factory and sample data: outside the domain layer.
- The rest of static/js/script.js (DOM access, `fetch`, event handlers, modal state, local-time date formatting): browser I/O.
- `uuid4()` and `datetime.now()`: the fresh id and the clock readings are parameters; the uuid text format is not modelled.
- Todo.ValidateContent: the blank-content error carries only the validator's own message. The text of pydantic's `ValidationError` that wraps it (and so the full `InvalidTodo` message) is not modelled.
- Todo.NewTodoItem: pydantic's `min_length=1` check (models/todo.py:18) is not modelled separately. It rejects the empty string before the validator does, which the model reports as the same blank-content error.
- Todo.NewTodoItem: the `isinstance` check on `target_date` (models/todo.py:36-37) cannot fail on the model's typed input.
- DateTimes.ParseIso: reads only the layout `isoformat()` writes, not everything `datetime.fromisoformat()` accepts.
- Todo.NewTodoItem and Repository.TodoRepository.Update: `updated_at >= created_at` and a strictly later `updated_at` after an update are not promised, because the clock readings are unconstrained parameters and `datetime.now` is a wall clock that can step back; they are proved only for clock readings that do not go backwards, as Todo.NewTodoItemTimestampsOrdered, Repository.PatchedKeepsTimestampsOrdered, Repository.PatchedAdvancesTimestamp and Repository.UpdateKeepsStoreTimestampsOrdered.
- Time zones: date-times are naive; aware date-times and their offset suffix are not modelled.
- Repository.TodoRepository.Update: items are values, so the model replaces the stored item; the caller's earlier reference to the same Python object would also see the change; that aliasing is not modelled.
- Repository.TodoRepository.SortByDate: the reconstructed sort is an insertion sort that keeps equal dates in their previous order, but that stability is not proved.
- Repository.TodoRepository.SetOrder: how the missing `set_order` treats unknown or repeated ids is a choice of the model: they are ignored. Ids left out of the request follow in their previous order.
- Script.GetStatusClass: a status text that names an `Object.prototype` property (such as "constructor") is looked up on the prototype in JavaScript and returns that property; the model gives "scheduled".
- Script.EscapeHtml: a non-string argument, which makes the JavaScript throw, is not modelled; JavaScript's UTF-16 code units are modelled as Dafny characters, which leaves the five ASCII characters and the result unchanged.
- Service: the service is modelled over the repository model only; another repository implementation is not.
- models/dtos.py request DTOs and StatsResponse/TodoListResponse: declarative shapes used by the routes only.

## Findings

| source | as written | input that shows it | evidently intended | confidence | as-written member | corrected member |
|---|---|---|---|---|---|---|
| models/repository.py:43-44 | `update` assigns the new content directly, and the model config has no `validate_assignment`, so the content validator does not run | `update(id, content="  ")` stores "  ", content that construction rejects | updated content is validated like new content: stored stripped, rejected when blank (the test at tests/test_repository.py:386-397 accepts the InvalidTodoError the corrected update gives for "  ") | not executed | Repository.PatchedStoresBlankContent | Repository.ValidatedPatch |
