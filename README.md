# TaskBoard: a verified model of the task rules

TaskBoard is a small Kanban board. An Express server keeps a list of tasks
in a JSON document. It serves the list under `/api/tasks` and lets a
browser client create, edit and delete tasks. The client draws the tasks in
three columns: To Do, In Progress and Done. This project models the two
pieces of logic that have exact rules.

**The server's `/api/tasks` handlers (`server.js`).**
- Module `Server` gives each handler twice.
- The first form is a pure outcome function (`CreateOutcome`, `PatchOutcome`, `DeleteOutcome`). It says what the handler answers and whether `db.write()` runs, and with which collection.
- The second form is a method over a `Store` object (`CreateTask`, `PatchTask`, `DeleteTask`, `ListTasks`). It follows the handler statement by statement: it loads the stored list, checks the fields with early returns and assigns them to the loaded copy. Each of `CreateTask`, `PatchTask` and `DeleteTask` is proved to have exactly the outcome of its function. `ListTasks` has no outcome function: its `ensures` state directly that it answers a permutation of the stored tasks, newest first.
- The lemmas about the outcome functions are what the handlers promise:
  - validation and its error messages;
  - the stored fields;
  - appending;
  - the update of a single task;
  - removal of every task with an id;
  - no write on any error path, even after earlier fields of a patch were assigned in memory;
  - preservation of the collection invariant: unique ids, trimmed non-empty titles, known statuses.
- `normalizeStatus` is `Server.NormalizeStatus`.
- The listing order (newest first by `updatedAt || createdAt`) lives in module `Recency`. There it is an in-place sort on an array, proved to return a permutation in that order.

**The browser client (`public/app.js`).**
- Module `HtmlEscape` models `escapeHtml` as the chain of five `replaceAll` passes. It proves the following:
  - the passes equal an independent per-character escaping;
  - the result holds no `<`, `>`, `"` or `'`;
  - text with none of the five special characters is unchanged;
  - a decoder of the five entities inverts the escaping, so escaping is injective.
- Module `Client` models the card text (`statusLabel`, the description fallback, escaped fields), the grouping and counts of `render`, and the list updates the client makes after each request.
- The client's list is a `ClientState` object whose methods change it. It holds the stored tasks in its own order: newest first after a load, created tasks in front. The model proves that a client list holding the same tasks as the store (in any order) still does after each create, patch (with unique ids) and delete.

**Shared modules.**
- Module `Strings` models `String.prototype.trim` and the timestamp order.
- Module `Tasks` holds the task record and the order-preserving filter that both sides use.

The clock (`new Date().toISOString()`) and the id generator (`nanoid(10)`) are parameters: `now` and `id`.

## Model

| member | source | states |
|---|---|---|
| Strings.Trim | server.js:56-57 | `trim` returns a contiguous slice of its input, with only whitespace cut from either end, and the slice itself starts and ends with a non-space |
| Strings.TrimCutsSpace | server.js:56-57 | what `TrimStart` and `TrimEnd` promise makes their composition the slice between the two whitespace cuts, and that slice is trimmed |
| Strings.TrimIdempotent | server.js:56-57 | trimming a trimmed string changes nothing |
| Strings.TrimEmptyIffAllSpace | server.js:49 | `!s.trim()` holds exactly when `s` is empty or all whitespace |
| Strings.StrLessIrreflexive | server.js:43 | no timestamp key sorts before itself |
| Strings.StrLessAsymmetric | server.js:43 | two keys are never each before the other |
| Strings.StrLessTotal | server.js:43 | of two different keys, one sorts before the other |
| Strings.StrLessTransitive | server.js:43 | the strict key order is transitive |
| Strings.StrLess | server.js:43 | the lexicographic stand-in for `localeCompare`; it has no contract of its own, and `StrLessIrreflexive`, `StrLessAsymmetric`, `StrLessTotal` and `StrLessTransitive` make it a strict total order |
| Strings.StrLeTotal | server.js:43 | any two keys are comparable under the non-strict order |
| Strings.StrLeTransitive | server.js:43 | the non-strict key order is transitive, so it is a total preorder the sort can rely on |
| Tasks.PermutationRest | public/app.js:156 | taking the same task off two lists that hold the same tasks leaves lists that hold the same tasks |
| Tasks.FilterPermutation | public/app.js:162 | filtering two lists that hold the same tasks, in any order, keeps the same tasks |
| Tasks.Filter | server.js:112 | `filter` keeps exactly the elements satisfying the predicate and never grows the list |
| Tasks.FilterConcat | server.js:112 | filtering distributes over concatenation, so kept elements keep their relative order |
| Tasks.FilterKeepsAllIff | server.js:112-113 | the filtered list has the original length exactly when every element is kept, and is then the original list |
| Tasks.FilterUniqueIds | server.js:112 | filtering a list with unique ids gives a list with unique ids |
| Tasks.WithoutId | server.js:112 | `filter(t => t.id !== id)` never grows the list and holds exactly the tasks of the list without that id |
| Tasks.WithoutIdSpec | server.js:112-113 | dropping an id removes every task with it and keeps every other task; the length is unchanged exactly when the id was absent |
| Tasks.WithoutIdConcat | public/app.js:162 | dropping an id keeps the remaining tasks in their original order |
| Tasks.WithoutIdIdempotent | public/app.js:162 | dropping an id twice is the same as dropping it once |
| Recency.SortKey | server.js:43 | the key: `updatedAt`, or `createdAt` when `updatedAt` is empty; it has no contract of its own, and `SortNewestFirst` and `ListTasks` state the order by it |
| Recency.NeighboursGiveNewestFirst | server.js:43 | if every neighbouring pair is in newest-first order, the whole list is |
| Recency.SortNewestFirst | server.js:43 | sorting in place leaves the array newest first by the key and holding the same tasks (a permutation) |
| Recency.Insert | server.js:43 | one insertion step leaves `a[..i+1]` ordered and holding the tasks it held before, and leaves `a[i+1..]` untouched |
| Recency.Sink | server.js:43 | the loop of one insertion step keeps the step's state and stops at the front or behind a task no older than the moving one |
| Recency.Swap | server.js:43 | exchanging two neighbours changes only those two cells and keeps the multiset |
| Recency.InsertStep | server.js:43 | each swap of the insertion step keeps the prefix ordered except at the moving element |
| Recency.InsertStart | server.js:43 | an insertion step starts from an ordered prefix with nothing moved |
| Recency.SwapInPrefix | server.js:43 | a swap inside the prefix keeps the prefix's tasks and leaves the rest of the array alone |
| Recency.InsertStateStep | server.js:43 | each swap of the loop keeps the step's ordering state, the prefix's tasks and the untouched rest |
| Recency.InsertDone | server.js:43 | once the moving element has stopped, the whole prefix is ordered and the array holds the tasks it started with |
| Server.NormalizeStatus | server.js:35-38 | the result is always one of `todo`, `in_progress`, `done`; it equals the argument exactly when the argument is one of them, and is `todo` otherwise |
| Server.NormalizeStatusIdempotent | server.js:35-38 | normalising twice is normalising once |
| Server.StatusCode | server.js:50 | a 400 answer is exactly a refused request and a 404 answer exactly a missing task |
| Server.CreateOutcome | server.js:47-68 | a create writes exactly when it answers 201, and then writes the old collection with the new task appended; otherwise it answers 400 "title is required" |
| Server.CreateRejectsUnusableTitle | server.js:49-51 | a create gets 400 "title is required" with no write exactly when the title is absent, not a string, or whitespace only; otherwise it gets 201 |
| Server.CreateStoresNewTask | server.js:53-65 | a successful create stores the trimmed title, the trimmed description or `""` when that is not a string, status `todo` and `createdAt == updatedAt == now`; it appends the task after the unchanged earlier tasks, so the length grows by one |
| Server.CreateKeepsValid | server.js:53-65 | with a fresh id, a create keeps the collection invariant |
| Server.AppendKeepsValid | server.js:64 | pushing a well-formed task with a fresh id keeps the collection invariant (ids unique, every task well formed) |
| Server.CreateTask | server.js:47-68 | the handler answers and writes exactly as the create outcome says |
| Server.FindIndex | server.js:76 | `findIndex` gives the first index holding the id, or -1 exactly when no task has it |
| Server.ValidatePatch | server.js:79-98 | a patch body is accepted exactly when every present field is of the right kind; each field is to change exactly when it is a string; a new title is non-empty and trimmed and a new status is known |
| Server.ApplyEdit | server.js:83-100 | applying a patch keeps `id` and `createdAt`, sets `updatedAt` to `now`, and keeps each field the patch does not change |
| Server.PatchOutcome | server.js:70-104 | a patch writes exactly when it answers with the updated task; then the id is stored, the length is kept and the answered task sits at the id's first index |
| Server.PatchUnknownId | server.js:76-77 | a patch answers 404 exactly when no task has the id, and then writes nothing |
| Server.PatchFieldErrors | server.js:79-98 | on a stored id, a bad title, a non-string description and a non-string status are refused with their own messages, checked in that order; the patch succeeds exactly when no present field is bad |
| Server.PatchWritesOnlyOnSuccess | server.js:79-101 | every 400 or 404 answer comes without a write, and every success with one |
| Server.PatchUpdatesOneTask | server.js:79-103 | a successful patch changes only the first task with the id: absent fields keep their value; present ones take the trimmed title and description and the normalised status; `id` and `createdAt` stay; `updatedAt` becomes `now`, even for an empty patch |
| Server.PatchKeepsValid | server.js:79-101 | a patch keeps the collection invariant |
| Server.PatchTask | server.js:70-104 | the handler, assigning fields to the loaded copy with early returns, answers and writes exactly as the patch outcome says |
| Server.DeleteOutcome | server.js:106-117 | a delete writes exactly when it answers 204, and then writes a shorter collection |
| Server.DeleteRemovesId | server.js:110-116 | a delete answers 404 with no write exactly when no task has the id; afterwards no task has the id and every other task remains |
| Server.DeleteTwiceNotFound | server.js:110-113 | deleting the same id a second time answers 404 |
| Server.DeleteKeepsValid | server.js:110-116 | a delete keeps the collection invariant |
| Server.DeleteTask | server.js:106-117 | the handler, which detects a missing id by the unchanged length, answers and writes exactly as the delete outcome says |
| Server.ListTasks | server.js:40-45 | the list answer is a permutation of the stored tasks, newest first by `updatedAt \|\| createdAt` |
| Server.Store.constructor | db.js:15-17 | a new document holds no tasks |
| Server.Store.Write | server.js:65 | `db.write()` replaces the stored collection with the given one |
| HtmlEscape.ReplaceAll | public/app.js:31-35 | a `replaceAll` of one character with a replacement holding no `$` changes nothing when the character does not occur, and the character cannot remain when its replacement lacks it |
| HtmlEscape.EscapeHtml | public/app.js:29-36 | the five passes in source order; it has no contract of its own, and its properties are stated by `EscapeHtmlPerChar`, `EscapeHtmlHasNoMarkup`, `EscapeHtmlPlainText` and `UnescapeEscapeHtml` |
| HtmlEscape.ReplaceAllConcat | public/app.js:31-35 | `replaceAll` of a one-character pattern distributes over concatenation |
| HtmlEscape.EscapeHtmlConcat | public/app.js:29-36 | escaping distributes over concatenation |
| HtmlEscape.FivePassesOneChar | public/app.js:29-36 | five one-character passes turn a character into the replacement of the first pattern it equals, when no replacement holds a later pattern |
| HtmlEscape.EscapeHtmlOneChar | public/app.js:29-36 | escaping one character gives its entity or the character itself |
| HtmlEscape.EscapeHtmlPerChar | public/app.js:29-36 | because `&` is replaced first, no entity is escaped again: the five passes equal escaping each character on its own |
| HtmlEscape.EscapeHtmlHasNoMarkup | public/app.js:29-36 | escaped text contains no `<`, `>`, `"` or `'` |
| HtmlEscape.EscapeEachHasNoMarkup | public/app.js:29-36 | per-character escaping produces none of `<`, `>`, `"`, `'` |
| HtmlEscape.EscapeHtmlPlainText | public/app.js:29-36 | text without any of `&`, `<`, `>`, `"`, `'` is returned unchanged |
| HtmlEscape.EscapeEachPlainText | public/app.js:29-36 | per-character escaping leaves such text unchanged |
| HtmlEscape.UnescapeEscapeChar | public/app.js:29-36 | the entities are prefix-distinct: an entity followed by any text decodes to its character followed by the decoded text |
| HtmlEscape.UnescapeEscapeHtml | public/app.js:29-36 | decoding the five entities recovers the original text |
| HtmlEscape.EscapeHtmlInjective | public/app.js:29-36 | different texts are escaped differently |
| Client.StatusLabel | public/app.js:95 | the label is "To Do" exactly for `todo`, "In Progress" exactly for `in_progress`, and "Done" for every other status |
| Client.ShownDescription | public/app.js:94 | the card shows the trimmed description, or "No description" exactly when it is empty or all whitespace; what is shown is never empty |
| Client.CardTemplate | public/app.js:93-109 | no interpolated field of a card contains `<`, `>`, `"` or `'`; the escaped id and title decode to the task's own, and the escaped description decodes to the text shown (the trimmed description, or "No description"); the status label reaches the card unescaped |
| Client.LabelIsPlainText | public/app.js:102 | escaping a status label leaves it unchanged |
| Client.WithStatus | public/app.js:113 | a group never grows the list and holds exactly the tasks of that status |
| Client.BoardOf | public/app.js:111-118 | the board's three counts never exceed the number of tasks; `GroupsPartition` and `BoardCountsAll` give the exact split |
| Client.ColumnOf | public/app.js:116-117 | the column drawn for a group: one card per task in group order, and the group's length as count; it has no contract of its own, and `ClientState.Render`, `GroupMembership` and `GroupsPartition` state the grouping |
| Client.WithStatusSnoc | public/app.js:113 | pushing a task extends only the group of its own status |
| Client.GroupMembership | public/app.js:112-113 | a task is in a group exactly when it is in the list with that status; a task of any other status is in no group |
| Client.WithStatusConcat | public/app.js:113 | grouping keeps the list order |
| Client.GroupsPartition | public/app.js:111-118 | the three groups and the tasks of other statuses together account for every task |
| Client.BoardCountsAll | public/app.js:115-118 | when every status is known, the three column counts add up to the number of tasks |
| Client.NothingUnshown | public/app.js:113 | when every status is known, no task is left out of the columns |
| Client.SlotAsWritten | public/app.js:113 | `groups[t.status]?.push(t)` pushes exactly for the three statuses and throws exactly for a name inherited from `Object.prototype` |
| Client.RenderAsWritten | public/app.js:111-118 | `render` as written fails exactly when some task's status is an `Object.prototype` name, and otherwise draws the board |
| Client.RenderThrowsOnPrototypeName | public/app.js:113 | for a task with status `toString`, `render` as written throws, while the intended board is empty |
| Client.ClientState.Render | public/app.js:111-118 | the loop builds, for each column, the tasks of that status in list order, with their count |
| Client.ClientState.constructor | public/app.js:27 | the client starts with an empty list |
| Client.ClientState.Load | public/app.js:136-140 | the list becomes the answered tasks, or an empty list when the answer has none, and the board is redrawn |
| Client.ClientState.AfterCreate | public/app.js:147-148 | the created task goes to index 0, followed by the unchanged earlier tasks |
| Client.ReplaceById | public/app.js:156 | the list keeps its length; every task with the id becomes the returned task and every other one is unchanged |
| Client.ClientState.AfterUpdate | public/app.js:156-157 | the list becomes the replaced-by-id list, and the board is redrawn |
| Client.ClientState.AfterDelete | public/app.js:162-163 | the list drops every task with the id and keeps the others in order, and the board is redrawn |
| Client.CreatedTaskFirst | public/app.js:147 | a created task is the first card of its own column, and the other columns do not change |
| Client.ReplaceByIdConcat | public/app.js:156 | `map` distributes over concatenation |
| Client.ReplaceByIdPermutation | public/app.js:156 | replacing by id in two lists that hold the same tasks, in any order, gives lists that hold the same tasks |
| Client.PatchIsReplaceById | public/app.js:156 | with unique ids, replacing by id in the stored collection gives exactly the collection a successful patch wrote |
| Client.LoadInStep | public/app.js:136-140 | a client list loaded from the `GET /api/tasks` answer holds the same tasks as the store and is newest first |
| Client.ClientMirrorsCreate | public/app.js:147 | a client list holding the stored tasks still does after a create, with the new task in front instead of at the end |
| Client.ClientMirrorsPatch | public/app.js:156 | with unique stored ids, a client list holding the stored tasks, in any order, still does after a successful patch |
| Client.ClientMirrorsDelete | public/app.js:162 | a client list holding the stored tasks, in any order, still does after a successful delete, and no longer holds the id |

## Left out

- The file I/O in `db.js` (lowdb, `fs`, JSON serialisation) is left out: it is I/O. The store is an object holding the task list, and `Write` stands for `db.write()`. `db.data ||= { tasks: [] }` and `db.data.tasks ?? []` are not modelled: the store always holds a list.
- Express plumbing is left out because it is framework wiring. This covers helmet, morgan, cors, body parsing, static files, `/healthz`, the SPA fallback and `listen`. A missing request body (`req.body || {}`) is a body whose fields are all `Absent`.
- Tasks in the stored document with missing or non-string fields are not modelled: every field of `Task` is a string. An empty `updatedAt` stands for a missing (falsy) one, and the comparator's exception when both timestamps are missing is left out.
- `nanoid(10)` and `new Date().toISOString()` are parameters (`id`, `now`), because they are randomness and the clock. Id collisions are not modelled: `Server.CreateKeepsValid` assumes a fresh id.
- `localeCompare` is modelled as lexicographic order by character code, because the locale-dependent collation is outside the model. On ISO-8601 timestamps the two orders agree.
- Strings are sequences of Unicode scalar values, while JavaScript strings are UTF-16 code units. A title, description or id holding a lone surrogate (sent in JSON as `"\ud800"`) cannot be represented in the model.
- `String.prototype.trim` uses a simplified whitespace set (ASCII blanks, no-break space, byte-order mark), not the full Unicode set.
- Recency.SortNewestFirst: the engine's sort algorithm is replaced by an insertion sort with the same order and permutation contract. The contract does not state stability (tasks with equal keys keeping their stored order), which ECMAScript 2019 requires of `Array.prototype.sort`.
- Server.ListTasks: for the same reason, the list answer is not stated to keep tasks with equal keys in their stored order.
- Aliasing in `PATCH`: the handler assigns to the task object in the loaded array, and the response then refers to that same object. The model updates a local copy of the record and stores it back, so aliasing is not modelled. Because every request loads the document afresh (`db.js:20-27`), an unwritten assignment leaves nothing behind, and the model captures exactly that.
- The lost-update race between concurrent requests is left out: the model is sequential.
- The browser UI is left out. This covers the DOM, `fetch` and the `api` wrapper with its error messages, the modal, event listeners, the form submit handler, `setTimeout`, `alert` and `confirm`, and click handlers on cards. When a request fails, the client's list is not updated; in the model the `After…` methods are then simply not called.
- Client.CardTemplate: the date badge (`fmtDate` with `toLocaleString`) is not modelled because it is locale formatting. The card is a record of its escaped texts, not the assembled HTML string.
- Client.ClientState.Render: `map(cardTemplate).join("")`, the `innerHTML` assignments and `String(length)` are not modelled. A column is its list of cards and its count as a number.
- Client.ShownDescription: a missing description (`task.description?.trim()` on `undefined`) is not modelled, because the server always stores a string.

## Findings

| source | as written | input that shows it | evidently intended | confidence | as-written member | corrected member |
|---|---|---|---|---|---|---|
| public/app.js:113 | `groups[t.status]?.push(t)` looks the status up on an object literal, which inherits `toString`, `constructor`, `__proto__` and other names from `Object.prototype`. For such a status, `?.` does not short-circuit, `push` is `undefined`, and the call throws a `TypeError`, so `render` stops before any column is drawn. | A stored task with status `"toString"`; `Client.RenderThrowsOnPrototypeName` shows the failure for that input. The server never stores such a status itself, so it needs a document edited by hand. | A task whose status names no column is left out of every column, and the board is drawn. | low: not executed | Client.RenderAsWritten | Client.ClientState.Render |
