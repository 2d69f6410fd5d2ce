/**
  The `/api/tasks` handlers of the server. Each handler is given twice:
  as a pure outcome function that validates the whole request first and
  then says what is answered and what, if anything, is written to the
  store; and as a method over the `Store` that follows the handler step by
  step (early returns, field-by-field assignment to the loaded copy) and is
  proved to have exactly that outcome. The clock and the id generator are
  parameters (`now`, `id`).
 */
module Server {
  import opened Strings
  import opened Tasks
  import opened Recency

  /** `normalizeStatus`: a known status is kept, anything else becomes `todo`. */
  function NormalizeStatus(status: string): (r: string)
    ensures IsStatus(r)
    ensures r == status <==> IsStatus(status)
    ensures !IsStatus(status) ==> r == Todo
  {
    if IsStatus(status) then status else Todo
  }

  lemma NormalizeStatusIdempotent(status: string)
    ensures NormalizeStatus(NormalizeStatus(status)) == NormalizeStatus(status)
  {
  }

  /** A field of a JSON request body: missing (`undefined`), a string, or
      any other JSON value (`null`, a number, an object, ...). */
  datatype Field = Absent | Str(value: string) | NonString

  datatype CreateBody = CreateBody(title: Field, description: Field)
  datatype PatchBody = PatchBody(title: Field, description: Field, status: Field)

  /** The HTTP answers of the handlers. */
  datatype Response =
    | TaskList(tasks: seq<Task>)
    | Created(task: Task)
    | Updated(task: Task)
    | NoContent
    | BadRequest(error: string)
    | NotFound(error: string)

  function StatusCode(r: Response): (code: int)
    ensures r.BadRequest? <==> code == 400
    ensures r.NotFound? <==> code == 404
  {
    match r
    case TaskList(_) => 200
    case Created(_) => 201
    case Updated(_) => 200
    case NoContent => 204
    case BadRequest(_) => 400
    case NotFound(_) => 404
  }

  const TitleRequired: string := "title is required"
  const TitleNotEmpty: string := "title must be a non-empty string"
  const DescriptionNotString: string := "description must be a string"
  const StatusNotString: string := "status must be a string"
  const TaskNotFound: string := "task not found"

  /** Whether the handler called `db.write()`, and with which collection. */
  datatype Persist = Unwritten | Written(tasks: seq<Task>)

  datatype Outcome = Outcome(response: Response, persist: Persist)

  /** The stored collection after a handler that started from `before`. */
  function Persisted(before: seq<Task>, p: Persist): seq<Task> {
    if p.Written? then p.tasks else before
  }

  /** The invariant the server keeps for its collection: unique ids, non-empty
      trimmed titles, trimmed descriptions and known statuses. */
  predicate WellFormed(t: Task) {
    t.title != "" && IsTrimmed(t.title) && IsTrimmed(t.description) && IsStatus(t.status)
  }

  predicate ValidCollection(s: seq<Task>) {
    UniqueIds(s) && forall i :: 0 <= i < |s| ==> WellFormed(s[i])
  }

  // ---- POST /api/tasks ----

  /** `title` passes `!title || typeof title !== "string" || !title.trim()`. */
  predicate UsableTitle(f: Field) {
    f.Str? && Trim(f.value) != ""
  }

  /** The outcome of `POST /api/tasks` on the stored collection `tasks`. */
  function CreateOutcome(tasks: seq<Task>, body: CreateBody, id: string, now: string): (out: Outcome)
    ensures out.persist.Written? <==> out.response.Created?
    ensures out.persist.Unwritten? ==> out.response == BadRequest(TitleRequired)
    ensures out.persist.Written? ==> out.persist.tasks == tasks + [out.response.task]
  {
    if !UsableTitle(body.title) then
      Outcome(BadRequest(TitleRequired), Unwritten)
    else
      var description := if body.description.Str? then Trim(body.description.value) else "";
      var t := Task(id, Trim(body.title.value), description, Todo, now, now);
      Outcome(Created(t), Written(tasks + [t]))
  }

  /** A create is refused, with 400 and no write, exactly when the title is
      missing, not a string, or only whitespace. */
  lemma CreateRejectsUnusableTitle(tasks: seq<Task>, body: CreateBody, id: string, now: string)
    ensures var out := CreateOutcome(tasks, body, id, now);
      (out.response.BadRequest? <==> body.title.Absent? || body.title.NonString? || AllSpace(body.title.value))
      && (out.response.BadRequest? ==> out.response.error == TitleRequired && out.persist == Unwritten)
      && StatusCode(out.response) in {201, 400}
  {
    if body.title.Str? {
      TrimEmptyIffAllSpace(body.title.value);
    }
  }

  /** A successful create stores the trimmed title and description (`""`
      for a missing or non-string one), status `todo`, equal timestamps, and
      appends the task behind the unchanged earlier tasks. */
  lemma CreateStoresNewTask(tasks: seq<Task>, body: CreateBody, id: string, now: string)
    requires UsableTitle(body.title)
    ensures var out := CreateOutcome(tasks, body, id, now);
      out.response.Created? && out.persist.Written?
      && var t := out.response.task;
      && t.id == id && t.title == Trim(body.title.value) && t.title != ""
      && (body.description.Str? ==> t.description == Trim(body.description.value))
      && (!body.description.Str? ==> t.description == "")
      && t.status == Todo && t.createdAt == now && t.updatedAt == now
      && |out.persist.tasks| == |tasks| + 1
      && out.persist.tasks[..|tasks|] == tasks && out.persist.tasks[|tasks|] == t
  {
  }

  /** With a fresh id, a create keeps the collection valid. */
  lemma CreateKeepsValid(tasks: seq<Task>, body: CreateBody, id: string, now: string)
    requires ValidCollection(tasks) && !HasId(tasks, id)
    ensures ValidCollection(Persisted(tasks, CreateOutcome(tasks, body, id, now).persist))
  {
    var out := CreateOutcome(tasks, body, id, now);
    if out.persist.Written? {
      var t := out.response.task;
      assert t.id == id && WellFormed(t);
      AppendKeepsValid(tasks, t);
    }
  }

  /** Appending a well-formed task with a fresh id keeps a collection valid. */
  lemma AppendKeepsValid(tasks: seq<Task>, t: Task)
    requires ValidCollection(tasks) && WellFormed(t) && !HasId(tasks, t.id)
    ensures ValidCollection(tasks + [t])
  {
    var s := tasks + [t];
    forall i | 0 <= i < |s| ensures WellFormed(s[i]) {
      if i < |tasks| {
        assert s[i] == tasks[i];
      }
    }
    forall i, j | 0 <= i < j < |s| ensures s[i].id != s[j].id {
      assert s[i] == tasks[i];
      if j < |tasks| {
        assert s[j] == tasks[j];
      }
    }
  }

  // ---- PATCH /api/tasks/:id ----

  /** `tasks.findIndex(t => t.id === id)`: the first index with that id, or -1. */
  function FindIndex(tasks: seq<Task>, id: string): (i: int)
    ensures -1 <= i < |tasks|
    ensures i == -1 <==> !HasId(tasks, id)
    ensures i >= 0 ==> tasks[i].id == id && forall k :: 0 <= k < i ==> tasks[k].id != id
  {
    if tasks == [] then -1
    else if tasks[0].id == id then 0
    else
      var j := FindIndex(tasks[1..], id);
      if j == -1 then -1 else j + 1
  }

  /** A validated patch: the new value of each field that is to change. */
  datatype Edit = Edit(title: Option<string>, description: Option<string>, status: Option<string>)

  datatype Validated = Accepted(edit: Edit) | Rejected(error: string)

  /** Checks the patch fields in the order the handler does (title,
      description, status) and reports the first failure; otherwise gives
      the trimmed title and description and the normalised status. */
  function ValidatePatch(body: PatchBody): (v: Validated)
    ensures v.Accepted? <==> (body.title.Absent? || UsableTitle(body.title))
                             && !body.description.NonString? && !body.status.NonString?
    ensures v.Accepted? ==> (v.edit.title.Some? <==> body.title.Str?)
                            && (v.edit.description.Some? <==> body.description.Str?)
                            && (v.edit.status.Some? <==> body.status.Str?)
    ensures v.Accepted? && v.edit.title.Some? ==> v.edit.title.value != [] && IsTrimmed(v.edit.title.value)
    ensures v.Accepted? && v.edit.status.Some? ==> IsStatus(v.edit.status.value)
  {
    if !body.title.Absent? && !UsableTitle(body.title) then Rejected(TitleNotEmpty)
    else if body.description.NonString? then Rejected(DescriptionNotString)
    else if body.status.NonString? then Rejected(StatusNotString)
    else
      Accepted(Edit(
        if body.title.Str? then Some(Trim(body.title.value)) else None,
        if body.description.Str? then Some(Trim(body.description.value)) else None,
        if body.status.Str? then Some(NormalizeStatus(body.status.value)) else None))
  }

  /** Applies a validated patch to a task; `id` and `createdAt` never change. */
  function ApplyEdit(t: Task, e: Edit, now: string): (r: Task)
    ensures r.id == t.id && r.createdAt == t.createdAt && r.updatedAt == now
    ensures e.title.None? ==> r.title == t.title
    ensures e.description.None? ==> r.description == t.description
    ensures e.status.None? ==> r.status == t.status
  {
    t.(title := e.title.GetOr(t.title),
       description := e.description.GetOr(t.description),
       status := e.status.GetOr(t.status),
       updatedAt := now)
  }

  /** The outcome of `PATCH /api/tasks/:id` on the stored collection `tasks`. */
  function PatchOutcome(tasks: seq<Task>, id: string, body: PatchBody, now: string): (out: Outcome)
    ensures out.persist.Written? <==> out.response.Updated?
    ensures out.persist.Written? ==> HasId(tasks, id) && |out.persist.tasks| == |tasks|
                                     && out.persist.tasks[FindIndex(tasks, id)] == out.response.task
  {
    var idx := FindIndex(tasks, id);
    if idx < 0 then
      Outcome(NotFound(TaskNotFound), Unwritten)
    else
      match ValidatePatch(body)
      case Rejected(error) => Outcome(BadRequest(error), Unwritten)
      case Accepted(edit) =>
        var t := ApplyEdit(tasks[idx], edit, now);
        Outcome(Updated(t), Written(tasks[idx := t]))
  }

  /** A patch of an id that is not stored answers 404 and writes nothing. */
  lemma PatchUnknownId(tasks: seq<Task>, id: string, body: PatchBody, now: string)
    ensures var out := PatchOutcome(tasks, id, body, now);
      out.response == NotFound(TaskNotFound) <==> !HasId(tasks, id)
    ensures !HasId(tasks, id) ==> PatchOutcome(tasks, id, body, now).persist == Unwritten
  {
  }

  /** Every error answer of a patch comes without a write, and every
      success with one. */
  lemma PatchWritesOnlyOnSuccess(tasks: seq<Task>, id: string, body: PatchBody, now: string)
    ensures var out := PatchOutcome(tasks, id, body, now);
      (out.persist.Unwritten? <==> StatusCode(out.response) in {400, 404})
      && (out.persist.Written? <==> out.response.Updated?)
  {
  }

  /** The field rules of a patch of a stored id: a present field of the
      wrong kind is refused with its own message, checked in the order
      title, description, status. */
  lemma PatchFieldErrors(tasks: seq<Task>, id: string, body: PatchBody, now: string)
    requires HasId(tasks, id)
    ensures body.title.NonString? || (body.title.Str? && AllSpace(body.title.value))
      ==> PatchOutcome(tasks, id, body, now).response == BadRequest(TitleNotEmpty)
    ensures (body.title.Absent? || UsableTitle(body.title)) && body.description.NonString?
      ==> PatchOutcome(tasks, id, body, now).response == BadRequest(DescriptionNotString)
    ensures (body.title.Absent? || UsableTitle(body.title)) && !body.description.NonString? && body.status.NonString?
      ==> PatchOutcome(tasks, id, body, now).response == BadRequest(StatusNotString)
    ensures PatchOutcome(tasks, id, body, now).response.Updated?
      <==> (body.title.Absent? || UsableTitle(body.title)) && !body.description.NonString? && !body.status.NonString?
  {
    if body.title.Str? {
      TrimEmptyIffAllSpace(body.title.value);
    }
  }

  /** A successful patch changes only the first task with the id: absent
      fields keep their value, present ones take the trimmed title and
      description and the normalised status, `id` and `createdAt` stay, and
      `updatedAt` becomes `now` even for an empty patch. */
  lemma PatchUpdatesOneTask(tasks: seq<Task>, id: string, body: PatchBody, now: string)
    requires PatchOutcome(tasks, id, body, now).response.Updated?
    ensures var out := PatchOutcome(tasks, id, body, now);
      var idx := FindIndex(tasks, id);
      var orig, t, stored := tasks[idx], out.response.task, out.persist.tasks;
      && 0 <= idx < |tasks| && out.persist.Written?
      && |stored| == |tasks| && stored[idx] == t
      && (forall k :: 0 <= k < |tasks| && k != idx ==> stored[k] == tasks[k])
      && t.id == orig.id == id && t.createdAt == orig.createdAt && t.updatedAt == now
      && t.title == (if body.title.Str? then Trim(body.title.value) else orig.title)
      && t.description == (if body.description.Str? then Trim(body.description.value) else orig.description)
      && t.status == (if body.status.Str? then NormalizeStatus(body.status.value) else orig.status)
  {
  }

  /** A patch keeps the collection valid. */
  lemma PatchKeepsValid(tasks: seq<Task>, id: string, body: PatchBody, now: string)
    requires ValidCollection(tasks)
    ensures ValidCollection(Persisted(tasks, PatchOutcome(tasks, id, body, now).persist))
  {
    var out := PatchOutcome(tasks, id, body, now);
    if out.persist.Written? {
      var idx := FindIndex(tasks, id);
      var s := out.persist.tasks;
      forall i, j | 0 <= i < j < |s| ensures s[i].id != s[j].id {
        assert s[i].id == tasks[i].id && s[j].id == tasks[j].id;
      }
    }
  }

  // ---- DELETE /api/tasks/:id ----

  /** The outcome of `DELETE /api/tasks/:id` on the stored collection `tasks`. */
  function DeleteOutcome(tasks: seq<Task>, id: string): (out: Outcome)
    ensures out.persist.Written? <==> out.response.NoContent?
    ensures out.persist.Written? ==> |out.persist.tasks| < |tasks|
  {
    WithoutIdSpec(tasks, id);
    if !HasId(tasks, id) then Outcome(NotFound(TaskNotFound), Unwritten)
    else Outcome(NoContent, Written(WithoutId(tasks, id)))
  }

  /** A delete answers 404 without a write exactly when no task has the id;
      otherwise it writes the collection without every task of that id,
      keeping all others. */
  lemma DeleteRemovesId(tasks: seq<Task>, id: string)
    ensures var out := DeleteOutcome(tasks, id);
      (out.response == NotFound(TaskNotFound) <==> !HasId(tasks, id))
      && (out.persist.Unwritten? <==> !HasId(tasks, id))
      && !HasId(Persisted(tasks, out.persist), id)
      && forall t :: t in Persisted(tasks, out.persist) <==> t in tasks && t.id != id
  {
    WithoutIdSpec(tasks, id);
    if !HasId(tasks, id) {
      FilterKeepsAllIff(tasks, (t: Task) => t.id != id);
    }
  }

  /** Deleting the same id twice: the second delete answers 404. */
  lemma DeleteTwiceNotFound(tasks: seq<Task>, id: string)
    ensures var first := DeleteOutcome(tasks, id);
      DeleteOutcome(Persisted(tasks, first.persist), id).response == NotFound(TaskNotFound)
  {
    DeleteRemovesId(tasks, id);
  }

  /** A delete keeps the collection valid. */
  lemma DeleteKeepsValid(tasks: seq<Task>, id: string)
    requires ValidCollection(tasks)
    ensures ValidCollection(Persisted(tasks, DeleteOutcome(tasks, id).persist))
  {
    var keep := (t: Task) => t.id != id;
    FilterUniqueIds(tasks, keep);
    var s := Filter(tasks, keep);
    forall i | 0 <= i < |s| ensures WellFormed(s[i]) {
      assert s[i] in tasks;
    }
  }

  // ---- the store and the handlers over it ----

  /** A handler that started from the stored collection `before` answered
      `r`, called `db.write()` exactly when `wrote`, and left `after` stored:
      just as the outcome `out` says. */
  predicate HandledAs(out: Outcome, before: seq<Task>, r: Response, wrote: bool, after: seq<Task>) {
    r == out.response && wrote == out.persist.Written? && after == Persisted(before, out.persist)
  }

  /** The `tasks` array of the JSON document on disk. Every request loads
      it afresh and only `Write` (`db.write()`) changes it. */
  class Store {
    var tasks: seq<Task>

    /** A document created on first run holds no tasks. */
    constructor ()
      ensures tasks == []
    {
      tasks := [];
    }

    method Write(data: seq<Task>)
      modifies this
      ensures tasks == data
    {
      tasks := data;
    }
  }

  /** `GET /api/tasks`: loads the collection, sorts the loaded copy in
      place, newest first, and answers with it; nothing is written, so the
      store is untouched. */
  method ListTasks(store: Store) returns (r: Response)
    ensures r.TaskList?
    ensures NewestFirst(r.tasks)
    ensures multiset(r.tasks) == multiset(store.tasks)
  {
    var data := store.tasks;
    var a := new Task[|data|](i requires 0 <= i < |data| => data[i]);
    assert a[..] == data;
    SortNewestFirst(a);
    r := TaskList(a[..]);
  }

  /** `POST /api/tasks`. */
  method CreateTask(store: Store, body: CreateBody, id: string, now: string) returns (r: Response, wrote: bool)
    modifies store
    ensures HandledAs(CreateOutcome(old(store.tasks), body, id, now), old(store.tasks), r, wrote, store.tasks)
  {
    if !body.title.Str? || Trim(body.title.value) == "" {
      return BadRequest(TitleRequired), false;
    }
    var description := if body.description.Str? then Trim(body.description.value) else "";
    var task := Task(id, Trim(body.title.value), description, Todo, now, now);
    var data := store.tasks;
    data := data + [task];
    store.Write(data);
    wrote := true;
    r := Created(task);
  }

  /** `PATCH /api/tasks/:id`: assigns the fields of the loaded copy one by
      one and returns early on the first bad field; the fields assigned
      before such a return are never written. */
  method PatchTask(store: Store, id: string, body: PatchBody, now: string) returns (r: Response, wrote: bool)
    modifies store
    ensures HandledAs(PatchOutcome(old(store.tasks), id, body, now), old(store.tasks), r, wrote, store.tasks)
  {
    var tasks := store.tasks;
    var idx := FindIndex(tasks, id);
    if idx == -1 {
      return NotFound(TaskNotFound), false;
    }
    var task := tasks[idx];
    if !body.title.Absent? {
      if !body.title.Str? || Trim(body.title.value) == "" {
        return BadRequest(TitleNotEmpty), false;
      }
      task := task.(title := Trim(body.title.value));
    }
    if !body.description.Absent? {
      if !body.description.Str? {
        return BadRequest(DescriptionNotString), false;
      }
      task := task.(description := Trim(body.description.value));
    }
    if !body.status.Absent? {
      if !body.status.Str? {
        return BadRequest(StatusNotString), false;
      }
      task := task.(status := NormalizeStatus(body.status.value));
    }
    task := task.(updatedAt := now);
    assert task == ApplyEdit(tasks[idx], ValidatePatch(body).edit, now);
    tasks := tasks[idx := task];
    store.Write(tasks);
    wrote := true;
    r := Updated(tasks[idx]);
  }

  /** `DELETE /api/tasks/:id`: filters the loaded copy and detects a missing
      id by the unchanged length. */
  method DeleteTask(store: Store, id: string) returns (r: Response, wrote: bool)
    modifies store
    ensures HandledAs(DeleteOutcome(old(store.tasks), id), old(store.tasks), r, wrote, store.tasks)
  {
    var tasks := store.tasks;
    var before := |tasks|;
    var data := WithoutId(tasks, id);
    WithoutIdSpec(tasks, id);
    if |data| == before {
      return NotFound(TaskNotFound), false;
    }
    store.Write(data);
    wrote := true;
    r := NoContent;
  }
}
