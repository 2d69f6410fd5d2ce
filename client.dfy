/**
  The browser client's view of the board: the text a card shows, the
  grouping of the task list into the three status columns with their
  counts, and the updates the client applies to its copy of the list after
  each successful request.
 */
module Client {
  import opened Strings
  import opened Tasks
  import opened HtmlEscape
  import Server
  import Recency

  // ---- cardTemplate ----

  /** The badge of a card: any status other than `todo` and `in_progress`
      is labelled "Done". */
  function StatusLabel(status: string): (badge: string)
    ensures badge == "To Do" <==> status == Todo
    ensures badge == "In Progress" <==> status == InProgress
    ensures badge == "Done" <==> status != Todo && status != InProgress
  {
    if status == Todo then "To Do" else if status == InProgress then "In Progress" else "Done"
  }

  /** The description a card shows: the trimmed description, or
      "No description" when nothing but whitespace is left. */
  function ShownDescription(description: string): (shown: string)
    ensures AllSpace(description) ==> shown == "No description"
    ensures !AllSpace(description) ==> shown == Trim(description)
    ensures shown != [] && IsTrimmed(shown)
  {
    TrimEmptyIffAllSpace(description);
    if Trim(description) != [] then Trim(description) else "No description"
  }

  /** The texts a card interpolates into its markup, each passed through
      `escapeHtml` (the date badge is not part of this model). */
  datatype Card = Card(id: string, title: string, description: string, badge: string)

  /** No field of a card can open or close a tag or an attribute, each
      decodes back to the text it shows, and a status label needs no
      escaping at all. */
  function CardTemplate(t: Task): (c: Card)
    ensures NoMarkup(c.id) && NoMarkup(c.title) && NoMarkup(c.description) && NoMarkup(c.badge)
    ensures UnescapeHtml(c.id) == t.id && UnescapeHtml(c.title) == t.title
    ensures UnescapeHtml(c.description) == ShownDescription(t.description)
    ensures c.badge == StatusLabel(t.status)
  {
    var description := ShownDescription(t.description);
    var badge := StatusLabel(t.status);
    EscapeHtmlHasNoMarkup(t.id);
    EscapeHtmlHasNoMarkup(t.title);
    EscapeHtmlHasNoMarkup(description);
    UnescapeEscapeHtml(t.id);
    UnescapeEscapeHtml(t.title);
    UnescapeEscapeHtml(description);
    LabelIsPlainText(t.status);
    EscapeHtmlHasNoMarkup(badge);
    Card(EscapeHtml(t.id), EscapeHtml(t.title), EscapeHtml(description), EscapeHtml(badge))
  }

  lemma LabelIsPlainText(status: string)
    ensures EscapeHtml(StatusLabel(status)) == StatusLabel(status)
  {
    var badge := StatusLabel(status);
    assert forall i :: 0 <= i < |badge| ==> !IsSpecial(badge[i]);
    EscapeHtmlPlainText(badge);
  }

  // ---- render ----

  /** The tasks of one status, in list order. */
  function WithStatus(tasks: seq<Task>, status: string): (group: seq<Task>)
    ensures |group| <= |tasks|
    ensures forall t :: t in group <==> t in tasks && t.status == status
  {
    Filter(tasks, (t: Task) => t.status == status)
  }

  /** The tasks whose status is none of the three columns. */
  function Unshown(tasks: seq<Task>): seq<Task> {
    Filter(tasks, (t: Task) => !IsStatus(t.status))
  }

  /** A column: its cards and the number shown in its header. */
  datatype Column = Column(cards: seq<Card>, count: nat)

  datatype Board = Board(todo: Column, inProgress: Column, done: Column)

  /** The column for a group: one card per task, in order, and the count
      of the group. */
  function ColumnOf(group: seq<Task>): (col: Column)
  {
    Column(seq(|group|, i requires 0 <= i < |group| => CardTemplate(group[i])), |group|)
  }

  /** The board `render` draws for a task list. */
  function BoardOf(tasks: seq<Task>): (b: Board)
    ensures b.todo.count + b.inProgress.count + b.done.count <= |tasks|
  {
    GroupsPartition(tasks);
    Board(ColumnOf(WithStatus(tasks, Todo)), ColumnOf(WithStatus(tasks, InProgress)),
          ColumnOf(WithStatus(tasks, Done)))
  }

  /** Appending a task adds it to the end of its own group only. */
  lemma WithStatusSnoc(s: seq<Task>, t: Task, status: string)
    ensures WithStatus(s + [t], status) == WithStatus(s, status) + (if t.status == status then [t] else [])
  {
    FilterConcat(s, [t], (x: Task) => x.status == status);
    assert [t][1..] == [];
  }

  /** A task is in a group exactly when it is in the list with that
      group's status: each task of one of the three statuses is in exactly
      one group, and a task of any other status in none. */
  lemma GroupMembership(tasks: seq<Task>, t: Task)
    ensures t in WithStatus(tasks, Todo) <==> t in tasks && t.status == Todo
    ensures t in WithStatus(tasks, InProgress) <==> t in tasks && t.status == InProgress
    ensures t in WithStatus(tasks, Done) <==> t in tasks && t.status == Done
    ensures t in Unshown(tasks) <==> t in tasks && !IsStatus(t.status)
  {
  }

  /** Grouping keeps the list order: the groups of a concatenation are the
      concatenations of the groups. */
  lemma WithStatusConcat(a: seq<Task>, b: seq<Task>, status: string)
    ensures WithStatus(a + b, status) == WithStatus(a, status) + WithStatus(b, status)
  {
    FilterConcat(a, b, (t: Task) => t.status == status);
  }

  /** The three groups and the unshown tasks split the list: their sizes
      add up to its length. */
  lemma {:induction false} GroupsPartition(tasks: seq<Task>)
    ensures |WithStatus(tasks, Todo)| + |WithStatus(tasks, InProgress)| + |WithStatus(tasks, Done)|
            + |Unshown(tasks)| == |tasks|
  {
    if tasks != [] {
      GroupsPartition(tasks[1..]);
    }
  }

  /** When every task has one of the three statuses, the column counts add
      up to the number of tasks. */
  lemma BoardCountsAll(tasks: seq<Task>)
    requires forall i :: 0 <= i < |tasks| ==> IsStatus(tasks[i].status)
    ensures var b := BoardOf(tasks); b.todo.count + b.inProgress.count + b.done.count == |tasks|
  {
    GroupsPartition(tasks);
    NothingUnshown(tasks);
  }

  lemma {:induction false} NothingUnshown(tasks: seq<Task>)
    requires forall i :: 0 <= i < |tasks| ==> IsStatus(tasks[i].status)
    ensures Unshown(tasks) == []
  {
    if tasks != [] {
      assert forall i :: 0 <= i < |tasks[1..]| ==> tasks[1..][i] == tasks[i + 1];
      NothingUnshown(tasks[1..]);
    }
  }

  /** The names `{ todo: [], in_progress: [], done: [] }` inherits from
      `Object.prototype`. Each of them names a function, or for `__proto__`
      an object, that has no `push` method. */
  const PrototypeNames: set<string> := {
    "constructor", "hasOwnProperty", "isPrototypeOf", "propertyIsEnumerable",
    "toString", "toLocaleString", "valueOf", "__proto__",
    "__defineGetter__", "__defineSetter__", "__lookupGetter__", "__lookupSetter__"}

  /** What `groups[t.status]?.push(t)` does with one task. */
  datatype Slot = Group(key: string) | Skipped | Throws

  /** As written: a status with a group pushes into it, an unknown status
      gives `undefined` and `?.` skips the push, and a prototype name gives
      a value whose `push` is `undefined`, and calling it throws a
      `TypeError`. */
  function SlotAsWritten(status: string): (s: Slot)
    ensures s.Group? <==> IsStatus(status)
    ensures s.Throws? <==> status in PrototypeNames
  {
    if IsStatus(status) then Group(status)
    else if status in PrototypeNames then Throws
    else Skipped
  }

  /** `render` as written: the board, or `None` when the grouping loop
      throws before any column is drawn. */
  function RenderAsWritten(tasks: seq<Task>): (r: Option<Board>)
    ensures r.None? <==> exists i :: 0 <= i < |tasks| && tasks[i].status in PrototypeNames
    ensures r.Some? ==> r.value == BoardOf(tasks)
  {
    if exists i :: 0 <= i < |tasks| && SlotAsWritten(tasks[i].status).Throws? then None
    else Some(BoardOf(tasks))
  }

  /** A task whose status is `toString` is meant to land in no column, but
      the grouping loop throws on it and the board is not drawn. */
  lemma RenderThrowsOnPrototypeName(t: Task)
    requires t.status == "toString"
    ensures RenderAsWritten([t]).None?
    ensures BoardOf([t]) == Board(Column([], 0), Column([], 0), Column([], 0))
  {
    assert SlotAsWritten([t][0].status).Throws?;
    assert [t][1..] == [];
  }

  // ---- the client's task list ----

  /** `tasks.map(t => t.id === id ? task : t)`: every task with the id is
      replaced by `task`, all others stay where they are. */
  function ReplaceById(s: seq<Task>, id: string, task: Task): (r: seq<Task>)
    ensures |r| == |s|
    ensures forall i :: 0 <= i < |s| ==> r[i] == if s[i].id == id then task else s[i]
  {
    if s == [] then [] else [if s[0].id == id then task else s[0]] + ReplaceById(s[1..], id, task)
  }

  lemma {:induction false} ReplaceByIdConcat(a: seq<Task>, b: seq<Task>, id: string, task: Task)
    ensures ReplaceById(a + b, id, task) == ReplaceById(a, id, task) + ReplaceById(b, id, task)
  {
    if a == [] {
      assert a + b == b;
    } else {
      assert (a + b)[1..] == a[1..] + b;
      ReplaceByIdConcat(a[1..], b, id, task);
    }
  }

  /** Replacing by id respects permutations: lists holding the same
      tasks, in any order, hold the same tasks after the replacement. */
  lemma {:induction false} ReplaceByIdPermutation(a: seq<Task>, b: seq<Task>, id: string, task: Task)
    requires multiset(a) == multiset(b)
    ensures multiset(ReplaceById(a, id, task)) == multiset(ReplaceById(b, id, task))
    decreases |a|
  {
    if a == [] {
      assert |b| == |multiset(b)| == 0;
    } else {
      var x := a[0];
      assert x in multiset(b);
      var k :| 0 <= k < |b| && b[k] == x;
      var front, back := b[..k], b[k + 1..];
      assert b == front + ([x] + back);
      assert a == [x] + a[1..];
      PermutationRest(a, b, k);
      ReplaceByIdPermutation(a[1..], front + back, id, task);
      ReplaceByIdConcat([x], a[1..], id, task);
      ReplaceByIdConcat(front, [x] + back, id, task);
      ReplaceByIdConcat([x], back, id, task);
      ReplaceByIdConcat(front, back, id, task);
      var rx, rf, rb := ReplaceById([x], id, task), ReplaceById(front, id, task), ReplaceById(back, id, task);
      assert ReplaceById(a, id, task) == rx + ReplaceById(a[1..], id, task);
      assert ReplaceById(b, id, task) == rf + (rx + rb);
      assert multiset(ReplaceById(a[1..], id, task)) == multiset(rf) + multiset(rb);
      UnionMoves(multiset(rx), multiset(rf), multiset(rb));
    }
  }

  /** With unique ids, replacing by id the task the server returned for a
      successful patch gives exactly the collection the server wrote. */
  lemma PatchIsReplaceById(stored: seq<Task>, id: string, body: Server.PatchBody, now: string)
    requires UniqueIds(stored)
    requires Server.PatchOutcome(stored, id, body, now).response.Updated?
    ensures var out := Server.PatchOutcome(stored, id, body, now);
      ReplaceById(stored, id, out.response.task) == out.persist.tasks
  {
    var out := Server.PatchOutcome(stored, id, body, now);
    var idx := Server.FindIndex(stored, id);
    var r := ReplaceById(stored, id, out.response.task);
    forall k | 0 <= k < |stored| ensures r[k] == out.persist.tasks[k] {
      if k != idx {
        assert stored[k].id != id;
      }
    }
  }

  /** The client's list holds the stored tasks in its own order: newest
      first after a load, created tasks in front. */
  predicate InStep(client: seq<Task>, stored: seq<Task>) {
    multiset(client) == multiset(stored)
  }

  /** A client list in step with a store with unique ids stays in step
      after a successful patch, whatever its order. */
  lemma ClientMirrorsPatch(client: seq<Task>, stored: seq<Task>, id: string, body: Server.PatchBody, now: string)
    requires InStep(client, stored) && UniqueIds(stored)
    requires Server.PatchOutcome(stored, id, body, now).response.Updated?
    ensures var out := Server.PatchOutcome(stored, id, body, now);
      InStep(ReplaceById(client, id, out.response.task), out.persist.tasks)
  {
    var out := Server.PatchOutcome(stored, id, body, now);
    PatchIsReplaceById(stored, id, body, now);
    ReplaceByIdPermutation(client, stored, id, out.response.task);
  }

  /** A client list in step with the store stays in step after a
      successful delete, and no longer holds the id. */
  lemma ClientMirrorsDelete(client: seq<Task>, stored: seq<Task>, id: string)
    requires InStep(client, stored)
    requires Server.DeleteOutcome(stored, id).response.NoContent?
    ensures InStep(WithoutId(client, id), Server.DeleteOutcome(stored, id).persist.tasks)
    ensures !HasId(WithoutId(client, id), id)
  {
    WithoutIdSpec(client, id);
    FilterPermutation(client, stored, (t: Task) => t.id != id);
  }

  /** The client puts a created task at the front, the server at the end;
      a client list in step with the store stays in step. */
  lemma ClientMirrorsCreate(client: seq<Task>, stored: seq<Task>, body: Server.CreateBody, id: string, now: string)
    requires InStep(client, stored)
    requires Server.CreateOutcome(stored, body, id, now).response.Created?
    ensures var out := Server.CreateOutcome(stored, body, id, now);
      InStep([out.response.task] + client, out.persist.tasks)
  {
    Server.CreateStoresNewTask(stored, body, id, now);
  }

  /** A client list loaded from the answer of `GET /api/tasks` is in step
      with the store and newest first. */
  method LoadInStep(store: Server.Store, state: ClientState) returns (board: Board)
    modifies state
    ensures InStep(state.tasks, store.tasks)
    ensures Recency.NewestFirst(state.tasks)
  {
    var r := Server.ListTasks(store);
    board := state.Load(Some(r.tasks));
  }

  /** A created task shows as the first card of its column; the other
      columns do not change. */
  lemma CreatedTaskFirst(tasks: seq<Task>, t: Task, status: string)
    ensures WithStatus([t] + tasks, status)
            == (if t.status == status then [t] else []) + WithStatus(tasks, status)
  {
    WithStatusConcat([t], tasks, status);
    assert [t][1..] == [];
  }

  /** `state`: the client's copy of the task list, redrawn after every
      change. */
  class ClientState {
    var tasks: seq<Task>

    constructor ()
      ensures tasks == []
    {
      tasks := [];
    }

    /** `render`, with a task whose status names no column skipped. */
    method Render() returns (board: Board)
      ensures board == BoardOf(tasks)
    {
      var todo, inProgress, done := [], [], [];
      for i := 0 to |tasks|
        invariant todo == WithStatus(tasks[..i], Todo)
        invariant inProgress == WithStatus(tasks[..i], InProgress)
        invariant done == WithStatus(tasks[..i], Done)
      {
        var t := tasks[i];
        assert tasks[..i + 1] == tasks[..i] + [t];
        WithStatusSnoc(tasks[..i], t, Todo);
        WithStatusSnoc(tasks[..i], t, InProgress);
        WithStatusSnoc(tasks[..i], t, Done);
        if t.status == Todo {
          todo := todo + [t];
        } else if t.status == InProgress {
          inProgress := inProgress + [t];
        } else if t.status == Done {
          done := done + [t];
        }
      }
      assert tasks[..|tasks|] == tasks;
      board := Board(ColumnOf(todo), ColumnOf(inProgress), ColumnOf(done));
    }

    /** `load`: takes the list the server answered, or an empty one when the
        answer has no `tasks`, and redraws. */
    method Load(data: Option<seq<Task>>) returns (board: Board)
      modifies this
      ensures tasks == (if data.Some? then data.value else [])
      ensures board == BoardOf(tasks)
    {
      tasks := data.GetOr([]);
      board := Render();
    }

    /** `createTask`: the created task goes in front of the others. */
    method AfterCreate(task: Task) returns (board: Board)
      modifies this
      ensures tasks == [task] + old(tasks)
      ensures board == BoardOf(tasks)
    {
      tasks := [task] + tasks;
      board := Render();
    }

    /** `updateTask`: the returned task replaces every task with the id. */
    method AfterUpdate(id: string, task: Task) returns (board: Board)
      modifies this
      ensures tasks == ReplaceById(old(tasks), id, task)
      ensures board == BoardOf(tasks)
    {
      tasks := ReplaceById(tasks, id, task);
      board := Render();
    }

    /** `deleteTask`: every task with the id is dropped, the others keep
        their order. */
    method AfterDelete(id: string) returns (board: Board)
      modifies this
      ensures tasks == WithoutId(old(tasks), id)
      ensures board == BoardOf(tasks)
    {
      tasks := WithoutId(tasks, id);
      board := Render();
    }
  }
}
