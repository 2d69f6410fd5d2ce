/**
  The task record shared by the server and the browser client, and the
  order-preserving filter both sides use to drop a task by id.
 */
module Tasks {

  /** A task as stored in the JSON document and sent over the API.
      `updatedAt == ""` stands for a missing (falsy) `updatedAt`. */
  datatype Task = Task(
    id: string,
    title: string,
    description: string,
    status: string,
    createdAt: string,
    updatedAt: string)

  /** A value that may be missing: an optional field, or a JSON answer
      that may lack its payload. */
  datatype Option<T> = None | Some(value: T) {
    function GetOr(default: T): T {
      if Some? then value else default
    }
  }

  const Todo: string := "todo"
  const InProgress: string := "in_progress"
  const Done: string := "done"

  /** The three statuses the board knows. */
  predicate IsStatus(s: string) {
    s == Todo || s == InProgress || s == Done
  }

  /** `Array.prototype.filter`: the elements satisfying `keep`, in order. */
  function Filter(s: seq<Task>, keep: Task -> bool): (r: seq<Task>)
    ensures |r| <= |s|
    ensures forall x :: x in r <==> x in s && keep(x)
  {
    if s == [] then [] else (if keep(s[0]) then [s[0]] else []) + Filter(s[1..], keep)
  }

  /** Filtering a concatenation filters each part: the kept elements stay
      in their original relative order. */
  lemma {:induction false} FilterConcat(a: seq<Task>, b: seq<Task>, keep: Task -> bool)
    ensures Filter(a + b, keep) == Filter(a, keep) + Filter(b, keep)
  {
    if a == [] {
      assert a + b == b;
    } else {
      assert (a + b)[1..] == a[1..] + b;
      FilterConcat(a[1..], b, keep);
    }
  }

  /** Taking the first task off one list and the same task off another
      list holding the same tasks leaves lists holding the same tasks. */
  lemma PermutationRest(a: seq<Task>, b: seq<Task>, k: nat)
    requires multiset(a) == multiset(b) && a != [] && k < |b| && b[k] == a[0]
    ensures multiset(a[1..]) == multiset(b[..k] + b[k + 1..])
  {
    var x, front, back := a[0], b[..k], b[k + 1..];
    assert b == front + ([x] + back);
    assert a == [x] + a[1..];
    assert multiset(a) - multiset{x} == multiset(a[1..]);
    assert multiset(b) - multiset{x} == multiset(front + back);
  }

  lemma UnionMoves(x: multiset<Task>, f: multiset<Task>, b: multiset<Task>)
    ensures x + (f + b) == f + (x + b)
  {
  }

  /** Filtering respects permutations: lists holding the same tasks, in
      any order, keep the same tasks. */
  lemma {:induction false} FilterPermutation(a: seq<Task>, b: seq<Task>, keep: Task -> bool)
    requires multiset(a) == multiset(b)
    ensures multiset(Filter(a, keep)) == multiset(Filter(b, keep))
    decreases |a|
  {
    if a == [] {
      assert |b| == |multiset(b)| == 0;
    } else {
      var x := a[0];
      assert x in multiset(b);
      var k :| 0 <= k < |b| && b[k] == x;
      var front, back := b[..k], b[k + 1..];
      assert b == front + ([x] + back);
      assert a == [x] + a[1..];
      PermutationRest(a, b, k);
      FilterPermutation(a[1..], front + back, keep);
      FilterConcat([x], a[1..], keep);
      FilterConcat(front, [x] + back, keep);
      FilterConcat([x], back, keep);
      FilterConcat(front, back, keep);
      UnionMoves(multiset(Filter([x], keep)), multiset(Filter(front, keep)), multiset(Filter(back, keep)));
    }
  }

  /** The filter drops nothing exactly when every element is kept, and then
      it returns its input. */
  lemma {:induction false} FilterKeepsAllIff(s: seq<Task>, keep: Task -> bool)
    ensures |Filter(s, keep)| == |s| <==> forall i :: 0 <= i < |s| ==> keep(s[i])
    ensures (forall i :: 0 <= i < |s| ==> keep(s[i])) ==> Filter(s, keep) == s
  {
    if s != [] {
      FilterKeepsAllIff(s[1..], keep);
      if !keep(s[0]) {
        assert |Filter(s, keep)| == |Filter(s[1..], keep)|;
      } else {
        assert forall i :: 1 <= i < |s| ==> s[i] == s[1..][i - 1];
      }
    }
  }

  predicate UniqueIds(s: seq<Task>) {
    forall i, j :: 0 <= i < j < |s| ==> s[i].id != s[j].id
  }

  predicate HasId(s: seq<Task>, id: string) {
    exists i :: 0 <= i < |s| && s[i].id == id
  }

  /** `tasks.filter(t => t.id !== id)`. */
  function WithoutId(s: seq<Task>, id: string): (r: seq<Task>)
    ensures |r| <= |s|
    ensures forall t :: t in r <==> t in s && t.id != id
  {
    Filter(s, (t: Task) => t.id != id)
  }

  /** Removing an id removes every task with that id and keeps every other
      task; it shortens the collection exactly when the id was present. */
  lemma WithoutIdSpec(s: seq<Task>, id: string)
    ensures forall t :: t in WithoutId(s, id) <==> t in s && t.id != id
    ensures !HasId(WithoutId(s, id), id)
    ensures |WithoutId(s, id)| == |s| <==> !HasId(s, id)
  {
    FilterKeepsAllIff(s, (t: Task) => t.id != id);
  }

  /** Removing an id keeps the others in order: it distributes over `+`. */
  lemma WithoutIdConcat(a: seq<Task>, b: seq<Task>, id: string)
    ensures WithoutId(a + b, id) == WithoutId(a, id) + WithoutId(b, id)
  {
    FilterConcat(a, b, (t: Task) => t.id != id);
  }

  /** Removing an id a second time changes nothing. */
  lemma WithoutIdIdempotent(s: seq<Task>, id: string)
    ensures WithoutId(WithoutId(s, id), id) == WithoutId(s, id)
  {
    WithoutIdSpec(s, id);
    FilterKeepsAllIff(WithoutId(s, id), (t: Task) => t.id != id);
  }

  /** A filter of a collection with unique ids has unique ids. */
  lemma {:induction false} FilterUniqueIds(s: seq<Task>, keep: Task -> bool)
    requires UniqueIds(s)
    ensures UniqueIds(Filter(s, keep))
  {
    if s != [] {
      assert UniqueIds(s[1..]) by {
        forall i, j | 0 <= i < j < |s[1..]| ensures s[1..][i].id != s[1..][j].id {
          assert s[1..][i] == s[i + 1] && s[1..][j] == s[j + 1];
        }
      }
      FilterUniqueIds(s[1..], keep);
      var rest := Filter(s[1..], keep);
      if keep(s[0]) {
        var r := [s[0]] + rest;
        forall i, j | 0 <= i < j < |r| ensures r[i].id != r[j].id {
          if i == 0 {
            assert r[j] == rest[j - 1] && rest[j - 1] in s[1..];
            var k :| 0 <= k < |s[1..]| && s[1..][k] == rest[j - 1];
            assert s[k + 1] == rest[j - 1];
          } else {
            assert r[i] == rest[i - 1] && r[j] == rest[j - 1];
          }
        }
      }
    }
  }
}
