/**
  The order in which `GET /api/tasks` returns the collection: most recently
  touched first, by the key `updatedAt || createdAt`.
 */
module Recency {
  import opened Strings
  import opened Tasks

  /** `t.updatedAt || t.createdAt`. */
  function SortKey(t: Task): string
  {
    if t.updatedAt != "" then t.updatedAt else t.createdAt
  }

  /** `a` comes no later than `b` in the listing order: its key is not older. */
  predicate NoOlder(a: Task, b: Task) {
    StrLe(SortKey(b), SortKey(a))
  }

  /** The listing order: keys never increase from front to back. */
  predicate NewestFirst(s: seq<Task>) {
    forall i, j :: 0 <= i < j < |s| ==> NoOlder(s[i], s[j])
  }

  /** The two neighbours that meet at `k` are in listing order. */
  predicate InOrderAt(s: seq<Task>, k: int) {
    0 < k < |s| && NoOlder(s[k - 1], s[k])
  }

  /** Neighbours are in listing order. */
  predicate NeighboursNewestFirst(s: seq<Task>) {
    forall k :: 0 < k < |s| ==> InOrderAt(s, k)
  }

  /** Ordered neighbours give an ordered sequence, since `StrLe` is transitive. */
  lemma {:induction false} NeighboursGiveNewestFirst(s: seq<Task>)
    requires NeighboursNewestFirst(s)
    ensures NewestFirst(s)
  {
    if |s| > 1 {
      var t := s[1..];
      assert NeighboursNewestFirst(t) by {
        forall k | 0 < k < |t| ensures InOrderAt(t, k) {
          assert InOrderAt(s, k + 1);
          assert t[k - 1] == s[k] && t[k] == s[k + 1];
        }
      }
      NeighboursGiveNewestFirst(t);
      forall i, j | 0 <= i < j < |s| ensures NoOlder(s[i], s[j]) {
        assert InOrderAt(s, 1);
        if i == 0 && j > 1 {
          assert NoOlder(s[1], s[j]) by { assert s[1] == t[0] && s[j] == t[j - 1]; }
          StrLeTransitive(SortKey(s[j]), SortKey(s[1]), SortKey(s[0]));
        } else if i > 0 {
          assert s[i] == t[i - 1] && s[j] == t[j - 1];
        }
      }
    }
  }

  /** `tasks.sort((a, b) => key(b).localeCompare(key(a)))`, in place. The
      engine's sort algorithm is not modelled; this insertion sort has the
      same contract: the array ends newest first and holds the same tasks. */
  method SortNewestFirst(a: array<Task>)
    modifies a
    ensures NewestFirst(a[..])
    ensures multiset(a[..]) == multiset(old(a[..]))
  {
    var i := 0;
    while i < a.Length
      invariant 0 <= i <= a.Length
      invariant NeighboursNewestFirst(a[..i])
      invariant multiset(a[..]) == multiset(old(a[..]))
    {
      Insert(a, i);
      i := i + 1;
    }
    assert a[..a.Length] == a[..];
    NeighboursGiveNewestFirst(a[..]);
  }

  /** One insertion step: moves `a[i]` towards the front past every older
      task, so that `a[..i + 1]` holds the tasks it held before, now in
      listing order, and the rest of the array is untouched. */
  method Insert(a: array<Task>, i: nat)
    requires i < a.Length
    requires NeighboursNewestFirst(a[..i])
    modifies a
    ensures NeighboursNewestFirst(a[..i + 1])
    ensures multiset(a[..i + 1]) == multiset(old(a[..i + 1]))
    ensures a[i + 1..] == old(a[i + 1..])
    ensures multiset(a[..]) == multiset(old(a[..]))
  {
    InsertStart(a[..], i);
    var j := Sink(a, i, a[..]);
    InsertDone(a[..], old(a[..]), i, j);
  }

  /** The loop of an insertion step: swaps the moving task forward while the
      task before it is older, and returns where it stopped. */
  method Sink(a: array<Task>, i: nat, ghost o: seq<Task>) returns (j: nat)
    requires InsertState(a[..], o, i, i)
    modifies a
    ensures j <= i && InsertState(a[..], o, i, j)
    ensures j == 0 || !StrLess(SortKey(a[j - 1]), SortKey(a[j]))
  {
    j := i;
    while j > 0 && StrLess(SortKey(a[j - 1]), SortKey(a[j]))
      invariant 0 <= j <= i
      invariant InsertState(a[..], o, i, j)
    {
      ghost var before := a[..];
      Swap(a, j - 1);
      InsertStateStep(before, a[..], o, i, j);
      j := j - 1;
    }
  }

  /** Two sequences whose prefixes hold the same elements and whose rests are
      equal hold the same elements. */
  lemma PrefixAndRest(s: seq<Task>, t: seq<Task>, n: nat)
    requires n <= |s| && n <= |t|
    requires multiset(s[..n]) == multiset(t[..n]) && s[n..] == t[n..]
    ensures multiset(s) == multiset(t)
  {
    assert s == s[..n] + s[n..];
    assert t == t[..n] + t[n..];
  }

  /** Exchanges two neighbours. */
  method Swap(a: array<Task>, j: nat)
    requires j + 1 < a.Length
    modifies a
    ensures a[..] == old(a[..])[j := old(a[j + 1])][j + 1 := old(a[j])]
    ensures multiset(a[..]) == multiset(old(a[..]))
  {
    a[j], a[j + 1] := a[j + 1], a[j];
  }

  /** The state of an insertion step that is moving the task now at `j`
      (which started at `i`) towards the front: every pair of neighbours up
      to `i` is in order except the pair ending at `j`, and the task before
      `j` is no older than the one after it. */
  ghost predicate Inserting(s: seq<Task>, i: nat, j: nat) {
    && j <= i < |s|
    && (forall k :: 0 < k <= i && k != j ==> InOrderAt(s, k))
    && (0 < j < i ==> NoOlder(s[j - 1], s[j + 1]))
  }

  lemma InsertStart(s: seq<Task>, i: nat)
    requires i < |s| && NeighboursNewestFirst(s[..i])
    ensures InsertState(s, s, i, i)
  {
    forall k | 0 < k < i ensures InOrderAt(s, k) {
      assert InOrderAt(s[..i], k);
      assert s[k - 1] == s[..i][k - 1] && s[k] == s[..i][k];
    }
  }

  /** The whole state of an insertion step on `s`, which started as `o`:
      the step's ordering state, the tasks of the prefix as they were, and
      the rest as it was. */
  ghost predicate InsertState(s: seq<Task>, o: seq<Task>, i: nat, j: nat) {
    && Inserting(s, i, j) && i < |o|
    && multiset(s[..i + 1]) == multiset(o[..i + 1]) && s[i + 1..] == o[i + 1..]
  }

  /** One swap of the loop keeps the whole state of the step. */
  lemma InsertStateStep(s: seq<Task>, t: seq<Task>, o: seq<Task>, i: nat, j: nat)
    requires InsertState(s, o, i, j) && 0 < j && StrLess(SortKey(s[j - 1]), SortKey(s[j]))
    requires t == s[j - 1 := s[j]][j := s[j - 1]]
    ensures InsertState(t, o, i, j - 1)
  {
    InsertStep(s, i, j);
    SwapInPrefix(s, t, o, i, j);
  }

  /** Moving the task at `j` one place forward, past an older task, keeps
      the step's state. */
  lemma InsertStep(s: seq<Task>, i: nat, j: nat)
    requires Inserting(s, i, j) && 0 < j && StrLess(SortKey(s[j - 1]), SortKey(s[j]))
    ensures Inserting(s[j - 1 := s[j]][j := s[j - 1]], i, j - 1)
  {
    var t := s[j - 1 := s[j]][j := s[j - 1]];
    forall k | 0 < k <= i && k != j - 1 ensures InOrderAt(t, k) {
      if k == j {
        StrLessAsymmetric(SortKey(s[j - 1]), SortKey(s[j]));
      } else if k != j + 1 {
        assert InOrderAt(s, k);
      }
    }
    if 0 < j - 1 {
      assert InOrderAt(s, j - 1);
    }
  }

  /** Exchanging two neighbours inside `s[..i + 1]` keeps the tasks of that
      prefix and leaves the rest alone, so `t` still agrees with `o` as `s`
      did. */
  lemma SwapInPrefix(s: seq<Task>, t: seq<Task>, o: seq<Task>, i: nat, j: nat)
    requires 0 < j <= i < |s| && t == s[j - 1 := s[j]][j := s[j - 1]]
    requires i < |o| && multiset(s[..i + 1]) == multiset(o[..i + 1]) && s[i + 1..] == o[i + 1..]
    ensures multiset(t[..i + 1]) == multiset(o[..i + 1]) && t[i + 1..] == o[i + 1..]
  {
    assert t[..i + 1] == s[..i + 1][j - 1 := s[j]][j := s[j - 1]];
  }

  /** A step that reached the front, or a task no older than the moving one,
      is done: the prefix is ordered, and the array holds the tasks it started
      with. */
  lemma InsertDone(s: seq<Task>, o: seq<Task>, i: nat, j: nat)
    requires InsertState(s, o, i, j) && |s| == |o|
    requires j == 0 || !StrLess(SortKey(s[j - 1]), SortKey(s[j]))
    ensures NeighboursNewestFirst(s[..i + 1])
    ensures multiset(s[..i + 1]) == multiset(o[..i + 1]) && s[i + 1..] == o[i + 1..]
    ensures multiset(s) == multiset(o)
  {
    PrefixAndRest(o, s, i + 1);
    var t := s[..i + 1];
    forall k | 0 < k < |t| ensures InOrderAt(t, k) {
      if k != j { assert InOrderAt(s, k); }
      assert t[k - 1] == s[k - 1] && t[k] == s[k];
    }
  }
}
