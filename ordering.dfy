/**
 * The display order of the task list: incomplete tasks first, completed tasks after,
 * each run in the order the tasks had before. The add handler builds it from two
 * filters; the toggle handler gets it from a stable sort on the completed flag.
 */
module Ordering {
  import opened Tasks

  /** No completed task comes before an incomplete one. */
  predicate IsPartitioned(s: seq<Task>) {
    forall i, j :: 0 <= i < j < |s| ==> !s[i].completed || s[j].completed
  }

  /** Every task of s has completed == done. */
  predicate AllWithStatus(s: seq<Task>, done: bool) {
    forall i :: 0 <= i < |s| ==> s[i].completed == done
  }

  /** `s.filter(task => task.completed === done)`: the tasks of one class, in their order in s. */
  function WithStatus(s: seq<Task>, done: bool): (r: seq<Task>)
    ensures |r| <= |s|
    ensures AllWithStatus(r, done)
  {
    if s == [] then []
    else if s[0].completed == done then [s[0]] + WithStatus(s[1..], done)
    else WithStatus(s[1..], done)
  }

  /** A task is in a class filter exactly when it is in the list and of that class. */
  lemma {:induction false} WithStatusMembers(s: seq<Task>, done: bool, t: Task)
    ensures t in WithStatus(s, done) <==> t in s && t.completed == done
  {
    if s != [] {
      WithStatusMembers(s[1..], done, t);
      assert s == [s[0]] + s[1..];
    }
  }

  /** The incomplete run followed by the completed run. */
  function Partition(s: seq<Task>): seq<Task> {
    WithStatus(s, false) + WithStatus(s, true)
  }

  /** Filtering a list with one task in front filters the task, then the rest. */
  lemma WithStatusCons(x: Task, s: seq<Task>, done: bool)
    ensures WithStatus([x] + s, done) == (if x.completed == done then [x] else []) + WithStatus(s, done)
  {
    assert ([x] + s)[0] == x;
    assert ([x] + s)[1..] == s;
  }

  lemma {:induction false} WithStatusAppend(a: seq<Task>, b: seq<Task>, done: bool)
    ensures WithStatus(a + b, done) == WithStatus(a, done) + WithStatus(b, done)
  {
    if a == [] {
      assert a + b == b;
    } else {
      var x, a' := a[0], a[1..];
      assert a == [x] + a';
      assert a + b == [x] + (a' + b);
      WithStatusAppend(a', b, done);
      WithStatusCons(x, a' + b, done);
      WithStatusCons(x, a', done);
    }
  }

  /** A list that holds only one class is its own filter for that class and has nothing of the other. */
  lemma {:induction false} WithStatusUniform(s: seq<Task>, done: bool)
    requires AllWithStatus(s, done)
    ensures WithStatus(s, done) == s && WithStatus(s, !done) == []
  {
    if s != [] {
      assert AllWithStatus(s[1..], done) by {
        forall i | 0 <= i < |s[1..]| ensures s[1..][i].completed == done {
          assert s[1..][i] == s[i + 1];
        }
      }
      WithStatusUniform(s[1..], done);
      assert WithStatus(s, done) == [s[0]] + WithStatus(s[1..], done);
      assert WithStatus(s, !done) == WithStatus(s[1..], !done);
      assert s == [s[0]] + s[1..];
    }
  }

  /** Two filters by class together keep every task of s exactly as often as s holds it. */
  lemma {:induction false} WithStatusSplit(s: seq<Task>)
    ensures multiset(WithStatus(s, false)) + multiset(WithStatus(s, true)) == multiset(s)
  {
    if s != [] {
      WithStatusSplit(s[1..]);
      assert s == [s[0]] + s[1..];
    }
  }

  /** The partition is in display order. */
  lemma PartitionIsPartitioned(s: seq<Task>)
    ensures IsPartitioned(Partition(s))
  {
  }

  /** The partition is a permutation of s. */
  lemma PartitionPermutes(s: seq<Task>)
    ensures |Partition(s)| == |s|
    ensures multiset(Partition(s)) == multiset(s)
  {
    WithStatusSplit(s);
    assert |multiset(Partition(s))| == |multiset(s)|;
  }

  /** Stability: inside each class the partition keeps the order the tasks had in s. */
  lemma PartitionStable(s: seq<Task>, done: bool)
    ensures WithStatus(Partition(s), done) == WithStatus(s, done)
  {
    WithStatusAppend(WithStatus(s, false), WithStatus(s, true), done);
    WithStatusUniform(WithStatus(s, false), false);
    WithStatusUniform(WithStatus(s, true), true);
  }

  /** A list in display order is its incomplete run followed by its completed run. */
  lemma {:induction false} PartitionedSplit(r: seq<Task>)
    requires IsPartitioned(r)
    ensures r == WithStatus(r, false) + WithStatus(r, true)
  {
    if r != [] {
      if r[0].completed {
        assert AllWithStatus(r, true) by {
          forall j | 0 <= j < |r| ensures r[j].completed {
            if j > 0 { assert !r[0].completed || r[j].completed; }
          }
        }
        WithStatusUniform(r, true);
      } else {
        assert IsPartitioned(r[1..]) by {
          forall i, j | 0 <= i < j < |r[1..]| ensures !r[1..][i].completed || r[1..][j].completed {
            assert r[1..][i] == r[i + 1] && r[1..][j] == r[j + 1];
          }
        }
        PartitionedSplit(r[1..]);
        assert WithStatus(r, false) == [r[0]] + WithStatus(r[1..], false);
        assert WithStatus(r, true) == WithStatus(r[1..], true);
        assert r == [r[0]] + r[1..];
      }
    }
  }

  /** Partitioning a list already in display order changes nothing. */
  lemma PartitionFixesPartitioned(s: seq<Task>)
    requires IsPartitioned(s)
    ensures Partition(s) == s
  {
    PartitionedSplit(s);
  }

  /**
   * The partition is the only list that is in display order and keeps each class in its
   * order in s; so every stable sort by the completed flag returns it.
   */
  lemma PartitionUnique(r: seq<Task>, s: seq<Task>)
    requires IsPartitioned(r)
    requires WithStatus(r, false) == WithStatus(s, false)
    requires WithStatus(r, true) == WithStatus(s, true)
    ensures r == Partition(s)
  {
    PartitionedSplit(r);
  }

  /** Inserts x into a sorted list before the first task it does not compare above. */
  function Insert(x: Task, r: seq<Task>): seq<Task> {
    if r == [] || Compare(x, r[0]) <= 0 then [x] + r else [r[0]] + Insert(x, r[1..])
  }

  /**
   * `s.sort((a, b) => a.completed - b.completed)`, as a stable insertion sort: each task is
   * inserted ahead of every task that follows it and compares equal, so ties keep their order.
   */
  function SortByCompleted(s: seq<Task>): seq<Task> {
    if s == [] then [] else Insert(s[0], SortByCompleted(s[1..]))
  }

  lemma {:induction false} InsertIntoRuns(x: Task, a: seq<Task>, b: seq<Task>)
    requires AllWithStatus(a, false) && AllWithStatus(b, true)
    ensures Insert(x, a + b) == if x.completed then a + [x] + b else [x] + a + b
  {
    if a == [] {
      assert a + b == b;
    } else if x.completed {
      assert (a + b)[0] == a[0];
      assert (a + b)[1..] == a[1..] + b;
      InsertIntoRuns(x, a[1..], b);
      assert a == [a[0]] + a[1..];
    }
  }

  /** The stable sort by the comparator is exactly the partition. */
  lemma {:induction false} SortIsPartition(s: seq<Task>)
    ensures SortByCompleted(s) == Partition(s)
  {
    if s != [] {
      SortIsPartition(s[1..]);
      InsertIntoRuns(s[0], WithStatus(s[1..], false), WithStatus(s[1..], true));
    }
  }

  /** What the sort guarantees, stated without the partition: display order, permutation, stability. */
  lemma SortByCompletedCorrect(s: seq<Task>)
    ensures IsPartitioned(SortByCompleted(s))
    ensures multiset(SortByCompleted(s)) == multiset(s)
    ensures forall done :: WithStatus(SortByCompleted(s), done) == WithStatus(s, done)
  {
    SortIsPartition(s);
    PartitionIsPartitioned(s);
    PartitionPermutes(s);
    PartitionStable(s, false);
    PartitionStable(s, true);
  }
}
