/**
 * The list computations of the three handlers of the TaskManager component:
 * add prepends a new task to the two class filters, toggle maps then sorts,
 * delete filters by id.
 */
module Handlers {
  import opened Tasks
  import opened Ordering

  /** The (id, title) pair of each task, in list order: what toggle never changes. */
  function Labels(s: seq<Task>): (r: seq<(TaskId, string)>)
    ensures |r| == |s|
    ensures forall i :: 0 <= i < |s| ==> r[i].0 == s[i].id && r[i].1 == s[i].title
  {
    seq(|s|, i requires 0 <= i < |s| => (s[i].id, s[i].title))
  }

  lemma LabelsAppend(a: seq<Task>, b: seq<Task>)
    ensures Labels(a + b) == Labels(a) + Labels(b)
  {
  }

  /** Filtering by class moves tasks around but loses and invents no (id, title) pair. */
  lemma {:induction false} WithStatusLabels(s: seq<Task>)
    ensures multiset(Labels(WithStatus(s, false))) + multiset(Labels(WithStatus(s, true))) == multiset(Labels(s))
  {
    if s != [] {
      WithStatusLabels(s[1..]);
      assert s == [s[0]] + s[1..];
      LabelsAppend([s[0]], s[1..]);
      LabelsAppend([s[0]], WithStatus(s[1..], s[0].completed));
    }
  }

  lemma PartitionLabels(s: seq<Task>)
    ensures multiset(Labels(Partition(s))) == multiset(Labels(s))
  {
    LabelsAppend(WithStatus(s, false), WithStatus(s, true));
    WithStatusLabels(s);
  }

  // ---------------------------------------------------------------- add

  /** `[task, ...taskList.filter(t => !t.completed), ...taskList.filter(t => t.completed)]`. */
  function AddedTask(s: seq<Task>, freshId: TaskId, title: string): seq<Task> {
    [Task(freshId, title, false)] + WithStatus(s, false) + WithStatus(s, true)
  }

  /** The new task comes first, with the id given and the title as typed, not completed. */
  lemma AddedHead(s: seq<Task>, freshId: TaskId, title: string)
    ensures |AddedTask(s, freshId, title)| == |s| + 1
    ensures AddedTask(s, freshId, title)[0] == Task(freshId, title, false)
  {
    PartitionPermutes(s);
  }

  /** After the add the incomplete run is the new task, then the old incomplete tasks in their old order. */
  lemma AddedIncompleteRun(s: seq<Task>, freshId: TaskId, title: string)
    ensures WithStatus(AddedTask(s, freshId, title), false) == [Task(freshId, title, false)] + WithStatus(s, false)
  {
    var t := Task(freshId, title, false);
    assert AddedTask(s, freshId, title) == [t] + Partition(s);
    WithStatusAppend([t], Partition(s), false);
    PartitionStable(s, false);
  }

  /** After the add the completed run is the old completed tasks in their old order. */
  lemma AddedCompletedRun(s: seq<Task>, freshId: TaskId, title: string)
    ensures WithStatus(AddedTask(s, freshId, title), true) == WithStatus(s, true)
  {
    var t := Task(freshId, title, false);
    assert AddedTask(s, freshId, title) == [t] + Partition(s);
    WithStatusAppend([t], Partition(s), true);
    PartitionStable(s, true);
  }

  /** The add leaves the list in display order even when the old list was not. */
  lemma AddedPartitioned(s: seq<Task>, freshId: TaskId, title: string)
    ensures IsPartitioned(AddedTask(s, freshId, title))
  {
    var t := Task(freshId, title, false);
    assert AddedTask(s, freshId, title) == [t] + Partition(s);
    PartitionIsPartitioned(s);
  }

  /** The add keeps every old task as often as before and adds exactly the new one. */
  lemma AddedKeepsTasks(s: seq<Task>, freshId: TaskId, title: string)
    ensures multiset(AddedTask(s, freshId, title)) == multiset(s) + multiset{Task(freshId, title, false)}
  {
    PartitionPermutes(s);
    assert AddedTask(s, freshId, title) == [Task(freshId, title, false)] + Partition(s);
  }

  // ---------------------------------------------------------------- toggle

  function Flip(t: Task): Task {
    t.(completed := !t.completed)
  }

  /** `taskList.map(task => task.id === id ? {...task, completed: !task.completed} : task)`. */
  function FlipMatching(s: seq<Task>, id: TaskId): (r: seq<Task>)
    ensures |r| == |s|
  {
    seq(|s|, i requires 0 <= i < |s| => if s[i].id == id then Flip(s[i]) else s[i])
  }

  /** The map flips completed on exactly the tasks whose id is id and keeps every other field and task. */
  lemma FlipMatchingExact(s: seq<Task>, id: TaskId, i: nat)
    requires i < |s|
    ensures FlipMatching(s, id)[i].id == s[i].id && FlipMatching(s, id)[i].title == s[i].title
    ensures FlipMatching(s, id)[i].completed != s[i].completed <==> s[i].id == id
  {
  }

  /** The whole toggle handler: map, then the stable sort by completed. */
  function Toggled(s: seq<Task>, id: TaskId): seq<Task> {
    SortByCompleted(FlipMatching(s, id))
  }

  /** The toggle leaves the list in display order, whatever order it had. */
  lemma ToggledPartitioned(s: seq<Task>, id: TaskId)
    ensures IsPartitioned(Toggled(s, id))
  {
    SortByCompletedCorrect(FlipMatching(s, id));
  }

  /** Inside each class, the tasks keep their order from the mapped list. */
  lemma ToggledStable(s: seq<Task>, id: TaskId, done: bool)
    ensures WithStatus(Toggled(s, id), done) == WithStatus(FlipMatching(s, id), done)
  {
    SortByCompletedCorrect(FlipMatching(s, id));
  }

  /**
   * The toggle returns the mapped tasks, rearranged: the length and the multiset of
   * (id, title) pairs are those of the old list.
   */
  lemma ToggledKeepsTasks(s: seq<Task>, id: TaskId)
    ensures multiset(Toggled(s, id)) == multiset(FlipMatching(s, id))
    ensures |Toggled(s, id)| == |s|
    ensures multiset(Labels(Toggled(s, id))) == multiset(Labels(s))
  {
    var m := FlipMatching(s, id);
    SortIsPartition(m);
    PartitionPermutes(m);
    PartitionLabels(m);
    assert Labels(m) == Labels(s);
  }

  /**
   * Every stable sort by completed yields the same list, so insertion sort stands for
   * whatever algorithm the engine's stable `Array.prototype.sort` runs.
   */
  lemma ToggledIsTheStableSort(s: seq<Task>, id: TaskId, r: seq<Task>)
    requires IsPartitioned(r)
    requires WithStatus(r, false) == WithStatus(FlipMatching(s, id), false)
    requires WithStatus(r, true) == WithStatus(FlipMatching(s, id), true)
    ensures r == Toggled(s, id)
  {
    PartitionUnique(r, FlipMatching(s, id));
    SortIsPartition(FlipMatching(s, id));
  }

  /** An id nothing carries flips nothing, but the list is still put in display order. */
  lemma ToggledNoMatch(s: seq<Task>, id: TaskId)
    requires forall i :: 0 <= i < |s| ==> s[i].id != id
    ensures Toggled(s, id) == Partition(s)
    ensures IsPartitioned(s) ==> Toggled(s, id) == s
  {
    assert FlipMatching(s, id) == s;
    SortIsPartition(s);
    if IsPartitioned(s) {
      PartitionFixesPartitioned(s);
    }
  }

  /** On an unpartitioned initial list a toggle of an absent id still reorders it. */
  lemma ToggledNoMatchReorders()
    ensures Toggled([Task("1", "a", true), Task("2", "b", false)], "3")
         == [Task("2", "b", false), Task("1", "a", true)]
  {
    var s := [Task("1", "a", true), Task("2", "b", false)];
    ToggledNoMatch(s, "3");
    assert WithStatus(s, false) == [s[1]];
    assert WithStatus(s, true) == [s[0]];
  }

  /**
   * Toggling an incomplete task twice need not put it back where it was: the second
   * toggle puts it at the end of the incomplete run, here behind the task that followed it.
   */
  lemma ToggledTwiceMoves()
    ensures Toggled(Toggled([Task("1", "a", false), Task("2", "b", false)], "1"), "1")
         == [Task("2", "b", false), Task("1", "a", false)]
  {
    var s := [Task("1", "a", false), Task("2", "b", false)];
    var m := FlipMatching(s, "1");
    assert m == [Task("1", "a", true), Task("2", "b", false)];
    SortIsPartition(m);
    assert WithStatus(m, false) == [m[1]];
    assert WithStatus(m, true) == [m[0]];
    var once := Toggled(s, "1");
    assert once == [Task("2", "b", false), Task("1", "a", true)];
    var m2 := FlipMatching(once, "1");
    assert m2 == [Task("2", "b", false), Task("1", "a", false)];
    SortIsPartition(m2);
    assert WithStatus(m2, false) == m2;
  }

  // ---------------------------------------------------------------- delete

  /** `taskList.filter(task => task.id !== id)`. */
  function Deleted(s: seq<Task>, id: TaskId): (r: seq<Task>)
    ensures |r| <= |s|
    ensures forall t :: t in r <==> t in s && t.id != id
  {
    if s == [] then []
    else if s[0].id != id then [s[0]] + Deleted(s[1..], id)
    else Deleted(s[1..], id)
  }

  /** r is s with some tasks left out and the rest in their order. */
  predicate IsSubsequence(r: seq<Task>, s: seq<Task>)
    decreases |s|
  {
    if r == [] then true
    else if s == [] then false
    else (r[0] == s[0] && IsSubsequence(r[1..], s[1..])) || IsSubsequence(r, s[1..])
  }

  /** Delete removes every copy of every task with the id, and no other task. */
  lemma {:induction false} DeletedCounts(s: seq<Task>, id: TaskId, t: Task)
    ensures multiset(Deleted(s, id))[t] == if t.id == id then 0 else multiset(s)[t]
  {
    if s != [] {
      DeletedCounts(s[1..], id, t);
      assert s == [s[0]] + s[1..];
    }
  }

  /** The tasks that remain keep their order. */
  lemma {:induction false} DeletedIsSubsequence(s: seq<Task>, id: TaskId)
    ensures IsSubsequence(Deleted(s, id), s)
  {
    if s != [] {
      DeletedIsSubsequence(s[1..], id);
    }
  }

  /** An id nothing carries deletes nothing. */
  lemma {:induction false} DeletedNoMatch(s: seq<Task>, id: TaskId)
    requires forall i :: 0 <= i < |s| ==> s[i].id != id
    ensures Deleted(s, id) == s
  {
    if s != [] {
      DeletedNoMatch(s[1..], id);
      assert s == [s[0]] + s[1..];
    }
  }

  /** Deleting twice is deleting once. */
  lemma DeletedIdempotent(s: seq<Task>, id: TaskId)
    ensures Deleted(Deleted(s, id), id) == Deleted(s, id)
  {
    var r := Deleted(s, id);
    assert forall i :: 0 <= i < |r| ==> r[i] in r;
    DeletedNoMatch(r, id);
  }

  /** Deleting filters each class by id, so a list in display order stays in display order. */
  lemma {:induction false} DeletedWithStatus(s: seq<Task>, id: TaskId, done: bool)
    ensures WithStatus(Deleted(s, id), done) == Deleted(WithStatus(s, done), id)
  {
    if s != [] {
      DeletedWithStatus(s[1..], id, done);
    }
  }

  lemma {:induction false} DeletedAppend(a: seq<Task>, b: seq<Task>, id: TaskId)
    ensures Deleted(a + b, id) == Deleted(a, id) + Deleted(b, id)
  {
    if a == [] {
      assert a + b == b;
    } else {
      assert (a + b)[1..] == a[1..] + b;
      DeletedAppend(a[1..], b, id);
    }
  }

  /** Delete keeps a list in display order. */
  lemma DeletedPartitioned(s: seq<Task>, id: TaskId)
    requires IsPartitioned(s)
    ensures IsPartitioned(Deleted(s, id))
  {
    PartitionedSplit(s);
    var a, b := WithStatus(s, false), WithStatus(s, true);
    DeletedAppend(a, b, id);
    var da, db := Deleted(a, id), Deleted(b, id);
    assert forall i :: 0 <= i < |da| ==> da[i] in a;
    assert forall i :: 0 <= i < |db| ==> db[i] in b;
  }
}
