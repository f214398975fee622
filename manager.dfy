/**
 * The TaskManager component: its two pieces of state and the handlers that replace them.
 * Each React setter call becomes an assignment to the field it sets.
 */
module Manager {
  import opened Tasks
  import opened Strings
  import opened Ordering
  import opened Handlers

  class TaskManager {
    /** The tasks, in display order once any handler has run. */
    var taskList: seq<Task>
    /** The text typed into the title field. */
    var newTask: string

    /** `useState(initialTasks)` and `useState('')`; initialTasks defaults to the empty list. */
    constructor (initialTasks: seq<Task> := [])
      ensures taskList == initialTasks && newTask == ""
      ensures initialTasks == [] ==> IsPartitioned(taskList)
    {
      taskList := initialTasks;
      newTask := "";
    }

    /** `onChangeText={setNewTask}`: typing replaces the title text and nothing else. */
    method SetNewTask(text: string)
      modifies this
      ensures newTask == text && taskList == old(taskList)
    {
      newTask := text;
    }

    /**
     * `handleAddTask`. A blank title (empty or whitespace only) is rejected with an alert and
     * leaves both fields as they were; any other title becomes a new incomplete task, with
     * the id freshId, at the head of the re-partitioned list, and the text field is cleared.
     */
    method AddTask(freshId: TaskId)
      modifies this
      ensures IsBlank(old(newTask)) ==> taskList == old(taskList) && newTask == old(newTask)
      ensures !IsBlank(old(newTask)) ==>
        && taskList == AddedTask(old(taskList), freshId, old(newTask))
        && newTask == ""
        && taskList[0] == Task(freshId, old(newTask), false)
        && |taskList| == |old(taskList)| + 1
        && multiset(taskList) == multiset(old(taskList)) + multiset{Task(freshId, old(newTask), false)}
        && WithStatus(taskList, false) == [Task(freshId, old(newTask), false)] + WithStatus(old(taskList), false)
        && WithStatus(taskList, true) == WithStatus(old(taskList), true)
        && IsPartitioned(taskList)
      ensures old(IsPartitioned(taskList)) ==> IsPartitioned(taskList)
    {
      TrimEmptyIff(newTask);
      if Trim(newTask) == "" {
        return;
      }
      var next := AddedTask(taskList, freshId, newTask);
      AddedHead(taskList, freshId, newTask);
      AddedIncompleteRun(taskList, freshId, newTask);
      AddedCompletedRun(taskList, freshId, newTask);
      AddedPartitioned(taskList, freshId, newTask);
      AddedKeepsTasks(taskList, freshId, newTask);
      taskList, newTask := next, "";
    }

    /**
     * `handleToggleTask`. Flips completed on every task whose id is id and re-sorts by
     * completed: the result is in display order, keeps each class in its mapped order,
     * and is a rearrangement of the mapped list. The title text is untouched.
     */
    method ToggleTask(id: TaskId)
      modifies this
      ensures taskList == Toggled(old(taskList), id)
      ensures newTask == old(newTask)
      ensures IsPartitioned(taskList)
      ensures forall done :: WithStatus(taskList, done) == WithStatus(FlipMatching(old(taskList), id), done)
      ensures multiset(taskList) == multiset(FlipMatching(old(taskList), id))
      ensures multiset(Labels(taskList)) == multiset(Labels(old(taskList)))
      ensures (forall i :: 0 <= i < |old(taskList)| ==> old(taskList)[i].id != id) && old(IsPartitioned(taskList))
              ==> taskList == old(taskList)
    {
      ToggledPartitioned(taskList, id);
      ToggledStable(taskList, id, false);
      ToggledStable(taskList, id, true);
      ToggledKeepsTasks(taskList, id);
      if forall i :: 0 <= i < |taskList| ==> taskList[i].id != id {
        ToggledNoMatch(taskList, id);
      }
      taskList := Toggled(taskList, id);
    }

    /**
     * `handleDeleteTask`. Drops every task whose id is id and keeps the rest in order;
     * a second delete of the same id changes nothing.
     */
    method DeleteTask(id: TaskId)
      modifies this
      ensures taskList == Deleted(old(taskList), id)
      ensures newTask == old(newTask)
      ensures forall t :: multiset(taskList)[t] == if t.id == id then 0 else multiset(old(taskList))[t]
      ensures IsSubsequence(taskList, old(taskList))
      ensures Deleted(taskList, id) == taskList
      ensures old(IsPartitioned(taskList)) ==> IsPartitioned(taskList)
    {
      forall t: Task ensures multiset(Deleted(taskList, id))[t] == if t.id == id then 0 else multiset(taskList)[t] {
        DeletedCounts(taskList, id, t);
      }
      DeletedIsSubsequence(taskList, id);
      DeletedIdempotent(taskList, id);
      if IsPartitioned(taskList) {
        DeletedPartitioned(taskList, id);
      }
      taskList := Deleted(taskList, id);
    }
  }

  /** The lists the session below passes through, one handler at a time. */
  lemma SessionSteps(idA: TaskId, idB: TaskId)
    requires idA != idB
    ensures AddedTask([], idA, "A") == [Task(idA, "A", false)]
    ensures AddedTask([Task(idA, "A", false)], idB, "B") == [Task(idB, "B", false), Task(idA, "A", false)]
    ensures Toggled([Task(idB, "B", false), Task(idA, "A", false)], idA) == [Task(idB, "B", false), Task(idA, "A", true)]
    ensures Deleted([Task(idB, "B", false), Task(idA, "A", true)], idB) == [Task(idA, "A", true)]
  {
    assert WithStatus([Task(idA, "A", false)], true) == [];
    var flipped := FlipMatching([Task(idB, "B", false), Task(idA, "A", false)], idA);
    assert flipped == [Task(idB, "B", false), Task(idA, "A", true)];
    assert WithStatus(flipped, false) == [Task(idB, "B", false)];
    assert WithStatus(flipped, true) == [Task(idA, "A", true)];
    SortIsPartition(flipped);
  }

  /**
   * A session from the default empty list: a blank title is refused; add "A", add "B",
   * toggle A, delete B. Only A remains, completed.
   */
  method Session(idA: TaskId, idB: TaskId) returns (shown: seq<Task>)
    requires idA != idB
    ensures shown == [Task(idA, "A", true)]
  {
    SessionSteps(idA, idB);
    assert !IsBlank("A") by { assert !IsWhitespace("A"[0]); }
    assert !IsBlank("B") by { assert !IsWhitespace("B"[0]); }
    assert IsBlank("   ");
    var m := new TaskManager();
    m.SetNewTask("   ");
    m.AddTask(idA);
    assert m.taskList == [];
    m.SetNewTask("A");
    m.AddTask(idA);
    assert m.taskList == [Task(idA, "A", false)];
    m.SetNewTask("B");
    m.AddTask(idB);
    assert m.taskList == [Task(idB, "B", false), Task(idA, "A", false)];
    m.ToggleTask(idA);
    assert m.taskList == [Task(idB, "B", false), Task(idA, "A", true)];
    m.DeleteTask(idB);
    shown := m.taskList;
  }
}
