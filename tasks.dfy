/** The task record kept in the `taskList` state of the TaskManager component. */
module Tasks {

  /** Ids are the strings `Date.now().toString()` produces; nothing makes them unique. */
  type TaskId = string

  datatype Task = Task(id: TaskId, title: string, completed: bool)

  /** The number a boolean coerces to under JavaScript subtraction: false is 0, true is 1. */
  function Rank(t: Task): (n: int)
    ensures 0 <= n <= 1
    ensures n == 1 <==> t.completed
  {
    if t.completed then 1 else 0
  }

  /** The comparator `(a, b) => a.completed - b.completed` given to the sort in the toggle handler. */
  function Compare(a: Task, b: Task): (c: int)
    ensures c < 0 <==> !a.completed && b.completed
    ensures c > 0 <==> a.completed && !b.completed
  {
    Rank(a) - Rank(b)
  }
}
