# TaskManager task list, modelled in Dafny

This project models the `TaskManager` component of a small React Native to-do app
(`App.js`). The component holds two pieces of state. `taskList` is a list of
`{id, title, completed}` records. `newTask` is the text typed into the title field.
Three handlers replace that state:

- **add** rejects a title that is empty or whitespace only. That case shows an alert
  and leaves both fields as they were. Any other title becomes a new incomplete task at
  the head of the list. The handler rebuilds the list as the new task, then the old
  incomplete tasks, then the old completed tasks, and clears the text field.
- **toggle** flips `completed` on every task with the given id. It then sorts the list
  with the comparator `a.completed - b.completed`. `Array.prototype.sort` must be stable
  (ECMA-262 10th edition, section 22.1.3.27), so this is a stable partition with the
  incomplete tasks first.
- **delete** keeps the tasks whose id differs from the given one.

Layout:

- `tasks.dfy` (module `Tasks`): the `Task` record and the sort comparator. `Tasks.Compare`
  models `(a, b) => a.completed - b.completed` at App.js:22.
- `strings.dfy` (module `Strings`): `String.prototype.trim`, using the ECMAScript
  WhiteSpace and LineTerminator code points, and the blank-title test. `Strings.Trim`
  models `.trim()` at App.js:10.
- `ordering.dfy` (module `Ordering`): the class filters, the partition, and a stable
  insertion sort by the comparator. It proves the sort equals the partition, and that the
  partition is the only list in display order that keeps each class in order.
  `Ordering.WithStatus` models each `filter` by `completed` at App.js:15.
  `Ordering.Partition` is the incomplete-then-completed order.
  `Ordering.SortByCompleted` models the `sort` at App.js:22.
- `handlers.dfy` (module `Handlers`): the list each handler computes, with its
  properties. `Handlers.AddedTask` models App.js:15. `Handlers.FlipMatching` models the
  `map` at App.js:20-21. `Handlers.Toggled` models App.js:20-22 as a whole.
  `Handlers.Deleted` models the `filter` at App.js:27.
- `manager.dfy` (module `Manager`): the `TaskManager` class. Its fields are `taskList`
  and `newTask`, and each method assigns them the way the matching setter does. It also
  has a session from the empty list that runs the handlers in sequence.

Starting from the default `initialTasks = []`, every reachable list is in display order.
The constructor establishes that. Every method either keeps it (add rejected, delete)
or establishes it (add accepted, toggle).

Behaviour of `App.js` worth knowing:

- Toggle flips every task that carries the id, not just one.
- The title is stored as typed, untrimmed.
- An arbitrary `initialTasks` list need not be in display order. The first toggle
  re-partitions it even when the id matches nothing (`ToggledNoMatchReorders`).
- Toggling an incomplete task twice need not return it to its old position: the second toggle puts it at the end of the incomplete run (`ToggledTwiceMoves`).

## Model

| member | source | states |
|---|---|---|
| Tasks.Compare | App.js:22 | the comparator is negative exactly when an incomplete task meets a completed one, and positive exactly in the reverse case |
| Strings.TrimStart | App.js:10 | the result is a suffix of the input; everything dropped is whitespace; the result does not start with whitespace |
| Strings.TrimEnd | App.js:10 | the result is a prefix of the input; everything dropped is whitespace; the result does not end with whitespace |
| Strings.TrimEmptyIff | App.js:10 | `newTask.trim() === ''` holds exactly when every character of the title is whitespace, the empty title included |
| Ordering.WithStatus | App.js:15 | a class filter is no longer than the list and holds only tasks of that class |
| Ordering.WithStatusMembers | App.js:15 | a task is in a class filter exactly when it is in the list and of that class |
| Ordering.WithStatusSplit | App.js:15 | the two class filters together hold every task of the list exactly as often as the list does |
| Ordering.PartitionIsPartitioned | App.js:15 | incomplete tasks, then completed tasks, leaves no completed task before an incomplete one |
| Ordering.PartitionPermutes | App.js:15 | the partition has the same length and the same multiset of tasks as the list |
| Ordering.PartitionStable | App.js:15 | within each class the partition keeps the tasks in their order in the list |
| Ordering.PartitionedSplit | App.js:22 | a list in display order is its incomplete run followed by its completed run |
| Ordering.PartitionFixesPartitioned | App.js:22 | partitioning a list that is already in display order returns it unchanged |
| Ordering.PartitionUnique | App.js:22 | any list in display order that keeps both classes in the list's order is the partition, so every stable sort by completed gives the same result |
| Ordering.SortIsPartition | App.js:22 | the stable insertion sort with comparator `a.completed - b.completed` returns exactly the partition |
| Ordering.SortByCompletedCorrect | App.js:22 | the sorted list is in display order, is a permutation of its input and keeps each class in order |
| Handlers.AddedHead | App.js:14-15 | after an add the list is one longer and starts with `{id: freshId, title: newTask, completed: false}`, with the title untrimmed |
| Handlers.AddedIncompleteRun | App.js:15 | after an add, the incomplete run is the new task followed by the old incomplete tasks in their old order |
| Handlers.AddedCompletedRun | App.js:15 | after an add, the completed run is the old completed tasks in their old order |
| Handlers.AddedPartitioned | App.js:15 | after an add the list is in display order, even if the old one was not |
| Handlers.AddedKeepsTasks | App.js:15 | an add keeps every old task, as often as before, and adds exactly the new one |
| Handlers.FlipMatchingExact | App.js:20-21 | the map keeps each task's id and title in place and flips completed exactly on the tasks whose id is the argument |
| Handlers.ToggledPartitioned | App.js:20-22 | after a toggle no completed task precedes an incomplete one |
| Handlers.ToggledStable | App.js:22 | after a toggle each class keeps the order it had in the mapped list |
| Handlers.ToggledKeepsTasks | App.js:20-22 | a toggle returns a rearrangement of the mapped list: same length, same multiset of tasks, same multiset of (id, title) pairs as before the toggle |
| Handlers.ToggledIsTheStableSort | App.js:22 | any list in display order that keeps the mapped list's class order is the toggle's result |
| Handlers.ToggledNoMatch | App.js:20-22 | toggling an id nothing carries still partitions the list, and changes nothing if the list was already in display order |
| Handlers.ToggledNoMatchReorders | App.js:20-22 | an unpartitioned list, completed task first, is reordered by a toggle of an absent id |
| Handlers.ToggledTwiceMoves | App.js:19-23 | toggling the first of two incomplete tasks twice moves it behind the other |
| Handlers.Deleted | App.js:27 | no task with the id remains, and a task remains exactly when it was in the list with another id |
| Handlers.DeletedCounts | App.js:27 | a delete drops every copy of the tasks with the id and keeps every other task as often as before |
| Handlers.DeletedIsSubsequence | App.js:27 | the remaining tasks keep their original relative order |
| Handlers.DeletedNoMatch | App.js:27 | deleting an id nothing carries changes nothing |
| Handlers.DeletedIdempotent | App.js:27 | deleting twice equals deleting once |
| Handlers.DeletedWithStatus | App.js:27 | deleting and then filtering a class equals filtering the class and then deleting |
| Handlers.DeletedPartitioned | App.js:27 | a delete keeps a list in display order |
| Manager.TaskManager.constructor | App.js:5-7 | the list starts as `initialTasks`, `[]` by default and then in display order, and the text starts as `''` |
| Manager.TaskManager.SetNewTask | App.js:37 | typing replaces the title text and leaves the list alone |
| Manager.TaskManager.AddTask | App.js:9-17 | a blank title leaves both fields unchanged. Otherwise the new list is the add handler's list, led by the new task and in display order, and the text is `''`. Display order is never lost |
| Manager.TaskManager.ToggleTask | App.js:19-24 | the new list is the toggle's result: in display order, class order kept from the mapped list, same tasks as the mapped list, same (id, title) pairs. It is unchanged when no task has the id and the list was in display order. The text is untouched |
| Manager.TaskManager.DeleteTask | App.js:26-28 | the new list is the filter by id. It keeps the other tasks in order and as often as before, and a repeat delete is a no-op. It keeps display order. The text is untouched |
| Manager.SessionSteps | App.js:9-28 | from `[]`: add A gives `[A]`, add B gives `[B, A]`, toggle A gives `[B, A done]`, delete B gives `[A done]` |
| Manager.Session | App.js:5-28 | the same session run on a `TaskManager` object, with a blank add refused first, ends with only A, completed |

## Left out

- Rendering is UI and is not modelled: `View`, `FlatList`, `ListItem`, `Switch`, `Icon`, `TextInput`, `Button` and the `styles` object.
- `Alert.alert` only presents the validation error. The model keeps just its outcome: both fields unchanged.
- `Date.now().toString()` reads the clock. The id is a parameter of `AddTask`, and nothing makes it unique, just as in the code.
- The `disabled` flag on the Save button repeats the blank-title test in the UI. `AddTask` performs that test itself.
- No particular sort algorithm is modelled. `SortByCompleted` is one stable sort, and `PartitionUnique` shows that every stable sort by the comparator gives the same list.
- Characters are Unicode scalar values, not UTF-16 code units. Id comparison with `===` is sequence equality.
- The component keeps its state locally; `App.js` makes no network or storage calls.
- `completed` is modelled as a boolean. A task in `initialTasks` without that field would make `a.completed - b.completed` NaN, which `sort` treats as a tie; toggle would then not partition that list. The model does not cover such records.
- Each handler is modelled as reading the state the previous one set. In the code `setTaskList` and `setNewTask` take effect when React re-renders, which it does between user events; batching of several updates within one event is not modelled.
