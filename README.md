# VoidCat task list — a Dafny model

VoidCat is a single-user, command-driven task tracker. Its task list
(`voidcat.task.TaskList`) holds an ordered `ArrayList<Task>` and changes it in place.
It adds a task at the end, removes or returns a task by 0-based index, and sets or
clears a task's completion flag. It also builds two reports. `listTasks` numbers every
task from 1 and fails on an empty list. `findTasks` keeps, in order, the tasks whose
description contains a keyword, numbers them from 1, and fails when none match.
Finally it writes one save record per task.

The model has three modules:

- `Tasks` (`task.dfy`): a task as a value: its kind, its description and its `done` flag,
  plus `markAsDone` / `unmarkAsDone`.
- `Text` (`text.dfy`): the two Java library behaviours the list depends on.
  `String.contains` becomes `Contains`. The decimal printing of the entry number becomes
  `NatToString`, with `ParseNat` as the independent reading it round-trips with.
- `TaskLists` (`task_list.dfy`): the class `TaskList` with a `seq<Task>` field `tasks`
  that its methods reassign, and the specification functions the reports are proved
  against. `Entries` gives the numbered lines, `Join` concatenates them, and `Matching` /
  `MatchIndices` describe the search. The file also has a small client module,
  `TaskListClient`, showing what a caller can conclude from the contracts alone.

`Task.toString()` and `Task.toSaveFormat()` are not part of this model. They appear as
function parameters: `render` and `toSaveFormat`. Every report is proved for every
choice of them.

Indices are 0-based, as in `TaskList.java`; the 1-based user number is converted before
the list is called. An index outside `0 <= index < size` is a precondition, standing in
for the `IndexOutOfBoundsException` that `ArrayList.get` / `remove` throws. The two
`VoidCatException` cases of the reports are modelled as `Result.Fail`, with the
source's messages. Methods without a `modifies` clause (`ListTasks`, `FindTasks`,
`SaveTasks`) cannot change the list, which is the model's statement that the reports do
not mutate it.

## Model

| member | source | states |
|---|---|---|
| `Tasks.MarkAsDone` | src/main/java/voidcat/task/TaskList.java:55 | afterwards the task is done, with its kind and description unchanged |
| `Tasks.UnmarkAsDone` | src/main/java/voidcat/task/TaskList.java:65 | afterwards the task is not done, with its kind and description unchanged |
| `Tasks.MarkIdempotent` | src/main/java/voidcat/task/TaskList.java:54-57 | marking a task twice is the same as marking it once |
| `Tasks.UnmarkIdempotent` | src/main/java/voidcat/task/TaskList.java:64-67 | unmarking a task twice is the same as unmarking it once |
| `Tasks.MarkThenUnmark` | src/main/java/voidcat/task/TaskList.java:54-67 | mark then unmark always leaves the task not done, and restores a task that was not done to exactly what it was |
| `Text.ContainsEmpty` | src/main/java/voidcat/task/TaskList.java:121 | every description contains the empty keyword, as Java's `contains` says |
| `Text.ContainsShorter` | src/main/java/voidcat/task/TaskList.java:121 | a keyword longer than a description never matches it |
| `Text.ContainsSelf` | src/main/java/voidcat/task/TaskList.java:121 | a description always contains itself |
| `Text.NatToString` | src/main/java/voidcat/task/TaskList.java:82 | the entry number prints as one or more decimal digits, with no leading zero except for 0 |
| `Text.ParseNatToString` | src/main/java/voidcat/task/TaskList.java:82 | reading the printed number back gives the number |
| `Text.NatToStringInjective` | src/main/java/voidcat/task/TaskList.java:131 | different entry numbers print differently |
| `TaskLists.JoinAppend` | src/main/java/voidcat/task/TaskList.java:81-83 | the text built from two runs of lines is the first run's text followed by the second's |
| `TaskLists.ListingAfterAdd` | src/main/java/voidcat/task/TaskList.java:36-38 | after an add, the listing is the old listing plus one line for the new task, numbered one past the old size, so tasks are listed in the order added |
| `TaskLists.ListingAfterDelete` | src/main/java/voidcat/task/TaskList.java:45-47 | after a delete, the remaining tasks are numbered contiguously from 1: earlier ones keep their number, later ones move up by one |
| `TaskLists.AppendEntries` | src/main/java/voidcat/task/TaskList.java:81-83 | the loop appends, in order, one line per task: tab, number k + 1, ". ", the task's text and a newline |
| `TaskLists.Matching` | src/main/java/voidcat/task/TaskList.java:120-124 | the selected tasks are no more than the list holds, and each is in the list with a description that contains the keyword |
| `TaskLists.MatchingIsOrderedSelection` | src/main/java/voidcat/task/TaskList.java:117-124 | the selected tasks are the list's tasks at strictly increasing positions, and those positions are exactly the ones whose description contains the keyword |
| `TaskLists.MatchingComplete` | src/main/java/voidcat/task/TaskList.java:120-124 | every task whose description contains the keyword is selected |
| `TaskLists.MatchingEmptyIff` | src/main/java/voidcat/task/TaskList.java:126 | nothing is selected exactly when no description contains the keyword, in particular on an empty list |
| `TaskLists.MatchingEmptyKeyword` | src/main/java/voidcat/task/TaskList.java:120-124 | an empty keyword selects every task |
| `TaskLists.TaskList.FromTasks` | src/main/java/voidcat/task/TaskList.java:23-25 | the new list holds the given tasks in their order |
| `TaskLists.TaskList.constructor` | src/main/java/voidcat/task/TaskList.java:27-29 | the new list is empty |
| `TaskLists.TaskList.AddTask` | src/main/java/voidcat/task/TaskList.java:36-38 | the size grows by one, the new task is last, and every earlier task keeps its position and contents |
| `TaskLists.TaskList.DeleteTask` | src/main/java/voidcat/task/TaskList.java:45-47 | returns the task at the index; the new list is the old one with only that element removed, the rest in their relative order |
| `TaskLists.TaskList.MarkTaskAsDone` | src/main/java/voidcat/task/TaskList.java:54-57 | only the task at the index changes, to done; it is returned; kind, description, size, order and every other task stay as they were |
| `TaskLists.TaskList.UnmarkTaskAsDone` | src/main/java/voidcat/task/TaskList.java:64-67 | only the task at the index changes, to not done; it is returned; everything else stays as it was |
| `TaskLists.TaskList.Size` | src/main/java/voidcat/task/TaskList.java:93-95 | the size is the number of tasks held |
| `TaskLists.TaskList.ListTasks` | src/main/java/voidcat/task/TaskList.java:74-86 | fails, with the empty-list message, exactly when the list is empty; otherwise the header, then the tasks in order numbered from 1 |
| `TaskLists.TaskList.SaveTasks` | src/main/java/voidcat/task/TaskList.java:103-107 | one save record per task, the k-th being that task's save format, in list order |
| `TaskLists.TaskList.FindTasks` | src/main/java/voidcat/task/TaskList.java:116-135 | fails, with the no-match message, exactly when no description contains the keyword; otherwise the header, then the matching tasks in original order numbered contiguously from 1 |
| `TaskListClient.AddMarkList` | src/main/java/voidcat/task/TaskList.java:36-84 | two adds to a new list, a mark of the first and a listing give the header and two lines, numbered 1 and 2, with the first task done |

## Left out

- Object identity of tasks: in the source, `markTaskAsDone` / `unmarkTaskAsDone` modify the `Task` object in place and return that same object. The model treats a task as a value and replaces the element at the index. An alias of the task held outside the list is therefore not modelled.
- The constructor `TaskList(ArrayList<Task>)` keeps the caller's list object itself (TaskList.java:24). The model copies the given sequence, so later changes made through the caller's reference are not modelled.
- `Task.toString` and `Task.toSaveFormat`, along with the `Task` classes, their date parsing and their record format, are not part of this model. They are function parameters.
- The `BufferedWriter` side of `saveTasks`: the write calls, the `newLine` after each record, `close`, and the `IOException` they may throw (TaskList.java:105-108). `SaveTasks` returns the sequence of records that would be written.
- The out-of-range `IndexOutOfBoundsException` of `deleteTask`, `markTaskAsDone` and `unmarkTaskAsDone` is a precondition, not a modelled error. The Java exception types are not modelled: a failing report is `Result.Fail` with the source's message.
- Java's 32-bit `int` for indices, the size and entry numbers: an `ArrayList` cannot hold more than `Integer.MAX_VALUE` elements, so `i + 1` never wraps and unbounded integers give the same results.
- Java strings are UTF-16 code units; the model's `string` is a sequence of `char` with the same literal, case-sensitive comparison.
- The unused constant `FORMAT` (TaskList.java:16).
- `listTasks` and `findTasks` each contain their own copy of the numbering loop. The model has that loop once, in `AppendEntries`, and both call it.
- The console loop, command parser, storage loading and GUI (`Void.java`, `MainWindow.java`, and the parser, storage and UI classes) are not part of this model.
