/** The task list: an ordered collection of tasks, changed in place by positional
    operations, with the two reports built from it (the full listing and the keyword
    search) and the sequence of records it saves. Indices are 0-based: turning the
    user's 1-based number into an index happens before the list is reached. */
module TaskLists {
  import opened Tasks
  import opened Text

  /** An operation that either produces a value or fails with a message. */
  datatype Result<T> = Ok(value: T) | Fail(message: string)

  const ListHeader := "Here are the tasks in your list:\n"
  const EmptyListMessage := "No saved tasks found yet! Task list is empty.\n\tStart adding tasks and track them!"
  const FindHeader := "Here are the matching tasks in your list:\n"

  function NoMatchMessage(keyword: string): string
  {
    "Aww..no matching tasks found for keyword: " + keyword
  }

  // ---------------------------------------------------------------------------
  // Reports

  /** One line of a report: a tab, the entry's number, a dot and a blank,
      the task's text and a newline. */
  function Entry(number: nat, text: string): string
  {
    "\t" + NatToString(number) + ". " + text + "\n"
  }

  /** The lines of a report over `ts`: the task at position k carries number k + 1. */
  function Entries(ts: seq<Task>, render: Task -> string): seq<string>
  {
    seq(|ts|, k requires 0 <= k < |ts| => Entry(k + 1, render(ts[k])))
  }

  /** The concatenation of `parts`, in order. */
  function Join(parts: seq<string>): string
  {
    if parts == [] then "" else Join(parts[..|parts| - 1]) + parts[|parts| - 1]
  }

  /** Joining two runs of lines one after the other gives the two texts one after the other. */
  lemma {:induction false} JoinAppend(a: seq<string>, b: seq<string>)
    ensures Join(a + b) == Join(a) + Join(b)
    decreases |b|
  {
    if b != [] {
      var b' := b[..|b| - 1];
      assert (a + b)[..|a + b| - 1] == a + b';
      JoinAppend(a, b');
    } else {
      assert a + b == a;
    }
  }

  /** The listing of a list that had `t` appended is the old listing followed by one line
      for `t`, numbered one past the old size: a run of additions is listed in the order
      the tasks were added, numbered from 1. */
  lemma ListingAfterAdd(ts: seq<Task>, t: Task, render: Task -> string)
    ensures Join(Entries(ts + [t], render)) == Join(Entries(ts, render)) + Entry(|ts| + 1, render(t))
  {
    var e := Entries(ts + [t], render);
    assert e[..|e| - 1] == Entries(ts, render);
  }

  /** After deleting the task at `index`, every remaining task is listed under a number
      that counts the remaining tasks contiguously from 1: those before `index` keep their
      number and those after it move up by one. */
  lemma ListingAfterDelete(ts: seq<Task>, index: int, render: Task -> string)
    requires 0 <= index < |ts|
    ensures var e := Entries(ts[..index] + ts[index + 1..], render);
      |e| == |ts| - 1 &&
      (forall k :: 0 <= k < index ==> e[k] == Entry(k + 1, render(ts[k]))) &&
      (forall k :: index <= k < |e| ==> e[k] == Entry(k + 1, render(ts[k + 1])))
  {
  }

  /** Appends the lines of a report over `ts` to `response`, one task at a time, as both
      report builders do once they have their tasks. */
  method AppendEntries(response: string, ts: seq<Task>, render: Task -> string) returns (r: string)
    ensures r == response + Join(Entries(ts, render))
  {
    r := response;
    ghost var lines := Entries(ts, render);
    for i := 0 to |ts|
      invariant r == response + Join(lines[..i])
    {
      assert lines[..i + 1][..i] == lines[..i];
      r := r + "\t" + NatToString(i + 1) + ". " + render(ts[i]) + "\n";
    }
    assert lines[..|ts|] == lines;
  }

  // ---------------------------------------------------------------------------
  // Keyword search

  /** The tasks of `ts` whose description contains `keyword`, in their order in `ts`. */
  function Matching(ts: seq<Task>, keyword: string): (r: seq<Task>)
    ensures |r| <= |ts|
    ensures forall t :: t in r ==> t in ts && Contains(t.description, keyword)
  {
    if ts == [] then []
    else
      var last := ts[|ts| - 1];
      Matching(ts[..|ts| - 1], keyword) + (if Contains(last.description, keyword) then [last] else [])
  }

  /** The positions in `ts` of the tasks `Matching` selects, in increasing order. */
  function MatchIndices(ts: seq<Task>, keyword: string): seq<nat>
  {
    if ts == [] then []
    else
      MatchIndices(ts[..|ts| - 1], keyword) + (if Contains(ts[|ts| - 1].description, keyword) then [|ts| - 1] else [])
  }

  /** `r` is the selection of the positions `idx` from `ts`, those positions strictly
      increase, and they are exactly the positions whose description contains `keyword`. */
  ghost predicate IsOrderedSelection(r: seq<Task>, idx: seq<nat>, ts: seq<Task>, keyword: string)
  {
    |idx| == |r| &&
    (forall j :: 0 <= j < |idx| ==> idx[j] < |ts| && r[j] == ts[idx[j]]) &&
    (forall j, j' :: 0 <= j < j' < |idx| ==> idx[j] < idx[j']) &&
    (forall i: nat :: i < |ts| ==> (Contains(ts[i].description, keyword) <==> i in idx))
  }

  /** The search result is exactly the subsequence of tasks whose description contains the
      keyword, taken in their original order, with nothing left out and nothing repeated. */
  lemma {:induction false} MatchingIsOrderedSelection(ts: seq<Task>, keyword: string)
    ensures IsOrderedSelection(Matching(ts, keyword), MatchIndices(ts, keyword), ts, keyword)
  {
    if ts != [] {
      var n := |ts| - 1;
      var p := ts[..n];
      MatchingIsOrderedSelection(p, keyword);
      var r, idx := Matching(ts, keyword), MatchIndices(ts, keyword);
      assert forall i :: 0 <= i < n ==> ts[i] == p[i];
      forall i: nat | i < |ts|
        ensures Contains(ts[i].description, keyword) <==> i in idx
      {
        if i < n {
          assert i in MatchIndices(p, keyword) ==> i in idx;
          assert i != n;
        }
      }
    }
  }

  /** Every task whose description contains the keyword is in the search result. */
  lemma MatchingComplete(ts: seq<Task>, keyword: string, i: int)
    requires 0 <= i < |ts| && Contains(ts[i].description, keyword)
    ensures ts[i] in Matching(ts, keyword)
  {
    MatchingIsOrderedSelection(ts, keyword);
    var idx := MatchIndices(ts, keyword);
    var j :| 0 <= j < |idx| && idx[j] == i;
    assert Matching(ts, keyword)[j] == ts[i];
  }

  /** The search result is empty exactly when no description contains the keyword,
      in particular on an empty list. */
  lemma MatchingEmptyIff(ts: seq<Task>, keyword: string)
    ensures Matching(ts, keyword) == [] <==> forall i :: 0 <= i < |ts| ==> !Contains(ts[i].description, keyword)
  {
    if Matching(ts, keyword) == [] {
      forall i | 0 <= i < |ts|
        ensures !Contains(ts[i].description, keyword)
      {
        if Contains(ts[i].description, keyword) {
          MatchingComplete(ts, keyword, i);
        }
      }
    } else {
      var t := Matching(ts, keyword)[0];
      var i :| 0 <= i < |ts| && ts[i] == t;
    }
  }

  /** Searching for the empty keyword selects every task, since every description
      contains the empty string. */
  lemma {:induction false} MatchingEmptyKeyword(ts: seq<Task>)
    ensures Matching(ts, "") == ts
  {
    if ts != [] {
      MatchingEmptyKeyword(ts[..|ts| - 1]);
      ContainsEmpty(ts[|ts| - 1].description);
    }
  }

  // ---------------------------------------------------------------------------
  // The list itself

  class TaskList {
    /** The tasks, in the order they were added. */
    var tasks: seq<Task>

    /** `TaskList(ArrayList<Task>)`: a list holding the given tasks, in their order. */
    constructor FromTasks(initial: seq<Task>)
      ensures tasks == initial
    {
      tasks := initial;
    }

    /** `TaskList()`: an empty list. */
    constructor ()
      ensures tasks == []
    {
      tasks := [];
    }

    /** `addTask`: `task` goes at the end and every earlier task keeps its place. */
    method AddTask(task: Task)
      modifies this
      ensures |tasks| == |old(tasks)| + 1
      ensures tasks[..|old(tasks)|] == old(tasks) && tasks[|old(tasks)|] == task
    {
      tasks := tasks + [task];
    }

    /** `deleteTask`: removes and returns the task at `index`; the others keep their
        relative order, those after it moving up by one. */
    method DeleteTask(index: int) returns (removed: Task)
      requires 0 <= index < |tasks|
      modifies this
      ensures removed == old(tasks)[index]
      ensures tasks == old(tasks)[..index] + old(tasks)[index + 1..]
      ensures |tasks| == |old(tasks)| - 1
      ensures forall k :: 0 <= k < index ==> tasks[k] == old(tasks)[k]
      ensures forall k :: index <= k < |tasks| ==> tasks[k] == old(tasks)[k + 1]
    {
      removed := tasks[index];
      tasks := tasks[..index] + tasks[index + 1..];
    }

    /** `markTaskAsDone`: the task at `index` becomes done and is returned; every
        other task, and the task's own kind and description, stay as they were. */
    method MarkTaskAsDone(index: int) returns (task: Task)
      requires 0 <= index < |tasks|
      modifies this
      ensures tasks == old(tasks)[index := MarkAsDone(old(tasks)[index])]
      ensures task == tasks[index] && task.done
      ensures task.kind == old(tasks)[index].kind && task.description == old(tasks)[index].description
    {
      tasks := tasks[index := MarkAsDone(tasks[index])];
      task := tasks[index];
    }

    /** `unmarkTaskAsDone`: the task at `index` becomes not done and is returned; every
        other task, and the task's own kind and description, stay as they were. */
    method UnmarkTaskAsDone(index: int) returns (task: Task)
      requires 0 <= index < |tasks|
      modifies this
      ensures tasks == old(tasks)[index := UnmarkAsDone(old(tasks)[index])]
      ensures task == tasks[index] && !task.done
      ensures task.kind == old(tasks)[index].kind && task.description == old(tasks)[index].description
    {
      tasks := tasks[index := UnmarkAsDone(tasks[index])];
      task := tasks[index];
    }

    /** `size`: the number of tasks held. */
    function Size(): (n: nat)
      reads this
      ensures n == |tasks|
    {
      |tasks|
    }

    /** `listTasks`: fails exactly when the list is empty; otherwise the header followed
        by one line per task, in order, numbered from 1. The list is not changed. */
    method ListTasks(render: Task -> string) returns (r: Result<string>)
      ensures r.Fail? <==> tasks == []
      ensures r.Fail? ==> r.message == EmptyListMessage
      ensures r.Ok? ==> r.value == ListHeader + Join(Entries(tasks, render))
    {
      if tasks == [] {
        return Fail(EmptyListMessage);
      }
      var response := AppendEntries(ListHeader, tasks, render);
      return Ok(response);
    }

    /** The records `saveTasks` writes, one per task, in list order. */
    method SaveTasks(toSaveFormat: Task -> string) returns (records: seq<string>)
      ensures |records| == |tasks|
      ensures forall k :: 0 <= k < |tasks| ==> records[k] == toSaveFormat(tasks[k])
    {
      records := [];
      for i := 0 to |tasks|
        invariant |records| == i
        invariant forall k :: 0 <= k < i ==> records[k] == toSaveFormat(tasks[k])
      {
        records := records + [toSaveFormat(tasks[i])];
      }
    }

    /** `findTasks`: selects, in order, the tasks whose description contains `keyword`;
        fails exactly when there are none, otherwise the header followed by one line per
        selected task, numbered from 1 among the selected ones. The list is not changed. */
    method FindTasks(keyword: string, render: Task -> string) returns (r: Result<string>)
      ensures r.Fail? <==> forall i :: 0 <= i < |tasks| ==> !Contains(tasks[i].description, keyword)
      ensures r.Fail? ==> r.message == NoMatchMessage(keyword)
      ensures r.Ok? ==> r.value == FindHeader + Join(Entries(Matching(tasks, keyword), render))
    {
      var matchingTasks: seq<Task> := [];
      for i := 0 to |tasks|
        invariant matchingTasks == Matching(tasks[..i], keyword)
      {
        assert tasks[..i + 1][..i] == tasks[..i];
        if Contains(tasks[i].description, keyword) {
          matchingTasks := matchingTasks + [tasks[i]];
        }
      }
      assert tasks[..|tasks|] == tasks;
      MatchingEmptyIff(tasks, keyword);
      if matchingTasks == [] {
        return Fail(NoMatchMessage(keyword));
      }
      var response := AppendEntries(FindHeader, matchingTasks, render);
      return Ok(response);
    }
  }
}

/** What a caller can conclude from the task list's contracts alone. */
module TaskListClient {
  import opened Tasks
  import opened TaskLists

  /** Adding two tasks to a new list, marking the first and listing shows both tasks in
      the order they were added, numbered 1 and 2, the first one done. */
  method AddMarkList(first: Task, second: Task, render: Task -> string) returns (r: Result<string>)
    ensures r == Ok(ListHeader + Entry(1, render(MarkAsDone(first))) + Entry(2, render(second)))
  {
    var list := new TaskList();
    list.AddTask(first);
    list.AddTask(second);
    var marked := list.MarkTaskAsDone(0);
    assert list.tasks == [MarkAsDone(first)] + [second];
    assert [] + [MarkAsDone(first)] == [MarkAsDone(first)];
    assert Entries([], render) == [];
    ListingAfterAdd([], MarkAsDone(first), render);
    ListingAfterAdd([MarkAsDone(first)], second, render);
    r := list.ListTasks(render);
    var e1, e2 := Entry(1, render(MarkAsDone(first))), Entry(2, render(second));
    assert r.value == ListHeader + (e1 + e2);
    assert ListHeader + (e1 + e2) == ListHeader + e1 + e2;
  }
}
