/** A task as the task list sees it. The `Task` class hierarchy itself is not part of
    this model: only what the task list reads (the description and the completion flag)
    and what `markAsDone` / `unmarkAsDone` change is given meaning here. */
module Tasks {

  /** The variant of a task, with its date fields kept as the text they were given in. */
  datatype Kind = Todo | Deadline(due: string) | Event(start: string, end: string)

  datatype Task = Task(kind: Kind, description: string, done: bool)

  /** `Task.markAsDone`: the task is done afterwards; its kind and description are kept. */
  function MarkAsDone(t: Task): (r: Task)
    ensures r.done
    ensures r.kind == t.kind && r.description == t.description
  {
    t.(done := true)
  }

  /** `Task.unmarkAsDone`: the task is not done afterwards; its kind and description are kept. */
  function UnmarkAsDone(t: Task): (r: Task)
    ensures !r.done
    ensures r.kind == t.kind && r.description == t.description
  {
    t.(done := false)
  }

  /** Marking twice is the same as marking once. */
  lemma MarkIdempotent(t: Task)
    ensures MarkAsDone(MarkAsDone(t)) == MarkAsDone(t)
  {
  }

  /** Unmarking twice is the same as unmarking once. */
  lemma UnmarkIdempotent(t: Task)
    ensures UnmarkAsDone(UnmarkAsDone(t)) == UnmarkAsDone(t)
  {
  }

  /** Marking then unmarking leaves the task not done, and gives back a task that was
      not done before, so whatever text renders it is restored. */
  lemma MarkThenUnmark(t: Task)
    ensures !UnmarkAsDone(MarkAsDone(t)).done
    ensures !t.done ==> UnmarkAsDone(MarkAsDone(t)) == t
  {
  }
}
