// The planner's task record and the two flag toggles the list's popup menu applies to it.

module Tasks {

  /** One planner task. The storage assigns `id`; `favorite` promotes the task to the
      first display section and `done` marks it complete (shown struck through). */
  datatype Task = Task(id: int, title: string, description: string, favorite: bool, done: bool)

  /** The "favorite" menu action: negates `favorite` and keeps every other field. */
  function ToggleFavorite(t: Task): (r: Task)
    ensures r.favorite == !t.favorite
    ensures r.id == t.id && r.title == t.title && r.description == t.description
    ensures r.done == t.done
  {
    t.(favorite := !t.favorite)
  }

  /** The "done" menu action: negates `done` and keeps every other field. */
  function ToggleDone(t: Task): (r: Task)
    ensures r.done == !t.done
    ensures r.id == t.id && r.title == t.title && r.description == t.description
    ensures r.favorite == t.favorite
  {
    t.(done := !t.done)
  }

  /** Choosing the same menu action twice restores the task. */
  lemma ToggleFavoriteInvolutive(t: Task)
    ensures ToggleFavorite(ToggleFavorite(t)) == t
  {
  }

  lemma ToggleDoneInvolutive(t: Task)
    ensures ToggleDone(ToggleDone(t)) == t
  {
  }

  /** The two toggles touch different flags, so their order does not matter. */
  lemma TogglesCommute(t: Task)
    ensures ToggleFavorite(ToggleDone(t)) == ToggleDone(ToggleFavorite(t))
  {
  }
}
