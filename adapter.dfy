// The list adapter: it holds the task list, recomputes the cached `posHeadOther` on
// every count and view-type request and when it binds a task row, replaces its list on `setList`, and applies
// the popup menu's actions to the task of a row.

module Adapter {
  import opened Tasks
  import opened Sections

  /** The popup menu's four entries. */
  datatype MenuItem = EditItem | RemoveItem | FavoriteItem | DoneItem

  /** The action ids the adapter hands to the presenter's `updateTask`. */
  datatype TaskAction = ActionRemove | ActionFavorite | ActionDone

  /** What a menu click sends to the presenter: `editTask(task)` or
      `updateTask(action, task)`. */
  datatype Dispatch = EditTask(task: Task) | UpdateTask(action: TaskAction, task: Task)

  /** The popup's click handler: edit and remove pass the task on unchanged, the
      favorite and done entries flip their flag first. */
  function MenuDispatch(item: MenuItem, t: Task): (d: Dispatch)
    ensures item == EditItem <==> d.EditTask?
    ensures item == EditItem || item == RemoveItem ==> d.task == t
    ensures item == RemoveItem ==> d == UpdateTask(ActionRemove, t)
    ensures item == FavoriteItem ==> d.UpdateTask? && d.action == ActionFavorite
    ensures item == DoneItem ==> d.UpdateTask? && d.action == ActionDone
    ensures item == FavoriteItem ==> d.task.favorite != t.favorite && d.task.done == t.done
    ensures item == DoneItem ==> d.task.done != t.done && d.task.favorite == t.favorite
    ensures d.task.id == t.id && d.task.title == t.title && d.task.description == t.description
  {
    match item
    case EditItem => EditTask(t)
    case RemoveItem => UpdateTask(ActionRemove, t)
    case FavoriteItem => UpdateTask(ActionFavorite, ToggleFavorite(t))
    case DoneItem => UpdateTask(ActionDone, ToggleDone(t))
  }

  /** Clicking the same flag entry twice leaves the task as it was. */
  lemma {:induction false} MenuFlagTwice(item: MenuItem, t: Task)
    requires item == FavoriteItem || item == DoneItem
    ensures MenuDispatch(item, MenuDispatch(item, t).task).task == t
  {
    if item == FavoriteItem {
      ToggleFavoriteInvolutive(t);
    } else {
      ToggleDoneInvolutive(t);
    }
  }

  class TaskArrayAdapter {
    var taskList: seq<Task>
    var posHeadOther: int

    /** The cache agrees with the current list. `setList` does not refresh it; every
        reader below recomputes it before use, so a stale value is never read. */
    ghost predicate CacheFresh()
      reads this
    {
      posHeadOther == PosHeadOther(taskList)
    }

    constructor ()
      ensures taskList == [] && posHeadOther == 0
      ensures CacheFresh()
    {
      taskList := [];
      posHeadOther := 0;
    }

    /** `getItemCount`. */
    method GetItemCount() returns (n: int)
      modifies this`posHeadOther
      ensures CacheFresh()
      ensures n == ItemCount(taskList)
    {
      posHeadOther := IndexOfFirstNonFavorite(taskList) + 1;
      if |taskList| > 0 {
        if taskList[0].favorite && posHeadOther > 0 {
          n := |taskList| + 2;
        } else {
          n := |taskList|;
        }
      } else {
        n := |taskList|;
      }
    }

    /** `getItemViewType`; `posHeadOther > 0` is tested before `taskList[0]` is read. */
    method GetItemViewType(position: int) returns (t: int)
      modifies this`posHeadOther
      ensures CacheFresh()
      ensures t == ViewType(taskList, position)
    {
      posHeadOther := IndexOfFirstNonFavorite(taskList) + 1;
      if (posHeadOther > 0 && taskList[0].favorite) && (position == 0 || position == posHeadOther) {
        t := ID_HEADER;
      } else {
        t := ID_ELEMENT;
      }
    }

    /** The offset arithmetic of `onBindViewHolder` for an element row. */
    method ElementOffset(position: int) returns (offset: int)
      requires IsElementRow(taskList, position)
      modifies this`posHeadOther
      ensures CacheFresh()
      ensures offset == RowOffset(taskList, position)
    {
      posHeadOther := IndexOfFirstNonFavorite(taskList) + 1;
      offset := if posHeadOther > 0 && taskList[0].favorite then 1 else 0;
      if 1 <= posHeadOther <= position && taskList[0].favorite {
        offset := 2;
      }
    }

    /** `onBindViewHolder`: what row `position` shows, a header with its title or the
        task at `position - offset`. The framework binds only rows below the count, with
        a holder whose `viewType` is the one `getItemViewType` gave for that row. Only
        the element branch refreshes the cache. */
    method OnBindViewHolder(position: int, viewType: int) returns (row: Row)
      requires 0 <= position < ItemCount(taskList)
      requires viewType == ViewType(taskList, position)
      modifies this`posHeadOther
      ensures viewType == ID_HEADER ==> posHeadOther == old(posHeadOther)
      ensures viewType == ID_ELEMENT ==> CacheFresh()
      ensures |Rows(taskList)| == ItemCount(taskList) && row == Rows(taskList)[position]
    {
      RowsAgree(taskList, position);
      if viewType == ID_HEADER {
        if position == 0 {
          row := Header(TITLE_FAVORITE);
        } else {
          row := Header(TITLE_OTHERS);
        }
      } else {
        var offset := ElementOffset(position);
        row := Element(taskList[position - offset]);
      }
    }

    /** `setList`: the adapter's list becomes `newList`, element for element. */
    method SetList(newList: seq<Task>)
      modifies this`taskList
      ensures taskList == newList
      ensures posHeadOther == old(posHeadOther)
    {
      taskList := newList;
    }

    /** A popup menu click on the task shown at element row `position`: the more button
        picks `taskList[position - offset]`, and the chosen entry is applied to it. The
        task object is shared with the list, so the flipped flag is visible in the list
        too. The cache is not touched. */
    method OnMenuItemClick(position: int, item: MenuItem) returns (d: Dispatch)
      requires IsElementRow(taskList, position)
      modifies this`taskList
      ensures var i := RowToIndex(old(taskList), position);
        d == MenuDispatch(item, old(taskList)[i]) && taskList == old(taskList)[i := d.task]
    {
      var i := RowToIndex(taskList, position);
      d := MenuDispatch(item, taskList[i]);
      taskList := taskList[i := d.task];
    }
  }
}
