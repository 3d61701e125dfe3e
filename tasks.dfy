/** The task list of the `TaskManager` component: the records it keeps,
    the views it derives from them, and the handlers that replace them. */
module Tasks {
  import opened JsArray
  import opened JsString

  /** A to-do item; `id` is the creation timestamp given to it on add. */
  datatype Task = Task(id: int, text: string, completed: bool)

  /** Some task in `tasks` carries `id`. */
  predicate HasId(tasks: seq<Task>, id: int)
  {
    exists i :: 0 <= i < |tasks| && tasks[i].id == id
  }

  /** No two tasks share an id. */
  predicate UniqueIds(tasks: seq<Task>)
  {
    forall i, j :: 0 <= i < j < |tasks| ==> tasks[i].id != tasks[j].id
  }

  // ---------------------------------------------------------------------
  // toggleTask

  /** The toggle of one record: its `completed` flag flipped when it
      carries `id`, the record itself otherwise. */
  function Flip(t: Task, id: int): Task
  {
    if t.id == id then t.(completed := !t.completed) else t
  }

  /** The list `toggleTask(id)` stores: only the `completed` flag of the
      tasks carrying `id` changes; length, order, ids and texts stay. */
  function Toggled(tasks: seq<Task>, id: int): (r: seq<Task>)
    ensures |r| == |tasks|
    ensures forall i :: 0 <= i < |tasks| ==> r[i].id == tasks[i].id && r[i].text == tasks[i].text
    ensures forall i :: 0 <= i < |tasks| ==>
      r[i].completed == if tasks[i].id == id then !tasks[i].completed else tasks[i].completed
  {
    if tasks == [] then [] else [Flip(tasks[0], id)] + Toggled(tasks[1..], id)
  }

  /** Toggling the same id twice gives back the original list. */
  lemma ToggleTwiceRestores(tasks: seq<Task>, id: int)
    ensures Toggled(Toggled(tasks, id), id) == tasks
  {
  }

  /** Toggling an id no task carries changes nothing. */
  lemma ToggleAbsentIsNoop(tasks: seq<Task>, id: int)
    requires !HasId(tasks, id)
    ensures Toggled(tasks, id) == tasks
  {
  }

  /** Toggling keeps the ids, so it keeps them unique. */
  lemma ToggleKeepsUniqueIds(tasks: seq<Task>, id: int)
    requires UniqueIds(tasks)
    ensures UniqueIds(Toggled(tasks, id))
  {
  }

  // ---------------------------------------------------------------------
  // deleteTask

  /** The list `deleteTask(id)` stores: `tasks.filter(task => task.id !== id)`,
      the tasks whose id differs. */
  function Without(tasks: seq<Task>, id: int): (r: seq<Task>)
    ensures |r| <= |tasks|
    ensures forall t :: t in r <==> t in tasks && t.id != id
  {
    Filter(tasks, (t: Task) => t.id != id)
  }

  /** Delete keeps exactly the tasks whose id differs, each as often as
      before, in their original order. */
  lemma DeleteKeepsOthers(tasks: seq<Task>, id: int)
    ensures IsSubsequence(Without(tasks, id), tasks)
    ensures forall t :: t in Without(tasks, id) <==> t in tasks && t.id != id
    ensures forall t :: multiset(Without(tasks, id))[t] == if t.id != id then multiset(tasks)[t] else 0
    ensures !HasId(Without(tasks, id), id)
  {
    var keep := (t: Task) => t.id != id;
    FilterIsSubsequence(tasks, keep);
    forall t ensures multiset(Without(tasks, id))[t] == if t.id != id then multiset(tasks)[t] else 0 {
      FilterMultiplicity(tasks, keep, t);
    }
    var r := Without(tasks, id);
    forall i | 0 <= i < |r| ensures r[i].id != id {
      assert r[i] in r;
    }
  }

  /** Deleting an id no task carries is a no-op. */
  lemma DeleteAbsentIsNoop(tasks: seq<Task>, id: int)
    requires !HasId(tasks, id)
    ensures Without(tasks, id) == tasks
  {
    forall t | t in tasks ensures t.id != id {
      var i :| 0 <= i < |tasks| && tasks[i] == t;
    }
    FilterKeepsAll(tasks, (t: Task) => t.id != id);
  }

  /** Deleting twice is deleting once. */
  lemma DeleteIdempotent(tasks: seq<Task>, id: int)
    ensures Without(Without(tasks, id), id) == Without(tasks, id)
  {
    DeleteKeepsOthers(tasks, id);
    DeleteAbsentIsNoop(Without(tasks, id), id);
  }

  /** In a list with unique ids, deleting a present id removes exactly one
      task. */
  lemma {:induction false} DeleteRemovesOne(tasks: seq<Task>, id: int)
    requires UniqueIds(tasks) && HasId(tasks, id)
    ensures |Without(tasks, id)| == |tasks| - 1
  {
    var rest := tasks[1..];
    assert UniqueIds(rest) by {
      forall i, j | 0 <= i < j < |rest| ensures rest[i].id != rest[j].id {
        assert rest[i] == tasks[i + 1] && rest[j] == tasks[j + 1];
      }
    }
    if tasks[0].id == id {
      assert !HasId(rest, id) by {
        forall i | 0 <= i < |rest| ensures rest[i].id != id {
          assert rest[i] == tasks[i + 1];
        }
      }
      DeleteAbsentIsNoop(rest, id);
    } else {
      var k :| 0 <= k < |tasks| && tasks[k].id == id;
      assert rest[k - 1] == tasks[k];
      DeleteRemovesOne(rest, id);
    }
  }

  /** Deleting keeps ids unique. */
  lemma {:induction false} DeleteKeepsUniqueIds(tasks: seq<Task>, id: int)
    requires UniqueIds(tasks)
    ensures UniqueIds(Without(tasks, id))
  {
    if tasks != [] {
      var rest := tasks[1..];
      assert UniqueIds(rest) by {
        forall i, j | 0 <= i < j < |rest| ensures rest[i].id != rest[j].id {
          assert rest[i] == tasks[i + 1] && rest[j] == tasks[j + 1];
        }
      }
      DeleteKeepsUniqueIds(rest, id);
      if tasks[0].id != id {
        var tail := Without(rest, id);
        var r := Without(tasks, id);
        assert r == [tasks[0]] + tail;
        forall j | 0 <= j < |tail| ensures tail[j].id != tasks[0].id {
          assert tail[j] in rest;
          var k :| 0 <= k < |rest| && rest[k] == tail[j];
          assert rest[k] == tasks[k + 1];
        }
        forall i, j | 0 <= i < j < |r| ensures r[i].id != r[j].id {
          assert r[j] == tail[j - 1];
          if i > 0 {
            assert r[i] == tail[i - 1];
          }
        }
      }
    }
  }

  // ---------------------------------------------------------------------
  // filteredTasks and the counts on the filter buttons

  /** Whether a task is shown under the filter value: `active` shows the
      incomplete tasks, `completed` the completed ones, any other value all. */
  predicate Shows(filter: string, t: Task)
    ensures filter != "active" && filter != "completed" ==> Shows(filter, t)
  {
    if filter == "active" then !t.completed
    else if filter == "completed" then t.completed
    else true
  }

  /** `filteredTasks`: the tasks the list shows under `filter`. */
  function FilteredTasks(tasks: seq<Task>, filter: string): (r: seq<Task>)
    ensures |r| <= |tasks|
    ensures forall t :: t in r <==> t in tasks && Shows(filter, t)
  {
    Filter(tasks, (t: Task) => Shows(filter, t))
  }

  /** The filtered view is an order-preserving subsequence of the list that
      keeps exactly the incomplete tasks under `active`, exactly the
      completed ones under `completed`, and everything otherwise. */
  lemma FilteredTasksSelect(tasks: seq<Task>, filter: string)
    ensures IsSubsequence(FilteredTasks(tasks, filter), tasks)
    ensures forall t ::
      multiset(FilteredTasks(tasks, filter))[t] == (if Shows(filter, t) then multiset(tasks)[t] else 0)
    ensures filter == "active" ==>
      forall t :: t in FilteredTasks(tasks, filter) <==> t in tasks && !t.completed
    ensures filter == "completed" ==>
      forall t :: t in FilteredTasks(tasks, filter) <==> t in tasks && t.completed
    ensures filter != "active" && filter != "completed" ==> FilteredTasks(tasks, filter) == tasks
  {
    var keep := (t: Task) => Shows(filter, t);
    FilterIsSubsequence(tasks, keep);
    forall t ensures multiset(FilteredTasks(tasks, filter))[t] == if Shows(filter, t) then multiset(tasks)[t] else 0 {
      FilterMultiplicity(tasks, keep, t);
    }
    if filter != "active" && filter != "completed" {
      FilterKeepsAll(tasks, keep);
    }
  }

  /** The number on the Active button: at most the All count, and zero
      exactly when every task is completed. */
  function ActiveCount(tasks: seq<Task>): (r: nat)
    ensures r <= |tasks|
    ensures r == 0 <==> forall t :: t in tasks ==> t.completed
  {
    var kept := Filter(tasks, (t: Task) => !t.completed);
    assert kept != [] ==> kept[0] in kept;
    |kept|
  }

  /** The number on the Completed button: at most the All count, and zero
      exactly when no task is completed. */
  function CompletedCount(tasks: seq<Task>): (r: nat)
    ensures r <= |tasks|
    ensures r == 0 <==> forall t :: t in tasks ==> !t.completed
  {
    var kept := Filter(tasks, (t: Task) => t.completed);
    assert kept != [] ==> kept[0] in kept;
    |kept|
  }

  /** The Active and Completed counts add up to the All count. */
  lemma CountsAddUp(tasks: seq<Task>)
    ensures ActiveCount(tasks) + CompletedCount(tasks) == |tasks|
  {
    FilterComplementLength(tasks, (t: Task) => !t.completed, (t: Task) => t.completed);
  }

  /** Each count is the length of the view its button selects, although
      both are computed from the full list. */
  lemma CountsMatchViews(tasks: seq<Task>)
    ensures ActiveCount(tasks) == |FilteredTasks(tasks, "active")|
    ensures CompletedCount(tasks) == |FilteredTasks(tasks, "completed")|
    ensures |tasks| == |FilteredTasks(tasks, "all")|
  {
    FilterCongruent(tasks, (t: Task) => !t.completed, (t: Task) => Shows("active", t));
    FilterCongruent(tasks, (t: Task) => t.completed, (t: Task) => Shows("completed", t));
    FilteredTasksSelect(tasks, "all");
  }

  // ---------------------------------------------------------------------
  // The component's state

  /** The state of one mounted `TaskManager`: the task list, the text
      input's draft and the selected filter. */
  class TaskManager {
    var tasks: seq<Task>
    var taskInput: string
    var filter: string

    /** Mounting: the list read back from storage, an empty draft and the
        `all` filter. */
    constructor (stored: seq<Task>)
      ensures tasks == stored && taskInput == "" && filter == "all"
    {
      tasks := stored;
      taskInput := "";
      filter := "all";
    }

    /** The list as the component shows it. */
    function Visible(): seq<Task>
      reads this
    {
      FilteredTasks(tasks, filter)
    }

    /** The text input's `onChange`: the draft becomes what was typed. */
    method SetTaskInput(text: string)
      modifies this
      ensures taskInput == text
      ensures tasks == old(tasks) && filter == old(filter)
    {
      taskInput := text;
    }

    /** A filter button: selects the view. */
    method SetFilter(f: string)
      modifies this
      ensures filter == f
      ensures tasks == old(tasks) && taskInput == old(taskInput)
    {
      filter := f;
    }

    /** `addTask`, with `now` standing for `Date.now()`. A blank draft
        changes nothing; otherwise one incomplete task holding the draft as
        typed is appended and the draft is cleared. When `now` is not in use
        yet, ids stay unique. */
    method AddTask(now: int)
      modifies this
      ensures filter == old(filter)
      ensures IsBlank(old(taskInput)) ==> tasks == old(tasks) && taskInput == old(taskInput)
      ensures !IsBlank(old(taskInput)) ==>
        tasks == old(tasks) + [Task(now, old(taskInput), false)] && taskInput == ""
      ensures UniqueIds(old(tasks)) && !HasId(old(tasks), now) ==> UniqueIds(tasks)
    {
      if Trim(taskInput) != [] {
        tasks := tasks + [Task(now, taskInput, false)];
        taskInput := "";
      }
    }

    /** `toggleTask(id)`: a task's checkbox. */
    method ToggleTask(id: int)
      modifies this
      ensures tasks == Toggled(old(tasks), id)
      ensures taskInput == old(taskInput) && filter == old(filter)
      ensures UniqueIds(old(tasks)) ==> UniqueIds(tasks)
    {
      tasks := Toggled(tasks, id);
    }

    /** `deleteTask(id)`: a task's Delete button. */
    method DeleteTask(id: int)
      modifies this
      ensures tasks == Without(old(tasks), id)
      ensures taskInput == old(taskInput) && filter == old(filter)
      ensures UniqueIds(old(tasks)) ==> UniqueIds(tasks)
    {
      if UniqueIds(tasks) {
        DeleteKeepsUniqueIds(tasks, id);
      }
      tasks := Without(tasks, id);
    }
  }

  /** A session from an empty list: add "Buy milk" and "Call Bob", tick the
      first, select `active`; only "Call Bob" is shown, and the buttons read
      All (2), Active (1), Completed (1). */
  method ExampleSession()
  {
    var m := new TaskManager([]);
    m.SetTaskInput("Buy milk");
    assert !IsWhitespace(m.taskInput[0]);
    m.AddTask(1);
    m.SetTaskInput("Call Bob");
    assert !IsWhitespace(m.taskInput[0]);
    m.AddTask(2);
    m.ToggleTask(1);
    m.SetFilter("active");
    var s := m.tasks;
    assert s == [Task(1, "Buy milk", true), Task(2, "Call Bob", false)];
    assert s[1..] == [Task(2, "Call Bob", false)] && s[1..][1..] == [];
    assert FilteredTasks(s[1..], "active") == s[1..];
    assert Filter(s[1..], (t: Task) => t.completed) == [];
    assert m.Visible() == [Task(2, "Call Bob", false)];
    CountsMatchViews(s);
    assert ActiveCount(s) == 1 && CompletedCount(s) == 1 && |s| == 2;
  }
}
