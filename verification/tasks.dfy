/**
  The session's list of live tasks. A task's own protocol is not modelled;
  only its identity and whether it has finished matter to the session.
 */
module Tasks {

  datatype Task = Task(id: nat, finished: bool)

  /** `create_new_task`: the new task goes to the back of the list. */
  function CreateNewTask(tasks: seq<Task>, t: Task): (r: seq<Task>)
    ensures |r| == |tasks| + 1
    ensures r[..|tasks|] == tasks
    ensures r[|tasks|] == t
  {
    tasks + [t]
  }

  /**
    `destroy_finished_tasks`: drops every finished task and keeps the others,
    each as many times as it occurred.
   */
  function DestroyFinishedTasks(tasks: seq<Task>): (r: seq<Task>)
    ensures forall i :: 0 <= i < |r| ==> !r[i].finished
    ensures forall t :: multiset(r)[t] == if t.finished then 0 else multiset(tasks)[t]
    ensures |r| <= |tasks|
  {
    if |tasks| == 0 then []
    else
      var rest := DestroyFinishedTasks(tasks[1..]);
      assert tasks == [tasks[0]] + tasks[1..];
      if tasks[0].finished then rest else [tasks[0]] + rest
  }

  /** The sweep keeps relative order: it works element by element across a concatenation. */
  lemma {:induction false} DestroyDistributes(a: seq<Task>, b: seq<Task>)
    ensures DestroyFinishedTasks(a + b) == DestroyFinishedTasks(a) + DestroyFinishedTasks(b)
    decreases |a|
  {
    if |a| == 0 {
      assert a + b == b;
    } else {
      assert (a + b)[1..] == a[1..] + b;
      DestroyDistributes(a[1..], b);
    }
  }

  /** Sweeping a swept list changes nothing. */
  lemma {:induction false} DestroyIdempotent(tasks: seq<Task>)
    ensures DestroyFinishedTasks(DestroyFinishedTasks(tasks)) == DestroyFinishedTasks(tasks)
    decreases |tasks|
  {
    if |tasks| > 0 {
      DestroyIdempotent(tasks[1..]);
      if !tasks[0].finished {
        var rest := DestroyFinishedTasks(tasks[1..]);
        assert ([tasks[0]] + rest)[1..] == rest;
      }
    }
  }

  /** A list with no finished task survives the sweep unchanged. */
  lemma {:induction false} DestroyKeepsUnfinished(tasks: seq<Task>)
    requires forall i :: 0 <= i < |tasks| ==> !tasks[i].finished
    ensures DestroyFinishedTasks(tasks) == tasks
    decreases |tasks|
  {
    if |tasks| > 0 {
      DestroyKeepsUnfinished(tasks[1..]);
      assert tasks == [tasks[0]] + tasks[1..];
    }
  }

  /** Creating a task and sweeping: old tasks are swept as before, the new one is kept unless finished. */
  lemma CreateThenDestroy(tasks: seq<Task>, t: Task)
    ensures DestroyFinishedTasks(CreateNewTask(tasks, t)) ==
      DestroyFinishedTasks(tasks) + (if t.finished then [] else [t])
  {
    DestroyDistributes(tasks, [t]);
    assert DestroyFinishedTasks([t]) == (if t.finished then [] else [t]) by {
      assert [t][1..] == [];
    }
  }

  /**
    A task reports itself finished: every task with identifier `id` gets its
    flag set; nothing else changes.
   */
  function MarkFinished(tasks: seq<Task>, id: nat): (r: seq<Task>)
    ensures |r| == |tasks|
    ensures forall i :: 0 <= i < |r| ==> r[i].id == tasks[i].id
    ensures forall i :: 0 <= i < |r| ==> r[i].finished == (tasks[i].finished || tasks[i].id == id)
  {
    seq(|tasks|, i requires 0 <= i < |tasks| =>
      if tasks[i].id == id then tasks[i].(finished := true) else tasks[i])
  }
}
