/** The counters under the task list, and the Pending count the email
    notification scan uses. */
module Stats {
  import opened Seqs
  import opened Tasks
  import TaskStore

  predicate IsCompleted(t: Task) { t.status == Completed }
  predicate IsPending(t: Task) { t.status == Pending }
  predicate IsHighPending(t: Task) { t.priority == High && t.status == Pending }

  /** `tasks.filter(t => t.status === 'Pending').length`. */
  function PendingCount(tasks: seq<Task>): (n: nat)
    ensures n <= |tasks|
    ensures n > 0 <==> exists t :: t in tasks && t.status == Pending
  {
    var pending := Filter(IsPending, tasks);
    assert pending != [] ==> pending[0] in pending;
    |pending|
  }

  datatype Counters = Counters(total: nat, completed: nat, pending: nat, highPriority: nat)

  /** Every task is either completed or pending, and the high-priority
      pending tasks are among the pending ones. */
  lemma {:induction false} StatusBalance(tasks: seq<Task>)
    ensures |Filter(IsCompleted, tasks)| + |Filter(IsPending, tasks)| == |tasks|
    ensures |Filter(IsHighPending, tasks)| <= |Filter(IsPending, tasks)|
  {
    if tasks != [] {
      StatusBalance(tasks[1..]);
    }
  }

  /** Total, Completed, Pending and High Priority (high-priority tasks still
      pending). Completed and Pending split Total, and High Priority is part
      of Pending. */
  function Count(tasks: seq<Task>): (c: Counters)
    ensures c.total == |tasks|
    ensures c.completed + c.pending == c.total
    ensures c.highPriority <= c.pending
    ensures c.pending > 0 <==> exists t :: t in tasks && t.status == Pending
  {
    StatusBalance(tasks);
    Counters(|tasks|, |Filter(IsCompleted, tasks)|, PendingCount(tasks), |Filter(IsHighPending, tasks)|)
  }

  /** The counters of a one-task store: Total is one, and the task counts
      under Completed, Pending or High Priority exactly when its status and
      priority say so. */
  lemma CountSingleton(t: Task)
    ensures Count([t]).total == 1
    ensures Count([t]).completed == (if t.status == Completed then 1 else 0)
    ensures Count([t]).pending == (if t.status == Pending then 1 else 0)
    ensures Count([t]).highPriority == (if t.status == Pending && t.priority == High then 1 else 0)
  {
    assert [t][1..] == [];
  }

  /** Counters of two stores laid end to end add up. */
  lemma CountAppend(a: seq<Task>, b: seq<Task>)
    ensures Count(a + b).completed == Count(a).completed + Count(b).completed
    ensures Count(a + b).pending == Count(a).pending + Count(b).pending
    ensures Count(a + b).highPriority == Count(a).highPriority + Count(b).highPriority
  {
    FilterConcat(IsCompleted, a, b);
    FilterConcat(IsPending, a, b);
    FilterConcat(IsHighPending, a, b);
  }

  /** Adding a task from the form (status Pending) raises Total and Pending
      by one, High Priority by one exactly for a high-priority task, and
      leaves Completed alone. */
  lemma CountAfterAdd(tasks: seq<Task>, data: TaskData, id: int, createdAt: string)
    requires data.status == Pending
    ensures Count(TaskStore.AddTask(tasks, data, id, createdAt)).total == Count(tasks).total + 1
    ensures Count(TaskStore.AddTask(tasks, data, id, createdAt)).completed == Count(tasks).completed
    ensures Count(TaskStore.AddTask(tasks, data, id, createdAt)).pending == Count(tasks).pending + 1
    ensures Count(TaskStore.AddTask(tasks, data, id, createdAt)).highPriority
         == Count(tasks).highPriority + (if data.priority == High then 1 else 0)
  {
    var t := NewTask(data, id, createdAt);
    assert TaskStore.AddTask(tasks, data, id, createdAt) == tasks + [t];
    CountAppend(tasks, [t]);
    assert Filter(IsPending, [t]) == [t];
    assert Filter(IsCompleted, [t]) == [];
  }

  /** With distinct ids, toggling a stored task moves it between the
      Completed and Pending counters and leaves Total unchanged. */
  lemma CountAfterToggle(tasks: seq<Task>, k: nat)
    requires UniqueIds(tasks)
    requires k < |tasks|
    ensures
      var after := Count(TaskStore.ToggleComplete(tasks, tasks[k].id));
      var before := Count(tasks);
      && after.total == before.total
      && (tasks[k].status == Pending ==> after.pending + 1 == before.pending && after.completed == before.completed + 1)
      && (tasks[k].status == Completed ==> after.pending == before.pending + 1 && after.completed + 1 == before.completed)
  {
    var id := tasks[k].id;
    var toggled := TaskStore.ToggleComplete(tasks, id);
    var flipped := tasks[k].(status := TaskStore.Flip(tasks[k].status));
    assert toggled[k] == flipped;
    assert toggled[..k] == tasks[..k];
    assert toggled[k + 1..] == tasks[k + 1..];
    assert tasks == tasks[..k] + ([tasks[k]] + tasks[k + 1..]);
    assert toggled == toggled[..k] + ([flipped] + toggled[k + 1..]);
    CountAppend(tasks[..k], [tasks[k]] + tasks[k + 1..]);
    CountAppend([tasks[k]], tasks[k + 1..]);
    CountAppend(tasks[..k], [flipped] + tasks[k + 1..]);
    CountAppend([flipped], tasks[k + 1..]);
  }

  function HasIdAndStatus(id: int, s: Status): Task -> bool {
    (t: Task) => t.id == id && t.status == s
  }

  /** Toggling any id, distinct or not, moves every Pending task carrying it
      to Completed and every Completed one to Pending, and keeps Total. */
  lemma {:induction false} CountAfterToggleAny(tasks: seq<Task>, id: int)
    ensures
      var after := Count(TaskStore.ToggleComplete(tasks, id));
      var before := Count(tasks);
      var movedOut := |Filter(HasIdAndStatus(id, Pending), tasks)|;
      var movedIn := |Filter(HasIdAndStatus(id, Completed), tasks)|;
      && after.total == before.total
      && after.pending + movedOut == before.pending + movedIn
      && after.completed + movedIn == before.completed + movedOut
  {
    if tasks != [] {
      var x := tasks[0];
      var rest := tasks[1..];
      var y := TaskStore.ToggleIfId(id)(x);
      CountAfterToggleAny(rest, id);
      assert tasks == [x] + rest;
      assert TaskStore.ToggleComplete(tasks, id) == [y] + TaskStore.ToggleComplete(rest, id);
      CountAppend([x], rest);
      CountAppend([y], TaskStore.ToggleComplete(rest, id));
      CountSingleton(x);
      CountSingleton(y);
      FilterConcat(HasIdAndStatus(id, Pending), [x], rest);
      FilterConcat(HasIdAndStatus(id, Completed), [x], rest);
      assert [x][1..] == [];
    }
  }
}
