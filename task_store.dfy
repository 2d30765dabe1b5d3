/** The store operations of the task manager. Each builds the new task list
    from the old one, as the handlers passed to `setTasks` do. Ids are not
    assumed distinct, so the by-id operations act on every task carrying the id. */
module TaskStore {
  import opened Seqs
  import opened Tasks

  /** `addTask`: the old list with the new task appended at the end. */
  function AddTask(tasks: seq<Task>, data: TaskData, id: int, createdAt: string): (r: seq<Task>)
    ensures |r| == |tasks| + 1
    ensures r[..|tasks|] == tasks
    ensures r[|tasks|].id == id && r[|tasks|].createdAt == createdAt && DataOf(r[|tasks|]) == data
  {
    tasks + [NewTask(data, id, createdAt)]
  }

  /** Adding puts exactly the new id into use. */
  lemma AddTaskIds(tasks: seq<Task>, data: TaskData, id: int, createdAt: string)
    ensures Ids(AddTask(tasks, data, id, createdAt)) == Ids(tasks) + {id}
  {
  }

  /** Adding under an unused id keeps ids distinct. */
  lemma AddTaskKeepsUnique(tasks: seq<Task>, data: TaskData, id: int, createdAt: string)
    requires UniqueIds(tasks)
    requires id !in Ids(tasks)
    ensures UniqueIds(AddTask(tasks, data, id, createdAt))
  {
  }

  function IdIsNot(id: int): Task -> bool {
    (t: Task) => t.id != id
  }

  /** `deleteTask`: the tasks whose id differs from `id`, in their original order. */
  function DeleteTask(tasks: seq<Task>, id: int): (r: seq<Task>)
    ensures forall t :: t in r <==> t in tasks && t.id != id
    ensures forall t :: multiset(r)[t] == if t.id != id then multiset(tasks)[t] else 0
    ensures IsSubsequence(r, tasks)
  {
    FilterIsSubsequence(IdIsNot(id), tasks);
    FilterMultiplicity(IdIsNot(id), tasks);
    Filter(IdIsNot(id), tasks)
  }

  /** Deleting an id no task carries changes nothing. */
  lemma DeleteAbsent(tasks: seq<Task>, id: int)
    requires id !in Ids(tasks)
    ensures DeleteTask(tasks, id) == tasks
  {
    forall i | 0 <= i < |tasks| ensures IdIsNot(id)(tasks[i]) {
      assert tasks[i] in tasks;
    }
    FilterKeepsAll(IdIsNot(id), tasks);
  }

  /** Deleting takes exactly `id` out of use. */
  lemma DeleteTaskIds(tasks: seq<Task>, id: int)
    ensures Ids(DeleteTask(tasks, id)) == Ids(tasks) - {id}
  {
  }

  /** Filtering a store with distinct ids keeps them distinct. */
  lemma {:induction false} FilterKeepsUnique(p: Task -> bool, tasks: seq<Task>)
    requires UniqueIds(tasks)
    ensures UniqueIds(Filter(p, tasks))
  {
    if tasks != [] {
      var rest := tasks[1..];
      assert UniqueIds(rest) by {
        forall i, j | 0 <= i < j < |rest| ensures rest[i].id != rest[j].id {
          assert rest[i] == tasks[i + 1] && rest[j] == tasks[j + 1];
        }
      }
      FilterKeepsUnique(p, rest);
      if p(tasks[0]) {
        var r := Filter(p, tasks);
        var tail := Filter(p, rest);
        assert r == [tasks[0]] + tail;
        forall i, j | 0 <= i < j < |r| ensures r[i].id != r[j].id {
          if i == 0 {
            assert r[j] == tail[j - 1] && r[j] in tail && r[j] in rest;
            var k :| 0 <= k < |rest| && rest[k] == r[j];
            assert tasks[k + 1] == r[j];
          } else {
            assert r[i] == tail[i - 1] && r[j] == tail[j - 1];
          }
        }
      }
    }
  }

  /** Deleting keeps the remaining ids distinct. */
  lemma DeleteKeepsUnique(tasks: seq<Task>, id: int)
    requires UniqueIds(tasks)
    ensures UniqueIds(DeleteTask(tasks, id))
  {
    FilterKeepsUnique(IdIsNot(id), tasks);
  }

  /** With distinct ids, deleting an id in use removes exactly one task. */
  lemma {:induction false} DeleteUniqueLength(tasks: seq<Task>, id: int)
    requires UniqueIds(tasks)
    requires id in Ids(tasks)
    ensures |DeleteTask(tasks, id)| == |tasks| - 1
  {
    var rest := tasks[1..];
    assert UniqueIds(rest) by {
      forall i, j | 0 <= i < j < |rest| ensures rest[i].id != rest[j].id {
        assert rest[i] == tasks[i + 1] && rest[j] == tasks[j + 1];
      }
    }
    if tasks[0].id == id {
      assert id !in Ids(rest) by {
        forall t | t in rest ensures t.id != id {
          var k :| 0 <= k < |rest| && rest[k] == t;
          assert tasks[k + 1] == t;
        }
      }
      DeleteAbsent(rest, id);
    } else {
      assert id in Ids(rest) by {
        var t :| t in tasks && t.id == id;
        var k :| 0 <= k < |tasks| && tasks[k] == t;
        assert k > 0 && rest[k - 1] == t;
      }
      DeleteUniqueLength(rest, id);
    }
  }

  function ReplaceIfSameId(updated: Task): Task -> Task {
    (t: Task) => if t.id == updated.id then updated else t
  }

  /** `updateTask`: every task carrying the updated task's id is replaced by it;
      every other task is left as it is, in place. */
  function UpdateTask(tasks: seq<Task>, updated: Task): (r: seq<Task>)
    ensures |r| == |tasks|
    ensures forall i :: 0 <= i < |tasks| && tasks[i].id == updated.id ==> r[i] == updated
    ensures forall i :: 0 <= i < |tasks| && tasks[i].id != updated.id ==> r[i] == tasks[i]
  {
    Map(ReplaceIfSameId(updated), tasks)
  }

  /** Updating never changes which ids are in use. */
  lemma UpdateTaskIds(tasks: seq<Task>, updated: Task)
    ensures Ids(UpdateTask(tasks, updated)) == Ids(tasks)
  {
  }

  /** Updating with a task unknown to the store changes nothing. */
  lemma UpdateAbsent(tasks: seq<Task>, updated: Task)
    requires updated.id !in Ids(tasks)
    ensures UpdateTask(tasks, updated) == tasks
  {
  }

  /** Updating keeps ids distinct. */
  lemma UpdateKeepsUnique(tasks: seq<Task>, updated: Task)
    requires UniqueIds(tasks)
    ensures UniqueIds(UpdateTask(tasks, updated))
  {
  }

  /** The other status: Completed becomes Pending, anything else Completed. */
  function Flip(s: Status): (r: Status)
    ensures r != s
  {
    if s == Completed then Pending else Completed
  }

  function ToggleIfId(id: int): Task -> Task {
    (t: Task) => if t.id == id then t.(status := Flip(t.status)) else t
  }

  /** `toggleComplete`: every task carrying `id` flips between Pending and
      Completed; no other field and no other task changes. */
  function ToggleComplete(tasks: seq<Task>, id: int): (r: seq<Task>)
    ensures |r| == |tasks|
    ensures forall i :: 0 <= i < |tasks| ==> r[i].id == tasks[i].id && r[i].createdAt == tasks[i].createdAt
    ensures forall i :: 0 <= i < |tasks| ==>
      DataOf(r[i]) == DataOf(tasks[i]).(status := if tasks[i].id == id then Flip(tasks[i].status) else tasks[i].status)
    ensures forall i :: 0 <= i < |tasks| && tasks[i].id == id ==> r[i].status != tasks[i].status
  {
    Map(ToggleIfId(id), tasks)
  }

  /** Toggling twice with the same id restores the list. */
  lemma ToggleTwice(tasks: seq<Task>, id: int)
    ensures ToggleComplete(ToggleComplete(tasks, id), id) == tasks
  {
  }

  /** Toggling an id no task carries changes nothing. */
  lemma ToggleAbsent(tasks: seq<Task>, id: int)
    requires id !in Ids(tasks)
    ensures ToggleComplete(tasks, id) == tasks
  {
  }

  /** The store keeps every task well formed: the form only submits
      validated drafts, and toggling and deleting touch no validated field. */
  lemma OperationsKeepWellFormed(tasks: seq<Task>, data: TaskData, updated: Task, id: int, createdAt: string)
    requires AllWellFormed(tasks)
    ensures WellFormedData(data) ==> AllWellFormed(AddTask(tasks, data, id, createdAt))
    ensures WellFormed(updated) ==> AllWellFormed(UpdateTask(tasks, updated))
    ensures AllWellFormed(DeleteTask(tasks, id))
    ensures AllWellFormed(ToggleComplete(tasks, id))
  {
  }
}
