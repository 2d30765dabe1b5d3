/** The task record the manager stores, and the draft the form hands it. */
module Tasks {
  import opened Text

  datatype Status = Pending | Completed
  datatype Priority = Low | Medium | High

  /** The fields the form submits (`taskData`): everything but `id` and `createdAt`. */
  datatype TaskData = TaskData(
    title: string,
    description: string,
    priority: Priority,
    dueDate: string,
    status: Status)

  /** A stored task. `id` is the clock reading (`Date.now()`) at creation and
      `createdAt` the ISO time stamp; both arrive as values. Nothing makes ids
      distinct: two creations in the same millisecond share one. */
  datatype Task = Task(
    id: int,
    title: string,
    description: string,
    priority: Priority,
    dueDate: string,
    status: Status,
    createdAt: string)

  /** The task a draft becomes: `{ id, ...taskData, createdAt }`. */
  function NewTask(data: TaskData, id: int, createdAt: string): (t: Task)
    ensures t.id == id && t.createdAt == createdAt
    ensures DataOf(t) == data
  {
    Task(id, data.title, data.description, data.priority, data.dueDate, data.status, createdAt)
  }

  /** The form-editable part of a task. */
  function DataOf(t: Task): TaskData {
    TaskData(t.title, t.description, t.priority, t.dueDate, t.status)
  }

  /** `{ ...editing, ...data }`: the draft's fields override those of the
      task being edited, which contributes only its `id` and `createdAt`. */
  function Merge(editing: Task, data: TaskData): (t: Task)
    ensures t.id == editing.id && t.createdAt == editing.createdAt
    ensures DataOf(t) == data
  {
    editing.(title := data.title, description := data.description, priority := data.priority,
             dueDate := data.dueDate, status := data.status)
  }

  /** Submitting the form on an unchanged copy of a task rebuilds that task. */
  lemma MergeOwnData(t: Task)
    ensures Merge(t, DataOf(t)) == t
  {
  }

  /** What validation and trimming guarantee of a submitted draft: title and
      description trimmed and non-empty, a due date present. */
  ghost predicate WellFormedData(d: TaskData) {
    && d.title != [] && IsTrimmed(d.title)
    && d.description != [] && IsTrimmed(d.description)
    && d.dueDate != []
  }

  ghost predicate WellFormed(t: Task) {
    WellFormedData(DataOf(t))
  }

  ghost predicate AllWellFormed(tasks: seq<Task>) {
    forall i :: 0 <= i < |tasks| ==> WellFormed(tasks[i])
  }

  /** The ids in use. */
  ghost function Ids(tasks: seq<Task>): set<int> {
    set t | t in tasks :: t.id
  }

  /** No two stored tasks share an id. */
  ghost predicate UniqueIds(tasks: seq<Task>) {
    forall i, j :: 0 <= i < j < |tasks| ==> tasks[i].id != tasks[j].id
  }
}
