/** The task manager's state and its handlers. Each handler replaces whole
    fields with values computed by the store, form, login and notification
    modules, as the state setters do. */
module Manager {
  import opened Wrappers
  import opened Tasks
  import TaskStore
  import opened TaskForm
  import opened Login
  import opened Notify
  import opened Query
  import opened Seqs

  class TaskManager {
    var isLoggedIn: bool
    var tasks: seq<Task>
    var editingTask: Option<Task>
    var emailLog: seq<string>

    /** A fresh manager: no tasks, nothing being edited, an empty log. It
        starts logged in exactly when the browser session holds a stored user. */
    constructor (hasStoredUser: bool)
      ensures isLoggedIn == hasStoredUser
      ensures tasks == [] && editingTask == None && emailLog == []
    {
      isLoggedIn := hasStoredUser;
      tasks := [];
      editingTask := None;
      emailLog := [];
    }

    /** The login screen's submit: a refused attempt changes nothing. */
    method Login(email: string, password: string) returns (r: LoginResult)
      modifies this
      ensures r == CheckLogin(email, password)
      ensures isLoggedIn == (old(isLoggedIn) || r.LoggedIn?)
      ensures tasks == old(tasks) && editingTask == old(editingTask) && emailLog == old(emailLog)
    {
      r := CheckLogin(email, password);
      if r.LoggedIn? {
        isLoggedIn := true;
      }
    }

    /** Logging out discards every task but keeps the email log and the
        task being edited. */
    method Logout()
      modifies this
      ensures !isLoggedIn && tasks == []
      ensures editingTask == old(editingTask) && emailLog == old(emailLog)
    {
      isLoggedIn := false;
      tasks := [];
    }

    method AddTask(data: TaskData, id: int, createdAt: string)
      modifies this
      ensures tasks == TaskStore.AddTask(old(tasks), data, id, createdAt)
      ensures isLoggedIn == old(isLoggedIn) && editingTask == old(editingTask) && emailLog == old(emailLog)
    {
      tasks := TaskStore.AddTask(tasks, data, id, createdAt);
    }

    /** Stores the edited task and ends the edit. */
    method UpdateTask(updated: Task)
      modifies this
      ensures tasks == TaskStore.UpdateTask(old(tasks), updated)
      ensures editingTask == None
      ensures isLoggedIn == old(isLoggedIn) && emailLog == old(emailLog)
    {
      tasks := TaskStore.UpdateTask(tasks, updated);
      editingTask := None;
    }

    method DeleteTask(id: int)
      modifies this
      ensures tasks == TaskStore.DeleteTask(old(tasks), id)
      ensures isLoggedIn == old(isLoggedIn) && editingTask == old(editingTask) && emailLog == old(emailLog)
    {
      tasks := TaskStore.DeleteTask(tasks, id);
    }

    method ToggleComplete(id: int)
      modifies this
      ensures tasks == TaskStore.ToggleComplete(old(tasks), id)
      ensures isLoggedIn == old(isLoggedIn) && editingTask == old(editingTask) && emailLog == old(emailLog)
    {
      tasks := TaskStore.ToggleComplete(tasks, id);
    }

    /** The edit button: the task becomes the one the form edits. */
    method StartEdit(t: Task)
      modifies this
      ensures editingTask == Some(t)
      ensures isLoggedIn == old(isLoggedIn) && tasks == old(tasks) && emailLog == old(emailLog)
    {
      editingTask := Some(t);
    }

    method CancelEdit()
      modifies this
      ensures editingTask == None
      ensures isLoggedIn == old(isLoggedIn) && tasks == old(tasks) && emailLog == old(emailLog)
    {
      editingTask := None;
    }

    /** The form's submit button. A rejected form changes nothing; an accepted
        one adds a new Pending task under `id` and `createdAt`, or stores the
        edit of the task being edited. Either way the store stays well formed. */
    method SubmitForm(form: Form, id: int, createdAt: string) returns (r: SubmitResult)
      modifies this
      ensures r == Submit(form, old(editingTask))
      ensures r.Rejected? ==> tasks == old(tasks) && editingTask == old(editingTask)
      ensures r.Accepted? && r.submission.Add? ==>
        && tasks == TaskStore.AddTask(old(tasks), r.submission.data, id, createdAt)
        && tasks[|old(tasks)|].status == Pending
        && editingTask == old(editingTask)
      ensures r.Accepted? && r.submission.Update? ==>
        && tasks == TaskStore.UpdateTask(old(tasks), r.submission.task)
        && editingTask == None
      ensures AllWellFormed(old(tasks)) ==> AllWellFormed(tasks)
      ensures isLoggedIn == old(isLoggedIn) && emailLog == old(emailLog)
    {
      r := Submit(form, editingTask);
      if r.Accepted? {
        match r.submission
        case Add(data) =>
          if AllWellFormed(tasks) {
            TaskStore.OperationsKeepWellFormed(tasks, data, NewTask(data, id, createdAt), id, createdAt);
          }
          AddTask(data, id, createdAt);
        case Update(task) =>
          if AllWellFormed(tasks) {
            TaskStore.OperationsKeepWellFormed(tasks, DataOf(task), task, id, createdAt);
          }
          UpdateTask(task);
      }
    }

    /** One run of the notification check; it does nothing while logged out. */
    method CheckPendingTasks(timestamp: string)
      modifies this
      ensures emailLog == if old(isLoggedIn) then Scan(old(tasks), old(emailLog), timestamp) else old(emailLog)
      ensures isLoggedIn == old(isLoggedIn) && tasks == old(tasks) && editingTask == old(editingTask)
    {
      if isLoggedIn {
        emailLog := Scan(tasks, emailLog, timestamp);
      }
    }

    /** The list currently on screen for a search term and a category. */
    function FilteredTasks(term: string, c: Category): (r: seq<Task>)
      reads this
      ensures forall t :: t in r <==> t in tasks && MatchesSearch(t, term) && MatchesCategory(t, c)
      ensures IsSubsequence(r, tasks)
    {
      Visible(tasks, term, c)
    }
  }

  /** Logging out and back in always starts from an empty task list, while
      the email log survives. */
  method LogoutThenLogin(m: TaskManager, email: string, password: string) returns (r: LoginResult)
    modifies m
    ensures m.tasks == [] && m.emailLog == old(m.emailLog)
    ensures m.isLoggedIn <==> r.LoggedIn?
  {
    m.Logout();
    r := m.Login(email, password);
  }
}
