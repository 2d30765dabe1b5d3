/** The task form's submit logic: field validation and the draft it hands to
    the manager, either as a new task or as an edit of the task being edited. */
module TaskForm {
  import opened Text
  import opened Tasks
  import opened Wrappers

  /** The values in the form's inputs. `priority` comes from a select whose
      only options are Low, Medium and High. */
  datatype Form = Form(title: string, description: string, priority: Priority, dueDate: string)

  datatype Field = Title | Description | DueDate

  const TitleRequired: string := "Title is required"
  const DescriptionRequired: string := "Description is required"
  const DueDateRequired: string := "Due date is required"

  /** `validate()`: an error message for each field that is blank, where title
      and description are blank when they trim to nothing and the due date
      when it is the empty string. */
  function Validate(form: Form): (errors: map<Field, string>)
    ensures Title in errors <==> AllWhitespace(form.title)
    ensures Description in errors <==> AllWhitespace(form.description)
    ensures DueDate in errors <==> form.dueDate == []
    ensures Title in errors ==> errors[Title] == TitleRequired
    ensures Description in errors ==> errors[Description] == DescriptionRequired
    ensures DueDate in errors ==> errors[DueDate] == DueDateRequired
  {
    var e0: map<Field, string> := map[];
    var e1 := if Trim(form.title) == [] then e0[Title := TitleRequired] else e0;
    var e2 := if Trim(form.description) == [] then e1[Description := DescriptionRequired] else e1;
    if form.dueDate == [] then e2[DueDate := DueDateRequired] else e2
  }

  /** What a successful submit asks the manager to do. */
  datatype Submission = Add(data: TaskData) | Update(task: Task)

  datatype SubmitResult = Rejected(errors: map<Field, string>) | Accepted(submission: Submission)

  /** `handleSubmit()`: stop with the errors if any field is blank; otherwise
      build the trimmed draft, whose status is that of the task being edited
      or Pending for a new task, and either merge it over the task being
      edited or submit it as a new task. */
  function Submit(form: Form, editing: Option<Task>): (r: SubmitResult)
    ensures r.Rejected? <==> AllWhitespace(form.title) || AllWhitespace(form.description) || form.dueDate == []
    ensures r.Rejected? ==> r.errors == Validate(form) && r.errors != map[]
    ensures r.Accepted? ==> (r.submission.Add? <==> editing.None?)
    ensures r.Accepted? && r.submission.Add? ==>
      && WellFormedData(r.submission.data)
      && r.submission.data == TaskData(Trim(form.title), Trim(form.description), form.priority, form.dueDate, Pending)
    ensures r.Accepted? && r.submission.Update? ==>
      && WellFormed(r.submission.task)
      && r.submission.task.id == editing.value.id
      && r.submission.task.createdAt == editing.value.createdAt
      && r.submission.task.status == editing.value.status
      && r.submission.task.title == Trim(form.title)
      && r.submission.task.description == Trim(form.description)
      && r.submission.task.priority == form.priority
      && r.submission.task.dueDate == form.dueDate
  {
    var errors := Validate(form);
    if errors != map[] then
      Rejected(errors)
    else
      assert Title !in errors && Description !in errors && DueDate !in errors;
      var data := TaskData(Trim(form.title), Trim(form.description), form.priority, form.dueDate,
                           if editing.Some? then editing.value.status else Pending);
      if editing.Some? then Accepted(Update(Merge(editing.value, data))) else Accepted(Add(data))
  }

  /** The form as it is filled in when a task is picked for editing. */
  function EditForm(t: Task): (f: Form)
    ensures f.title == t.title && f.description == t.description
    ensures f.priority == t.priority && f.dueDate == t.dueDate
    ensures WellFormed(t) ==> Validate(f) == map[]
  {
    var f := Form(t.title, t.description, t.priority, t.dueDate);
    assert WellFormed(t) ==> !AllWhitespace(f.title) && !AllWhitespace(f.description);
    f
  }

  /** Picking a well-formed task for editing and submitting without changes
      gives back exactly that task. */
  lemma ResubmitUnchanged(t: Task)
    requires WellFormed(t)
    ensures Submit(EditForm(t), Some(t)) == Accepted(Update(t))
  {
  }
}
