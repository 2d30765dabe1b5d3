/** The visible task list: the stored tasks that match the (debounced) search
    term and the selected category, in store order, and the message shown in
    its place when it is empty. */
module Query {
  import opened Seqs
  import opened Text
  import opened Tasks
  import opened Wrappers

  /** The filter buttons: All, Completed, Pending, Low, Medium, High. */
  datatype Category = All | CompletedOnly | PendingOnly | LowOnly | MediumOnly | HighOnly

  /** The search half of the filter: an empty term matches everything, any
      other term must occur, ignoring letter case, in the title or the
      description. */
  function MatchesSearch(t: Task, term: string): (b: bool)
    ensures b <==>
      || term == []
      || (exists i :: OccursAtIgnoringCase(t.title, term, i))
      || (exists i :: OccursAtIgnoringCase(t.description, term, i))
  {
    ContainsIgnoringCase(t.title, term);
    ContainsIgnoringCase(t.description, term);
    || term == []
    || Contains(ToLower(t.title), ToLower(term))
    || Contains(ToLower(t.description), ToLower(term))
  }

  /** The filter button named after a status. */
  function StatusCategory(s: Status): Category {
    match s
    case Completed => CompletedOnly
    case Pending => PendingOnly
  }

  /** The filter button named after a priority. */
  function PriorityCategory(p: Priority): Category {
    match p
    case Low => LowOnly
    case Medium => MediumOnly
    case High => HighOnly
  }

  /** The category half of the filter: by status, by priority, or none. A
      task passes the All button and the buttons named after its own status
      and its own priority, and no other. */
  function MatchesCategory(t: Task, c: Category): (b: bool)
    ensures b <==> c == All || c == StatusCategory(t.status) || c == PriorityCategory(t.priority)
  {
    match c
    case All => true
    case CompletedOnly => t.status == Completed
    case PendingOnly => t.status == Pending
    case LowOnly => t.priority == Low
    case MediumOnly => t.priority == Medium
    case HighOnly => t.priority == High
  }

  function Matcher(term: string, c: Category): Task -> bool {
    (t: Task) => MatchesSearch(t, term) && MatchesCategory(t, c)
  }

  /** `filteredTasks`: the tasks passing both halves of the filter, as a
      subsequence of the store. */
  function Visible(tasks: seq<Task>, term: string, c: Category): (r: seq<Task>)
    ensures forall t :: t in r <==> t in tasks && MatchesSearch(t, term) && MatchesCategory(t, c)
    ensures IsSubsequence(r, tasks)
  {
    FilterIsSubsequence(Matcher(term, c), tasks);
    Filter(Matcher(term, c), tasks)
  }

  /** With no search term and the All filter every task is shown, in order. */
  lemma VisibleUnfiltered(tasks: seq<Task>)
    ensures Visible(tasks, [], All) == tasks
  {
    FilterKeepsAll(Matcher([], All), tasks);
  }

  /** The view of a store that grew at the end is the old view, followed by
      the new tasks that match: the store order is kept. */
  lemma VisibleAppend(tasks: seq<Task>, added: seq<Task>, term: string, c: Category)
    ensures Visible(tasks + added, term, c) == Visible(tasks, term, c) + Visible(added, term, c)
  {
    FilterConcat(Matcher(term, c), tasks, added);
  }

  const NoTasksYet: string := "No tasks yet. Create your first task above!"
  const NoMatches: string := "No tasks match your search criteria."

  /** What the list shows in place of an empty view: one message when the
      store itself is empty, another when only the filter hides everything. */
  function EmptyMessage(tasks: seq<Task>, term: string, c: Category): (m: Option<string>)
    ensures m.None? <==> Visible(tasks, term, c) != []
    ensures m == Some(NoTasksYet) <==> tasks == []
    ensures m == Some(NoMatches) <==> tasks != [] && Visible(tasks, term, c) == []
    ensures m == Some(NoMatches) ==> term != [] || c != All
  {
    VisibleUnfiltered(tasks);
    if |Visible(tasks, term, c)| == 0 then
      Some(if |tasks| == 0 then NoTasksYet else NoMatches)
    else
      assert tasks != [] by {
        assert Visible(tasks, term, c)[0] in tasks;
      }
      None
  }
}
