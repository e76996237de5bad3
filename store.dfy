/** The component state of `ProgrammerTodo`: the task list, the form draft and the search and
    filter settings. Every handler replaces a state value wholesale, as `setTasks`,
    `setNewTask` and the setters of the search box and the two selects do. */
module Store {
  import opened Seqs
  import opened Text
  import opened Tasks
  import opened Views

  class TaskStore {
    var tasks: seq<Task>
    var draft: Draft
    var query: Query

    /** What the store keeps true: every stored tag is clean. */
    ghost predicate Valid()
      reads this
    {
      AllTagsClean(tasks)
    }

    /** The initial state: no tasks, the default draft, no search and no filter. */
    constructor ()
      ensures Valid()
      ensures tasks == [] && draft == EmptyDraft && query == ShowAll
    {
      tasks := [];
      draft := EmptyDraft;
      query := ShowAll;
    }

    /** A form field's change handler: the draft is replaced by the edited copy. */
    method EditDraft(d: Draft)
      requires Valid()
      modifies this
      ensures Valid()
      ensures draft == d && tasks == old(tasks) && query == old(query)
    {
      draft := d;
    }

    /** `addTask`: a whitespace-only title leaves everything as it was, draft included;
        otherwise the record built from the draft is appended and the draft is reset. */
    method AddTask(id: string, createdAt: string)
      requires Valid()
      modifies this
      ensures Valid()
      ensures tasks == Add(old(tasks), old(draft), id, createdAt)
      ensures draft == if AllSpace(old(draft).title) then old(draft) else EmptyDraft
      ensures query == old(query)
    {
      if IsBlank(draft.title) {
        return;
      }
      AddKeepsTagsClean(tasks, draft, id, createdAt);
      tasks := Add(tasks, draft, id, createdAt);
      draft := EmptyDraft;
    }

    /** `deleteTask`. */
    method DeleteTask(id: string)
      requires Valid()
      modifies this
      ensures Valid()
      ensures tasks == Delete(old(tasks), id)
      ensures draft == old(draft) && query == old(query)
    {
      DeleteKeepsTagsClean(tasks, id);
      tasks := Delete(tasks, id);
    }

    /** `updateTaskStatus`: any status string is accepted. */
    method UpdateTaskStatus(id: string, status: string)
      requires Valid()
      modifies this
      ensures Valid()
      ensures tasks == SetStatus(old(tasks), id, status)
      ensures draft == old(draft) && query == old(query)
    {
      SetStatusKeepsTagsClean(tasks, id, status);
      tasks := SetStatus(tasks, id, status);
    }

    /** The search box's change handler. */
    method SetSearch(search: string)
      requires Valid()
      modifies this
      ensures Valid()
      ensures query == old(query).(search := search)
      ensures tasks == old(tasks) && draft == old(draft)
    {
      query := query.(search := search);
    }

    /** The type select's change handler. */
    method SetKindFilter(kind: string)
      requires Valid()
      modifies this
      ensures Valid()
      ensures query == old(query).(kind := kind)
      ensures tasks == old(tasks) && draft == old(draft)
    {
      query := query.(kind := kind);
    }

    /** The priority select's change handler. */
    method SetPriorityFilter(priority: string)
      requires Valid()
      modifies this
      ensures Valid()
      ensures query == old(query).(priority := priority)
      ensures tasks == old(tasks) && draft == old(draft)
    {
      query := query.(priority := priority);
    }

    /** The records shown on the tab for `status`, under the current search and filters: in
        the list's order, with every copy of each, and the same list whose length the tab's
        button shows. */
    method Tab(status: string) returns (shown: seq<Task>)
      ensures forall t :: t in shown <==> t in tasks && t.status == status && Matches(t, query)
      ensures IsSubsequence(shown, tasks)
      ensures forall t :: multiset(shown)[t] ==
                            if t.status == status && Matches(t, query) then multiset(tasks)[t] else 0
      ensures shown == Bucket(tasks, status, query)
    {
      shown := Bucket(tasks, status, query);
      BucketKeepsOrder(tasks, status, query);
      BucketMultiset(tasks, status, query);
    }
  }
}
