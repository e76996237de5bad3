/** The read-only views the component derives from its task list: the search-and-filter
    selection, the per-status tab buckets and the statistics panel. */
module Views {
  import opened Seqs
  import opened Text
  import opened Tasks

  /** The search box and the two filter selects; `"all"` in a select means no restriction. */
  datatype Query = Query(search: string, kind: string, priority: string)

  /** The settings the component starts with: empty search, all types, all priorities. */
  const ShowAll := Query("", "all", "all")

  /** The search-and-filter test of `filterTasks`: the lower-cased search text occurs in the
      lower-cased title, the lower-cased description or some lower-cased tag, and the type and
      priority selects are `"all"` or equal to the record's own value. */
  function Matches(t: Task, q: Query): (b: bool)
    ensures b <==>
      && (|| IsSubstring(Lower(q.search), Lower(t.title))
          || IsSubstring(Lower(q.search), Lower(t.description))
          || exists k :: 0 <= k < |t.tags| && IsSubstring(Lower(q.search), Lower(t.tags[k])))
      && (q.kind == "all" || t.kind == q.kind)
      && (q.priority == "all" || t.priority == q.priority)
  {
    var needle := Lower(q.search);
    var matchesSearch :=
      || Contains(Lower(t.title), needle)
      || Contains(Lower(t.description), needle)
      || exists k | 0 <= k < |t.tags| :: Contains(Lower(t.tags[k]), needle);
    matchesSearch && (q.kind == "all" || t.kind == q.kind) && (q.priority == "all" || t.priority == q.priority)
  }

  /** The search is case-insensitive on both sides: folding the search text, or the title,
      description and tags of the record, does not change whether the record matches. */
  lemma MatchesIgnoresCase(t: Task, q: Query)
    ensures Matches(t, q.(search := Lower(q.search))) == Matches(t, q)
    ensures Matches(t.(title := Lower(t.title), description := Lower(t.description),
                       tags := Map(t.tags, Lower)), q) == Matches(t, q)
  {
    LowerIdempotent(q.search);
    LowerIdempotent(t.title);
    LowerIdempotent(t.description);
    var folded := Map(t.tags, Lower);
    forall k | 0 <= k < |t.tags| ensures Lower(folded[k]) == Lower(t.tags[k]) {
      LowerIdempotent(t.tags[k]);
    }
  }

  function MatchesQuery(q: Query): Task -> bool {
    (t: Task) => Matches(t, q)
  }

  function StatusIs(status: string): Task -> bool {
    (t: Task) => t.status == status
  }

  function KindIs(kind: string): Task -> bool {
    (t: Task) => t.kind == kind
  }

  /** `filterTasks`: the records that match the query and no other. */
  function FilterTasks(ts: seq<Task>, q: Query): (r: seq<Task>)
    ensures |r| <= |ts|
    ensures forall t :: t in r <==> t in ts && Matches(t, q)
  {
    Filter(ts, MatchesQuery(q))
  }

  /** The filtered list keeps the order of the records it keeps, and every copy of each. */
  lemma FilterTasksKeepsOrder(ts: seq<Task>, q: Query)
    ensures IsSubsequence(FilterTasks(ts, q), ts)
    ensures forall t :: multiset(FilterTasks(ts, q))[t] == if Matches(t, q) then multiset(ts)[t] else 0
  {
    FilterIsSubsequence(ts, MatchesQuery(q));
    FilterMultiset(ts, MatchesQuery(q));
  }

  /** With the initial settings every record matches, so the list is shown unchanged. */
  lemma FilterTasksShowAll(ts: seq<Task>)
    ensures FilterTasks(ts, ShowAll) == ts
  {
    forall t | t in ts ensures Matches(t, ShowAll) {
      assert OccursAt("", Lower(t.title), 0);
    }
  }

  /** `tasks.filter(t => t.status === status)`. */
  function ByStatus(ts: seq<Task>, status: string): (r: seq<Task>)
    ensures |r| <= |ts|
    ensures forall t :: t in r <==> t in ts && t.status == status
  {
    Filter(ts, StatusIs(status))
  }

  /** The contents and count of a status tab: `filterTasks(tasks.filter(t => t.status === status))`. */
  function Bucket(ts: seq<Task>, status: string, q: Query): (r: seq<Task>)
    ensures |r| <= |ts|
    ensures forall t :: t in r <==> t in ts && t.status == status && Matches(t, q)
  {
    FilterTasks(ByStatus(ts, status), q)
  }

  /** Taking a status tab and then searching is the same as searching and then taking the tab,
      record for record and in the same order. */
  lemma BucketCommutes(ts: seq<Task>, status: string, q: Query)
    ensures Bucket(ts, status, q) == ByStatus(FilterTasks(ts, q), status)
  {
    FilterCommute(ts, StatusIs(status), MatchesQuery(q));
  }

  /** A tab holds every copy of each record it shows. */
  lemma BucketMultiset(ts: seq<Task>, status: string, q: Query)
    ensures forall t :: multiset(Bucket(ts, status, q))[t] ==
                          if t.status == status && Matches(t, q) then multiset(ts)[t] else 0
  {
    BucketCommutes(ts, status, q);
    FilterTasksKeepsOrder(ts, q);
    FilterMultiset(FilterTasks(ts, q), StatusIs(status));
  }

  /** A tab keeps the order of the task list. */
  lemma BucketKeepsOrder(ts: seq<Task>, status: string, q: Query)
    ensures IsSubsequence(Bucket(ts, status, q), ts)
  {
    BucketCommutes(ts, status, q);
    var filtered := FilterTasks(ts, q);
    FilterIsSubsequence(filtered, StatusIs(status));
    FilterTasksKeepsOrder(ts, q);
    SubsequenceTransitive(ByStatus(filtered, status), filtered, ts);
  }

  /** The three status literals the component's buttons and form produce. */
  predicate KnownStatus(status: string) {
    status == "pending" || status == "in-progress" || status == "completed"
  }

  /** The three type literals of the form's type select. */
  predicate KnownKind(kind: string) {
    kind == "feature" || kind == "bug" || kind == "refactor"
  }

  ghost predicate AllKnownStatus(ts: seq<Task>) {
    forall t :: t in ts ==> KnownStatus(t.status)
  }

  ghost predicate AllKnownKind(ts: seq<Task>) {
    forall t :: t in ts ==> KnownKind(t.kind)
  }

  /** The counts on the three tabs never exceed the number of records the search selects, and
      add up to it when every status is one of the three literals. */
  lemma TabCounts(ts: seq<Task>, q: Query)
    ensures |Bucket(ts, "pending", q)| + |Bucket(ts, "in-progress", q)| + |Bucket(ts, "completed", q)|
              <= |FilterTasks(ts, q)|
    ensures AllKnownStatus(ts) ==>
              |Bucket(ts, "pending", q)| + |Bucket(ts, "in-progress", q)| + |Bucket(ts, "completed", q)|
                == |FilterTasks(ts, q)|
  {
    BucketCommutes(ts, "pending", q);
    BucketCommutes(ts, "in-progress", q);
    BucketCommutes(ts, "completed", q);
    FilterCount3(FilterTasks(ts, q), StatusIs("pending"), StatusIs("in-progress"), StatusIs("completed"));
  }

  datatype TypeCounts = TypeCounts(feature: nat, bug: nat, refactor: nat)

  datatype Statistics = Statistics(total: nat, completed: nat, inProgress: nat, pending: nat, byType: TypeCounts)

  /** `getTaskStatistics`: no count exceeds the total; the status counts add up to the total
      when every status is one of the three literals, and the type counts when every type is
      one of the three literals. Neither condition is enforced, so neither sum is promised
      otherwise. */
  function Stats(ts: seq<Task>): (r: Statistics)
    ensures r.total == |ts|
    ensures r.completed <= r.total && r.inProgress <= r.total && r.pending <= r.total
    ensures r.byType.feature <= r.total && r.byType.bug <= r.total && r.byType.refactor <= r.total
    ensures AllKnownStatus(ts) ==> r.completed + r.inProgress + r.pending == r.total
    ensures AllKnownKind(ts) ==> r.byType.feature + r.byType.bug + r.byType.refactor == r.total
  {
    FilterCount3(ts, StatusIs("completed"), StatusIs("in-progress"), StatusIs("pending"));
    FilterCount3(ts, KindIs("feature"), KindIs("bug"), KindIs("refactor"));
    Statistics(
      |ts|,
      |Filter(ts, StatusIs("completed"))|,
      |Filter(ts, StatusIs("in-progress"))|,
      |Filter(ts, StatusIs("pending"))|,
      TypeCounts(
        |Filter(ts, KindIs("feature"))|,
        |Filter(ts, KindIs("bug"))|,
        |Filter(ts, KindIs("refactor"))|))
  }

  function One(b: bool): nat {
    if b then 1 else 0
  }

  /** Adding a task raises the total by one and exactly the status and type counts that match
      the draft by one; a refused add changes no count. */
  lemma StatsAfterAdd(ts: seq<Task>, d: Draft, id: string, createdAt: string)
    ensures AllSpace(d.title) ==> Stats(Add(ts, d, id, createdAt)) == Stats(ts)
    ensures !AllSpace(d.title) ==>
      var before, after := Stats(ts), Stats(Add(ts, d, id, createdAt));
      && after.total == before.total + 1
      && after.completed == before.completed + One(d.status == "completed")
      && after.inProgress == before.inProgress + One(d.status == "in-progress")
      && after.pending == before.pending + One(d.status == "pending")
      && after.byType.feature == before.byType.feature + One(d.kind == "feature")
      && after.byType.bug == before.byType.bug + One(d.kind == "bug")
      && after.byType.refactor == before.byType.refactor + One(d.kind == "refactor")
  {
    if !AllSpace(d.title) {
      var rec := [NewRecord(d, id, createdAt)];
      FilterAppend(ts, rec, StatusIs("completed"));
      FilterAppend(ts, rec, StatusIs("in-progress"));
      FilterAppend(ts, rec, StatusIs("pending"));
      FilterAppend(ts, rec, KindIs("feature"));
      FilterAppend(ts, rec, KindIs("bug"));
      FilterAppend(ts, rec, KindIs("refactor"));
    }
  }

  /** Changing a status keeps the total and every type count. */
  lemma StatsAfterSetStatus(ts: seq<Task>, id: string, status: string)
    ensures Stats(SetStatus(ts, id, status)).total == Stats(ts).total
    ensures Stats(SetStatus(ts, id, status)).byType == Stats(ts).byType
  {
    var f := StatusUpdate(id, status);
    FilterMapCount(ts, f, KindIs("feature"));
    FilterMapCount(ts, f, KindIs("bug"));
    FilterMapCount(ts, f, KindIs("refactor"));
  }

  /** Deleting removes from the total exactly the records with the id. */
  lemma StatsAfterDelete(ts: seq<Task>, id: string)
    ensures Stats(Delete(ts, id)).total == |ts| - |Filter(ts, IdIs(id))|
  {
    FilterCount2(ts, IdIsNot(id), IdIs(id));
  }

  /** The three operations keep every status and every type among the known literals, as long
      as the added draft and the new status are themselves known. */
  lemma KnownValuesPreserved(ts: seq<Task>, d: Draft, id: string, createdAt: string, status: string)
    requires AllKnownStatus(ts) && AllKnownKind(ts)
    ensures KnownStatus(d.status) && KnownKind(d.kind) ==>
              AllKnownStatus(Add(ts, d, id, createdAt)) && AllKnownKind(Add(ts, d, id, createdAt))
    ensures AllKnownStatus(Delete(ts, id)) && AllKnownKind(Delete(ts, id))
    ensures KnownStatus(status) ==>
              AllKnownStatus(SetStatus(ts, id, status)) && AllKnownKind(SetStatus(ts, id, status))
  {
    var updated := SetStatus(ts, id, status);
    forall t | t in updated ensures (KnownStatus(status) ==> KnownStatus(t.status)) && KnownKind(t.kind) {
      var i :| 0 <= i < |updated| && updated[i] == t;
      assert ts[i] in ts;
    }
  }
}
