/** The task records of the `ProgrammerTodo` component and the three operations that
    replace the task list: adding a record built from the form draft, deleting by id and
    setting the status of the records with a given id. */
module Tasks {
  import opened Seqs
  import opened Text

  /** A stored task. The component keeps `type`, `priority` and `status` as free strings;
      `kind` is the record's `type` field. */
  datatype Task = Task(
    id: string,
    title: string,
    kind: string,
    priority: string,
    deadline: string,
    status: string,
    tags: seq<string>,
    description: string,
    estimatedTime: string,
    createdAt: string)

  /** The form state the component edits before a task is added; `tags` is the raw
      comma-separated text. */
  datatype Draft = Draft(
    title: string,
    kind: string,
    priority: string,
    deadline: string,
    status: string,
    tags: string,
    description: string,
    estimatedTime: string)

  /** The draft the form starts with and is reset to after every successful add. */
  const EmptyDraft := Draft("", "feature", "medium", "", "pending", "", "", "")

  /** A tag as normalisation leaves it: not empty, no whitespace at either end, no comma. */
  predicate CleanTag(tag: string) {
    tag != [] && !IsSpace(tag[0]) && !IsSpace(tag[|tag| - 1]) && ',' !in tag
  }

  /** Every tag in `tags` is clean. */
  predicate AllClean(tags: seq<string>) {
    forall k :: 0 <= k < |tags| ==> CleanTag(tags[k])
  }

  /** `Boolean` as a filter on strings: keeps the non-empty ones. */
  predicate NotEmpty(tag: string) {
    tag != ""
  }

  /** A comma-free piece trims to the empty string or to a clean tag. */
  lemma TrimmedPieceClean(piece: string)
    requires ',' !in piece
    ensures Trim(piece) != "" ==> CleanTag(Trim(piece))
  {
    TrimKeepsOut(piece, ',');
  }

  /** Putting a clean tag, or nothing, in front of clean tags leaves them clean. */
  lemma ConsClean(t: string, rest: seq<string>)
    requires t != "" ==> CleanTag(t)
    requires AllClean(rest)
    ensures AllClean((if t == "" then [] else [t]) + rest)
  {
  }

  /** `pieces.map(tag => tag.trim()).filter(Boolean)` over the comma-free pieces of a split,
      one piece at a time: every tag it keeps is clean. */
  function TrimPieces(pieces: seq<string>): (tags: seq<string>)
    requires forall k :: 0 <= k < |pieces| ==> ',' !in pieces[k]
    ensures |tags| <= |pieces|
    ensures AllClean(tags)
  {
    if pieces == [] then []
    else
      var t := Trim(pieces[0]);
      TrimmedPieceClean(pieces[0]);
      var rest := TrimPieces(pieces[1..]);
      ConsClean(t, rest);
      (if t == "" then [] else [t]) + rest
  }

  /** One step of `TrimPieces` on a list with a known first piece. */
  lemma TrimPiecesCons(p: string, rest: seq<string>)
    requires ',' !in p && forall k :: 0 <= k < |rest| ==> ',' !in rest[k]
    ensures TrimPieces([p] + rest) == (if Trim(p) == "" then [] else [Trim(p)]) + TrimPieces(rest)
  {
    assert ([p] + rest)[0] == p && ([p] + rest)[1..] == rest;
  }

  /** Trimming piece by piece is the map-then-filter of the JavaScript code. */
  lemma {:induction false} TrimPiecesIsMapFilter(pieces: seq<string>)
    requires forall k :: 0 <= k < |pieces| ==> ',' !in pieces[k]
    ensures TrimPieces(pieces) == Filter(Map(pieces, Trim), NotEmpty)
  {
    if pieces != [] {
      TrimPiecesIsMapFilter(pieces[1..]);
      assert Map(pieces, Trim) == [Trim(pieces[0])] + Map(pieces[1..], Trim);
      FilterCons(Trim(pieces[0]), Map(pieces[1..], Trim), NotEmpty);
    }
  }

  /** Pieces that are already clean tags come through unchanged. */
  lemma {:induction false} TrimPiecesClean(tags: seq<string>)
    requires AllClean(tags)
    ensures TrimPieces(tags) == tags
  {
    if tags != [] {
      assert CleanTag(tags[0]);
      TrimTrimmed(tags[0]);
      assert AllClean(tags[1..]) by {
        forall k | 0 <= k < |tags[1..]| ensures CleanTag(tags[1..][k]) {
          assert tags[1..][k] == tags[k + 1];
        }
      }
      TrimPiecesClean(tags[1..]);
      assert [tags[0]] + tags[1..] == tags;
    }
  }

  /** The tag text of a draft as stored: empty text gives no tags; otherwise the text is split
      at commas, each piece trimmed and the empty pieces dropped. */
  function NormalizeTags(raw: string): (tags: seq<string>)
    ensures raw == "" ==> tags == []
    ensures AllClean(tags)
  {
    if raw == "" then [] else TrimPieces(Split(raw, ','))
  }

  /** Non-empty tag text keeps, in their order and with their repetitions, exactly the
      trimmed comma-separated pieces that are not empty. */
  lemma NormalizeTagsPieces(raw: string)
    requires raw != ""
    ensures var pieces := Map(Split(raw, ','), Trim);
      && IsSubsequence(NormalizeTags(raw), pieces)
      && forall x :: multiset(NormalizeTags(raw))[x] == if x == "" then 0 else multiset(pieces)[x]
  {
    var pieces := Map(Split(raw, ','), Trim);
    TrimPiecesIsMapFilter(Split(raw, ','));
    FilterIsSubsequence(pieces, NotEmpty);
    FilterMultiset(pieces, NotEmpty);
  }

  /** Normalised tags survive being written back as comma-separated text. */
  lemma NormalizeJoin(tags: seq<string>)
    requires AllClean(tags)
    ensures NormalizeTags(Join(tags, ',')) == tags
  {
    if tags != [] {
      var raw := Join(tags, ',');
      assert raw != "" by {
        assert CleanTag(tags[0]);
        if |tags| > 1 {
          assert raw == tags[0] + [','] + Join(tags[1..], ',');
        }
      }
      assert forall k :: 0 <= k < |tags| ==> ',' !in tags[k] by {
        forall k | 0 <= k < |tags| ensures ',' !in tags[k] {
          assert CleanTag(tags[k]);
        }
      }
      SplitJoin(tags, ',');
      TrimPiecesClean(tags);
    }
  }

  /** The record `addTask` builds: the draft's fields as typed (the title untrimmed), the
      given id and creation time, and the normalised tags. */
  function NewRecord(d: Draft, id: string, createdAt: string): Task {
    Task(id, d.title, d.kind, d.priority, d.deadline, d.status, NormalizeTags(d.tags),
         d.description, d.estimatedTime, createdAt)
  }

  /** `addTask` with the clock readings passed in: a draft whose title is whitespace only is
      refused and nothing changes; otherwise exactly one record is appended and every
      earlier record stays where it was. */
  function Add(ts: seq<Task>, d: Draft, id: string, createdAt: string): (r: seq<Task>)
    ensures AllSpace(d.title) ==> r == ts
    ensures !AllSpace(d.title) ==> r == ts + [NewRecord(d, id, createdAt)]
  {
    if IsBlank(d.title) then ts else ts + [NewRecord(d, id, createdAt)]
  }

  function IdIs(id: string): Task -> bool {
    (t: Task) => t.id == id
  }

  function IdIsNot(id: string): Task -> bool {
    (t: Task) => t.id != id
  }

  /** `deleteTask`: the records whose id differs from `id` and no other; an absent id
      changes nothing. */
  function Delete(ts: seq<Task>, id: string): (r: seq<Task>)
    ensures forall t :: t in r <==> t in ts && t.id != id
    ensures (forall t :: t in ts ==> t.id != id) ==> r == ts
  {
    Filter(ts, IdIsNot(id))
  }

  /** Deletion keeps every copy of every other record, in the original order. */
  lemma DeleteKeepsOthers(ts: seq<Task>, id: string)
    ensures IsSubsequence(Delete(ts, id), ts)
    ensures forall t :: multiset(Delete(ts, id))[t] == if t.id != id then multiset(ts)[t] else 0
  {
    FilterIsSubsequence(ts, IdIsNot(id));
    FilterMultiset(ts, IdIsNot(id));
  }

  function StatusUpdate(id: string, status: string): Task -> Task {
    (t: Task) => if t.id == id then t.(status := status) else t
  }

  /** `updateTaskStatus`: the same number of records in the same order; every record with the
      id gets the new status and keeps all its other fields, every other record is
      untouched, and an absent id changes nothing. Any status string is accepted. */
  function SetStatus(ts: seq<Task>, id: string, status: string): (r: seq<Task>)
    ensures |r| == |ts|
    ensures forall i :: 0 <= i < |ts| && ts[i].id == id ==> r[i] == ts[i].(status := status)
    ensures forall i :: 0 <= i < |ts| && ts[i].id != id ==> r[i] == ts[i]
    ensures (forall t :: t in ts ==> t.id != id) ==> r == ts
  {
    Map(ts, StatusUpdate(id, status))
  }

  /** Deleting the id of a record just added, when no earlier record had that id, restores
      the list as it was. */
  lemma DeleteAfterAdd(ts: seq<Task>, d: Draft, id: string, createdAt: string)
    requires forall t :: t in ts ==> t.id != id
    ensures Delete(Add(ts, d, id, createdAt), id) == ts
  {
    if !AllSpace(d.title) {
      DeleteAppended(ts, NewRecord(d, id, createdAt), id);
    }
  }

  lemma DeleteAppended(ts: seq<Task>, last: Task, id: string)
    requires forall t :: t in ts ==> t.id != id
    requires last.id == id
    ensures Delete(ts + [last], id) == ts
  {
    FilterAppend(ts, [last], IdIsNot(id));
  }

  /** Setting the status of records that are then deleted has no visible effect. */
  lemma {:induction false} DeleteAfterSetStatus(ts: seq<Task>, id: string, status: string)
    ensures Delete(SetStatus(ts, id, status), id) == Delete(ts, id)
  {
    if ts != [] {
      DeleteAfterSetStatus(ts[1..], id, status);
      var f := StatusUpdate(id, status);
      assert Map(ts, f) == [f(ts[0])] + Map(ts[1..], f);
      FilterCons(f(ts[0]), Map(ts[1..], f), IdIsNot(id));
    }
  }

  /** Only the last status set for an id is visible. */
  lemma SetStatusTwice(ts: seq<Task>, id: string, first: string, second: string)
    ensures SetStatus(SetStatus(ts, id, first), id, second) == SetStatus(ts, id, second)
  {
    var once, twice := SetStatus(ts, id, second), SetStatus(SetStatus(ts, id, first), id, second);
    assert forall i :: 0 <= i < |ts| ==> twice[i] == once[i];
  }

  /** Every operation keeps every stored tag clean. */
  ghost predicate AllTagsClean(ts: seq<Task>) {
    forall t :: t in ts ==> AllClean(t.tags)
  }

  /** Adding keeps every stored tag clean. */
  lemma AddKeepsTagsClean(ts: seq<Task>, d: Draft, id: string, createdAt: string)
    requires AllTagsClean(ts)
    ensures AllTagsClean(Add(ts, d, id, createdAt))
  {
    assert AllClean(NewRecord(d, id, createdAt).tags);
  }

  /** Deleting keeps every stored tag clean. */
  lemma DeleteKeepsTagsClean(ts: seq<Task>, id: string)
    requires AllTagsClean(ts)
    ensures AllTagsClean(Delete(ts, id))
  {
  }

  /** Setting a status keeps every stored tag clean. */
  lemma SetStatusKeepsTagsClean(ts: seq<Task>, id: string, status: string)
    requires AllTagsClean(ts)
    ensures AllTagsClean(SetStatus(ts, id, status))
  {
    var updated := SetStatus(ts, id, status);
    forall t | t in updated ensures AllClean(t.tags) {
      var i :| 0 <= i < |updated| && updated[i] == t;
      assert ts[i] in ts && t.tags == ts[i].tags;
    }
  }
}
