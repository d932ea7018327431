/** The table edit of a refresh of named files, and the two id sets it hands to the full-text refresh. */
module ScanFiles {
  import opened Order
  import opened SearchIndex
  import opened Wrappers

  /** The rows parsed from one file, before they have its id. */
  datatype Parsed = Parsed(objects: seq<Row>, resources: seq<Row>, fields: seq<Row>, localization: seq<Row>)

  /** One requested path that exists: its indexed predecessor, if any, and what parsing gave unless nothing changed. */
  datatype Job = Job(rel: string, kind: string, prev: Option<int>, skip: bool, parsed: Parsed)

  function WithoutFile(rows: seq<Row>, id: int): seq<Row> {
    if rows == [] then []
    else (if rows[0].fileId == id then [] else [rows[0]]) + WithoutFile(rows[1..], id)
  }

  function Owned(rows: seq<Row>, id: int): seq<Row> {
    if rows == [] then [] else [rows[0].(fileId := id)] + Owned(rows[1..], id)
  }

  /** Deletes a file with all its rows. */
  function Deleted(t: Tables, id: int): Tables {
    t.(files := t.files - {id}, objects := WithoutFile(t.objects, id), resources := WithoutFile(t.resources, id),
       fields := WithoutFile(t.fields, id), localization := WithoutFile(t.localization, id))
  }

  predicate Outranked(f: File, rel: string, rank: int) {
    f.relPath == rel && f.rank > rank
  }

  /** The active files of lower precedence with the same path. */
  function Victims(t: Tables, rel: string, rank: int): set<int> {
    set id | id in t.files && Outranked(t.files[id], rel, rank) && !t.files[id].overridden
  }

  function Overriding(t: Tables, rel: string, rank: int): Tables {
    t.(files := map id | id in t.files ::
         if Outranked(t.files[id], rel, rank) then t.files[id].(overridden := true) else t.files[id])
  }

  function Written(t: Tables, id: int, job: Job, rank: int): Tables {
    t.(files := t.files[id := File(false, job.kind, job.rel, rank)],
       objects := t.objects + Owned(job.parsed.objects, id), resources := t.resources + Owned(job.parsed.resources, id),
       fields := t.fields + Owned(job.parsed.fields, id), localization := t.localization + Owned(job.parsed.localization, id))
  }

  lemma {:induction false} WithoutFileRows(rows: seq<Row>, id: int, other: int)
    requires other != id
    ensures RowsOf(WithoutFile(rows, id), other) == RowsOf(rows, other)
  {
    if rows != [] {
      WithoutFileRows(rows[1..], id, other);
      var kept := WithoutFile(rows, id);
      if rows[0].fileId != id {
        assert kept[0] == rows[0] && kept[1..] == WithoutFile(rows[1..], id);
      } else {
        assert kept == WithoutFile(rows[1..], id);
      }
    }
  }

  lemma {:induction false} OwnedRows(rows: seq<Row>, id: int, other: int)
    requires other != id
    ensures RowsOf(Owned(rows, id), other) == []
  {
    if rows != [] {
      OwnedRows(rows[1..], id, other);
      assert Owned(rows, id)[1..] == Owned(rows[1..], id);
    }
  }

  lemma RowsOfHead(x: Row, rest: seq<Row>, id: int)
    ensures RowsOf([x] + rest, id) == (if x.fileId == id then [x] else []) + RowsOf(rest, id)
  {
    assert ([x] + rest)[1..] == rest;
  }

  lemma {:induction false} RowsOfSum(a: seq<Row>, b: seq<Row>, id: int)
    ensures RowsOf(a + b, id) == RowsOf(a, id) + RowsOf(b, id)
  {
    if a == [] {
      assert a + b == b;
    } else {
      hide RowsOf;
      RowsOfSum(a[1..], b, id);
      RowsOfHead(a[0], a[1..], id);
      RowsOfHead(a[0], a[1..] + b, id);
      assert a == [a[0]] + a[1..] && a + b == [a[0]] + (a[1..] + b);
    }
  }

  lemma AppendedRows(rows: seq<Row>, more: seq<Row>, id: int, other: int)
    requires other != id
    ensures RowsOf(rows + Owned(more, id), other) == RowsOf(rows, other)
  {
    RowsOfSum(rows, Owned(more, id), other);
    OwnedRows(more, id, other);
  }

  lemma DeletedSame(t: Tables, id: int, other: int)
    requires other != id
    ensures SameFile(t, Deleted(t, id), other)
  {
    hide RowsOf, WithoutFile;
    WithoutFileRows(t.objects, id, other);
    WithoutFileRows(t.resources, id, other);
    WithoutFileRows(t.fields, id, other);
    WithoutFileRows(t.localization, id, other);
  }

  lemma WrittenSame(t: Tables, id: int, job: Job, rank: int, other: int)
    requires other != id
    ensures SameFile(t, Written(t, id, job, rank), other)
  {
    hide RowsOf, Owned;
    AppendedRows(t.objects, job.parsed.objects, id, other);
    AppendedRows(t.resources, job.parsed.resources, id, other);
    AppendedRows(t.fields, job.parsed.fields, id, other);
    AppendedRows(t.localization, job.parsed.localization, id, other);
  }

  lemma OverridingSame(t: Tables, rel: string, rank: int, other: int)
    requires other !in Victims(t, rel, rank)
    ensures SameFile(t, Overriding(t, rel, rank), other)
  {
    hide RowsOf;
  }

  lemma UntouchedThen(a: Tables, b: Tables, c: Tables, id: int)
    requires Untouched(a, b, id) && SameFile(b, c, id)
    ensures Untouched(a, c, id)
  {
    hide RowsOf;
  }

  ghost predicate OwnedBy(rows: seq<Row>, ids: set<int>) {
    forall r :: r in rows ==> r.fileId in ids
  }

  ghost predicate NoOrphans(t: Tables) {
    OwnedBy(t.objects, t.files.Keys) && OwnedBy(t.resources, t.files.Keys) && OwnedBy(t.fields, t.files.Keys) && OwnedBy(t.localization, t.files.Keys)
  }

  ghost predicate OwnRows(t: Tables, id: int, p: Parsed) {
    && RowsOf(t.objects, id) == Owned(p.objects, id) && RowsOf(t.resources, id) == Owned(p.resources, id)
    && RowsOf(t.fields, id) == Owned(p.fields, id) && RowsOf(t.localization, id) == Owned(p.localization, id)
  }

  lemma {:induction false} WithoutFileOwned(rows: seq<Row>, ids: set<int>, id: int)
    requires OwnedBy(rows, ids)
    ensures OwnedBy(WithoutFile(rows, id), ids - {id})
  {
    if rows != [] {
      WithoutFileOwned(rows[1..], ids, id);
    }
  }

  lemma {:induction false} OwnedOwn(rows: seq<Row>, id: int)
    ensures OwnedBy(Owned(rows, id), {id}) && RowsOf(Owned(rows, id), id) == Owned(rows, id)
  {
    if rows != [] {
      OwnedOwn(rows[1..], id);
      assert Owned(rows, id)[1..] == Owned(rows[1..], id);
    }
  }

  lemma {:induction false} NoRowsOf(rows: seq<Row>, ids: set<int>, id: int)
    requires OwnedBy(rows, ids) && id !in ids
    ensures RowsOf(rows, id) == []
  {
    if rows != [] {
      NoRowsOf(rows[1..], ids, id);
    }
  }

  lemma AppendedOwned(rows: seq<Row>, more: seq<Row>, ids: set<int>, id: int)
    requires OwnedBy(rows, ids) && id !in ids
    ensures OwnedBy(rows + Owned(more, id), ids + {id}) && RowsOf(rows + Owned(more, id), id) == Owned(more, id)
  {
    OwnedOwn(more, id);
    NoRowsOf(rows, ids, id);
    RowsOfSum(rows, Owned(more, id), id);
  }

  /** Halfway through an edit; `pending` are the ids in `old` whose turn is still to come. */
  ghost predicate Editing(before: Tables, t: Tables, old_: set<int>, new_: set<int>, pending: set<int>) {
    && (forall id :: id !in old_ && id !in new_ ==> Untouched(before, t, id))
    && (forall id :: id in old_ && id !in new_ && id !in pending ==> !Active(t, id))
    && (forall id :: id in new_ && id !in old_ ==> !Active(before, id))
    && (forall id :: id in before.files && id !in t.files ==> id in old_)
    && before.datatypes == t.datatypes
    && (forall id :: id in old_ ==> id > 0) && (forall id :: id in new_ ==> id > 0) && (forall id :: id in t.files ==> id > 0)
  }

  lemma EditRemove(before: Tables, t: Tables, old_: set<int>, new_: set<int>, pending: set<int>, id: int)
    requires Editing(before, t, old_, new_, pending) && id in old_
    ensures Editing(before, Deleted(t, id), old_, new_, pending - {id})
  {
    hide SameFile, Untouched;
    var u := Deleted(t, id);
    forall other | other !in old_ && other !in new_
      ensures Untouched(before, u, other)
    {
      DeletedSame(t, id, other);
      UntouchedThen(before, t, u, other);
    }
    forall other | other in old_ && other !in new_ && other !in pending - {id}
      ensures !Active(u, other)
    {
      if other != id {
        assert !Active(t, other);
      }
    }
  }

  lemma EditOverride(before: Tables, t: Tables, old_: set<int>, new_: set<int>, pending: set<int>, rel: string, rank: int)
    requires Editing(before, t, old_, new_, pending)
    ensures Editing(before, Overriding(t, rel, rank), old_ + Victims(t, rel, rank), new_, pending)
  {
    hide SameFile, Untouched;
    var u, more := Overriding(t, rel, rank), old_ + Victims(t, rel, rank);
    forall other | other !in more && other !in new_
      ensures Untouched(before, u, other)
    {
      OverridingSame(t, rel, rank, other);
      UntouchedThen(before, t, u, other);
    }
    forall other | other in more && other !in new_ && other !in pending
      ensures !Active(u, other)
    {
      if other in old_ {
        assert !Active(t, other);
      }
    }
  }

  lemma EditWrite(before: Tables, t: Tables, old_: set<int>, new_: set<int>, pending: set<int>, id: int, job: Job, rank: int)
    requires Editing(before, t, old_, new_, pending) && id > 0 && id !in t.files
    ensures Editing(before, Written(t, id, job, rank), old_, new_ + {id}, pending)
  {
    hide SameFile, Untouched;
    var u := Written(t, id, job, rank);
    forall other | other !in old_ && other !in new_ + {id}
      ensures Untouched(before, u, other)
    {
      WrittenSame(t, id, job, rank, other);
      UntouchedThen(before, t, u, other);
    }
    forall other | other in old_ && other !in new_ + {id} && other !in pending
      ensures !Active(u, other)
    {
      assert !Active(t, other);
    }
  }

  /** INTEGER PRIMARY KEY picks an id that no row has. */
  method FreshId(ids: set<int>) returns (id: int)
    ensures id > 0 && id !in ids
  {
    id := 1;
    var rest := ids;
    while rest != {}
      invariant id > 0 && rest <= ids && forall k :: k in ids && k !in rest ==> k < id
      decreases rest
    {
      var k := AnyOf(rest);
      if k >= id {
        id := k + 1;
      }
      rest := rest - {k};
    }
  }

  ghost function PrevIds(jobs: seq<Job>): set<int> {
    set j | j in jobs && j.prev.Some? :: j.prev.value
  }

  lemma PrevIdsHead(jobs: seq<Job>, i: nat)
    requires i < |jobs|
    ensures PrevIds(jobs[i..]) == PrevIds(jobs[i + 1..]) + if jobs[i].prev.Some? then {jobs[i].prev.value} else {}
  {
    assert jobs[i..] == [jobs[i]] + jobs[i + 1..];
  }

  /** A file of lower precedence with the same path is marked as overridden. */
  function Marked(f: File, rel: string, rank: int): File {
    if f.relPath == rel && f.rank > rank then f.(overridden := true) else f
  }

  ghost predicate RowsKept(t: Tables, u: Tables, id: int) {
    && RowsOf(t.objects, id) == RowsOf(u.objects, id) && RowsOf(t.resources, id) == RowsOf(u.resources, id)
    && RowsOf(t.fields, id) == RowsOf(u.fields, id) && RowsOf(t.localization, id) == RowsOf(u.localization, id)
  }

  /** What one requested file that is written anew does to the tables: it stands under a new id with the rows parsed from it, its
      predecessor is gone, and of all other files those of lower precedence with its path are marked. */
  ghost predicate Rewritten(t: Tables, u: Tables, rank: int, job: Job, id: int) {
    && id in u.files && (id in t.files ==> job.prev == Some(id))
    && u.files[id] == File(false, job.kind, job.rel, rank) && OwnRows(u, id, job.parsed)
    && (forall k :: k != id ==> (k in u.files <==> k in t.files && job.prev != Some(k)))
    && (forall k :: k != id && k in u.files ==> u.files[k] == Marked(t.files[k], job.rel, rank) && RowsKept(t, u, k))
  }

  lemma JobRewrites(t: Tables, rank: int, job: Job, id: int)
    requires NoOrphans(t)
    requires var a := if job.prev.Some? then Deleted(t, job.prev.value) else t; id !in a.files
    ensures var a := if job.prev.Some? then Deleted(t, job.prev.value) else t;
            var u := Written(Overriding(a, job.rel, rank), id, job, rank);
            NoOrphans(u) && Rewritten(t, u, rank, job, id)
  {
    hide RowsOf, OwnRows, Deleted, Overriding, Written, RowsKept, NoOrphans;
    var a := if job.prev.Some? then Deleted(t, job.prev.value) else t;
    var b := Overriding(a, job.rel, rank);
    var u := Written(b, id, job, rank);
    if job.prev.Some? {
      DeletedOrphans(t, job.prev.value);
    }
    OverridingOrphans(a, job.rel, rank);
    WrittenRows(b, id, job, rank);
    FilesRewritten(t, rank, job, id);
    forall k | k != id && k in u.files
      ensures RowsKept(t, u, k)
    {
      RowsRewritten(t, rank, job, id, k);
    }
  }

  lemma OverridingOrphans(t: Tables, rel: string, rank: int)
    requires NoOrphans(t)
    ensures NoOrphans(Overriding(t, rel, rank)) && Overriding(t, rel, rank).files.Keys == t.files.Keys
  {
  }

  lemma FilesRewritten(t: Tables, rank: int, job: Job, id: int)
    ensures var u := Written(Overriding(if job.prev.Some? then Deleted(t, job.prev.value) else t, job.rel, rank), id, job, rank);
            && id in u.files && u.files[id] == File(false, job.kind, job.rel, rank)
            && (forall k :: k != id ==> (k in u.files <==> k in t.files && job.prev != Some(k)))
            && (forall k :: k != id && k in u.files ==> u.files[k] == Marked(t.files[k], job.rel, rank))
    ensures job.prev.Some? ==> Deleted(t, job.prev.value).files == t.files - {job.prev.value}
  {
    hide WithoutFile, Owned;
  }

  lemma RowsRewritten(t: Tables, rank: int, job: Job, id: int, k: int)
    requires k != id && job.prev != Some(k)
    ensures RowsKept(t, Written(Overriding(if job.prev.Some? then Deleted(t, job.prev.value) else t, job.rel, rank), id, job, rank), k)
  {
    hide RowsOf, WithoutFile, Owned;
    var a := if job.prev.Some? then Deleted(t, job.prev.value) else t;
    if job.prev.Some? {
      DeletedSame(t, job.prev.value, k);
    }
    WrittenSame(Overriding(a, job.rel, rank), id, job, rank, k);
  }

  lemma DeletedOrphans(t: Tables, id: int)
    requires NoOrphans(t)
    ensures NoOrphans(Deleted(t, id))
  {
    WithoutFileOwned(t.objects, t.files.Keys, id);
    WithoutFileOwned(t.resources, t.files.Keys, id);
    WithoutFileOwned(t.fields, t.files.Keys, id);
    WithoutFileOwned(t.localization, t.files.Keys, id);
  }

  lemma WrittenRows(t: Tables, id: int, job: Job, rank: int)
    requires NoOrphans(t) && id !in t.files
    ensures var u := Written(t, id, job, rank); NoOrphans(u) && OwnRows(u, id, job.parsed)
  {
    hide RowsOf, Owned;
    AppendedOwned(t.objects, job.parsed.objects, t.files.Keys, id);
    AppendedOwned(t.resources, job.parsed.resources, t.files.Keys, id);
    AppendedOwned(t.fields, job.parsed.fields, t.files.Keys, id);
    AppendedOwned(t.localization, job.parsed.localization, t.files.Keys, id);
  }

  /** One requested file: left as it is, or its predecessor deleted, what it overrides marked, and the file written anew. */
  method ApplyJob(ghost before: Tables, t: Tables, rank: int, job: Job, old_: set<int>, new_: set<int>, ghost pending: set<int>)
      returns (u: Tables, old': set<int>, new': set<int>, ghost id: int)
    requires Editing(before, t, old_, new_, pending) && NoOrphans(t)
    requires job.prev.Some? ==> job.prev.value in old_
    ensures old_ <= old' && NoOrphans(u)
    ensures if job.skip then u == t else Rewritten(t, u, rank, job, id)
    ensures Editing(before, u, old', new', pending - if job.prev.Some? then {job.prev.value} else {})
  {
    hide Editing, Deleted, Overriding, Written, Victims, NoOrphans, Rewritten;
    u, old', new', id := t, old_, new_, 0;
    if job.skip {
      if job.prev.Some? {
        new' := new' + {job.prev.value};
        EditKept(before, t, old_, new_, pending, job.prev.value);
      } else {
        assert pending - {} == pending;
      }
      return;
    }
    ghost var left := pending - if job.prev.Some? then {job.prev.value} else {};
    if job.prev.Some? {
      EditRemove(before, u, old', new', pending, job.prev.value);
      u := Deleted(u, job.prev.value);
    } else {
      assert left == pending;
    }
    EditOverride(before, u, old', new', left, job.rel, rank);
    old' := old' + Victims(u, job.rel, rank);
    u := Overriding(u, job.rel, rank);
    var fresh_ := FreshId(u.files.Keys);
    id := fresh_;
    OverridingKeys(if job.prev.Some? then Deleted(t, job.prev.value) else t, job.rel, rank);
    JobRewrites(t, rank, job, id);
    EditWrite(before, u, old', new', left, id, job, rank);
    u := Written(u, fresh_, job, rank);
    new' := new' + {fresh_};
  }

  lemma OverridingKeys(t: Tables, rel: string, rank: int)
    ensures Overriding(t, rel, rank).files.Keys == t.files.Keys
  {
  }

  lemma EditKept(before: Tables, t: Tables, old_: set<int>, new_: set<int>, pending: set<int>, id: int)
    requires Editing(before, t, old_, new_, pending) && id in old_
    ensures Editing(before, t, old_, new_ + {id}, pending - {id})
  {
    hide Untouched, Active;
  }

  /** Some requested file written anew has the path of f and takes precedence. */
  ghost predicate TakenOver(f: File, rank: int, jobs: seq<Job>) {
    exists j :: j in jobs && !j.skip && f.relPath == j.rel && f.rank > rank
  }

  ghost function MarkedBy(f: File, rank: int, jobs: seq<Job>): File {
    if TakenOver(f, rank, jobs) then f.(overridden := true) else f
  }

  /** What a refresh of named files has done: the files written anew stand under their ids with the rows parsed from them, the
      removed files and the predecessors are gone, and every other file is as it was but for a mark if it was taken over. */
  ghost predicate Refreshing(before: Tables, t: Tables, rank: int, gone: set<int>, done: seq<Job>, written: map<int, Job>) {
    && NoOrphans(t)
    && (forall j :: j in done && !j.skip ==> exists id :: id in written && written[id] == j)
    && (forall id :: id in written ==>
          id in t.files && t.files[id] == File(false, written[id].kind, written[id].rel, rank) && OwnRows(t, id, written[id].parsed))
    && (forall id :: id !in written ==> (id in t.files <==> id in before.files && id !in gone))
    && (forall id :: id !in written && id in t.files ==> t.files[id] == MarkedBy(before.files[id], rank, done) && RowsKept(before, t, id))
  }

  ghost function Replaced(jobs: seq<Job>): set<int> {
    set j | j in jobs && !j.skip && j.prev.Some? :: j.prev.value
  }

  lemma RefreshingNext(before: Tables, t: Tables, u: Tables, rank: int, gone: set<int>, done: seq<Job>, written: map<int, Job>, job: Job, id: int)
    requires Refreshing(before, t, rank, gone, done, written) && NoOrphans(u)
    requires if job.skip then u == t else Rewritten(t, u, rank, job, id)
    requires job.prev.Some? ==> job.prev.value !in written
    ensures var gone' := gone + if !job.skip && job.prev.Some? then {job.prev.value} else {};
            Refreshing(before, u, rank, gone', done + [job], if job.skip then written else written[id := job])
  {
    hide OwnRows, NoOrphans, RowsOf;
    if job.skip {
      forall f: File
        ensures TakenOver(f, rank, done + [job]) <==> TakenOver(f, rank, done)
      {
        assert forall j :: j in done + [job] <==> j in done || j == job;
      }
    } else {
      RefreshingWritten(before, t, u, rank, gone, done, written, job, id);
    }
  }

  lemma TakenOverNext(f: File, rank: int, done: seq<Job>, job: Job)
    requires !job.skip
    ensures MarkedBy(f, rank, done + [job]) == Marked(MarkedBy(f, rank, done), job.rel, rank)
  {
    assert forall j :: j in done + [job] <==> j in done || j == job;
    if TakenOver(f, rank, done) {
      var j :| j in done && !j.skip && f.relPath == j.rel && f.rank > rank;
      assert j in done + [job];
    }
  }

  lemma RefreshingWritten(before: Tables, t: Tables, u: Tables, rank: int, gone: set<int>, done: seq<Job>, written: map<int, Job>, job: Job, id: int)
    requires Refreshing(before, t, rank, gone, done, written) && NoOrphans(u) && !job.skip && Rewritten(t, u, rank, job, id)
    requires job.prev.Some? ==> job.prev.value !in written
    ensures Refreshing(before, u, rank, gone + (if job.prev.Some? then {job.prev.value} else {}), done + [job], written[id := job])
  {
    hide NoOrphans, RowsOf, TakenOver;
    var more := written[id := job];
    assert id !in written;
    forall j | j in done + [job] && !j.skip
      ensures exists k :: k in more && more[k] == j
    {
      if j == job {
        assert more[id] == j;
      } else {
        var k :| k in written && written[k] == j;
        assert more[k] == j;
      }
    }
    forall k | k in more
      ensures k in u.files && u.files[k] == File(false, more[k].kind, more[k].rel, rank) && OwnRows(u, k, more[k].parsed)
    {
      if k != id {
        assert k in t.files && RowsKept(t, u, k);
      }
    }
    forall k | k !in more && k in u.files
      ensures u.files[k] == MarkedBy(before.files[k], rank, done + [job]) && RowsKept(before, u, k)
    {
      TakenOverNext(before.files[k], rank, done, job);
    }
  }

  lemma RefreshingStart(before: Tables, rank: int)
    requires NoOrphans(before)
    ensures Refreshing(before, before, rank, {}, [], map[])
  {
  }

  lemma RefreshingRemoved(before: Tables, t: Tables, rank: int, gone: set<int>, id: int)
    requires Refreshing(before, t, rank, gone, [], map[])
    ensures Refreshing(before, Deleted(t, id), rank, gone + {id}, [], map[])
  {
    hide RowsOf, OwnRows;
    DeletedOrphans(t, id);
    forall k | k in t.files && k != id
      ensures RowsKept(t, Deleted(t, id), k)
    {
      DeletedSame(t, id, k);
    }
  }

  /** No two requested files have one predecessor, and none is removed. */
  ghost predicate Apart(removed: seq<int>, jobs: seq<Job>) {
    && (forall i, k {:trigger jobs[i], jobs[k]} :: 0 <= i < k < |jobs| && jobs[i].prev.Some? ==> jobs[i].prev != jobs[k].prev)
    && (forall i {:trigger jobs[i]} :: 0 <= i < |jobs| && jobs[i].prev.Some? ==> jobs[i].prev.value !in Elems(removed))
  }

  /** The predecessors of the files still to be taken are there, as no new file. */
  ghost predicate Awaited(t: Tables, written: map<int, Job>, jobs: seq<Job>, i: int) {
    forall k {:trigger jobs[k]} :: i <= k < |jobs| && 0 <= k && jobs[k].prev.Some? ==> jobs[k].prev.value in t.files && jobs[k].prev.value !in written
  }

  lemma AwaitedNext(t: Tables, u: Tables, rank: int, removed: seq<int>, jobs: seq<Job>, i: nat, written: map<int, Job>, id: int)
    requires i < |jobs| && Apart(removed, jobs) && Awaited(t, written, jobs, i)
    requires if jobs[i].skip then u == t else Rewritten(t, u, rank, jobs[i], id)
    ensures Awaited(u, if jobs[i].skip then written else written[id := jobs[i]], jobs, i + 1)
  {
    hide OwnRows, RowsKept;
    var more := if jobs[i].skip then written else written[id := jobs[i]];
    forall k | i + 1 <= k < |jobs| && jobs[k].prev.Some?
      ensures jobs[k].prev.value in u.files && jobs[k].prev.value !in more
    {
      var p := jobs[k].prev.value;
      assert p in t.files && p !in written;
      assert jobs[i].prev.Some? ==> jobs[i].prev != jobs[k].prev;
      if !jobs[i].skip {
        assert p != id;
        assert p in u.files;
      }
    }
  }

  /** The whole refresh: predecessors are collected first, removed files deleted, then the requested files taken one by one.
      The edit and the two id sets are such that refreshing the full-text rows of those files equals a rebuild. */
  method RefreshFiles(before: Tables, rank: int, removed: seq<int>, jobs: seq<Job>)
      returns (t: Tables, old_: set<int>, new_: set<int>, ghost written: map<int, Job>)
    requires NoOrphans(before) && Apart(removed, jobs) && forall id :: id in before.files ==> id > 0
    requires (forall id :: id in removed ==> id in before.files) && forall id :: id in PrevIds(jobs) ==> id in before.files
    ensures ScanEdit(before, t, old_, new_)
    ensures Refreshing(before, t, rank, Elems(removed) + Replaced(jobs), jobs, written)
  {
    hide Editing, Deleted, ScanEdit, Refreshing, NoOrphans, Apart, Awaited, Rewritten, Replaced;
    old_, new_ := {}, {};
    for i := 0 to |removed|
      invariant old_ == Elems(removed[..i])
    {
      old_ := old_ + {removed[i]};
      assert removed[..i + 1] == removed[..i] + [removed[i]];
    }
    assert removed[..|removed|] == removed;
    for i := 0 to |jobs|
      invariant old_ == Elems(removed) + PrevIds(jobs[..i])
    {
      assert jobs[..i + 1] == jobs[..i] + [jobs[i]];
      if jobs[i].prev.Some? {
        old_ := old_ + {jobs[i].prev.value};
      }
    }
    assert jobs[..|jobs|] == jobs && jobs[0..] == jobs;
    t := before;
    written := map[];
    RefreshingStart(before, rank);
    EditStart(before, old_);
    assert old_ == Elems(removed[0..]) + PrevIds(jobs);
    for i := 0 to |removed|
      invariant Elems(removed) + PrevIds(jobs) <= old_
      invariant Editing(before, t, old_, new_, Elems(removed[i..]) + PrevIds(jobs))
      invariant Refreshing(before, t, rank, Elems(removed[..i]), [], map[])
    {
      RefreshingRemoved(before, t, rank, Elems(removed[..i]), removed[i]);
      ElemsAppend(removed[..i], removed[i]);
      assert removed[..i + 1] == removed[..i] + [removed[i]];
      assert removed[i] in removed;
      EditRemove(before, t, old_, new_, Elems(removed[i..]) + PrevIds(jobs), removed[i]);
      t := Deleted(t, removed[i]);
      assert removed[i..] == [removed[i]] + removed[i + 1..];
      EditLess(before, t, old_, new_, Elems(removed[i..]) + PrevIds(jobs) - {removed[i]}, Elems(removed[i + 1..]) + PrevIds(jobs));
    }
    assert Elems(removed[|removed|..]) + PrevIds(jobs) == PrevIds(jobs[0..]);
    assert removed[..|removed|] == removed;
    AllAwaited(before, t, rank, removed, jobs);
    NoneReplaced(Elems(removed));
    assert jobs[..0] == [];
    for i := 0 to |jobs|
      invariant PrevIds(jobs) <= old_
      invariant Editing(before, t, old_, new_, PrevIds(jobs[i..]))
      invariant Refreshing(before, t, rank, Elems(removed) + Replaced(jobs[..i]), jobs[..i], written) && Awaited(t, written, jobs, i)
    {
      ghost var was, upTo := t, written;
      NoOrphansSoFar(before, t, rank, Elems(removed) + Replaced(jobs[..i]), jobs[..i], written);
      assert jobs[i] in jobs;
      PrevIdsHead(jobs, i);
      ghost var pending := PrevIds(jobs[i..]);
      ghost var id;
      t, old_, new_, id := ApplyJob(before, t, rank, jobs[i], old_, new_, pending);
      AwaitedNow(was, upTo, jobs, i);
      RefreshingNext(before, was, t, rank, Elems(removed) + Replaced(jobs[..i]), jobs[..i], upTo, jobs[i], id);
      AwaitedNext(was, t, rank, removed, jobs, i, upTo, id);
      written := if jobs[i].skip then upTo else upTo[id := jobs[i]];
      ReplacedNext(Elems(removed), jobs, i);
      EditLess(before, t, old_, new_, pending - (if jobs[i].prev.Some? then {jobs[i].prev.value} else {}), PrevIds(jobs[i + 1..]));
    }
    assert PrevIds(jobs[|jobs|..]) == {};
    assert jobs[..|jobs|] == jobs;
    EditDone(before, t, old_, new_);
  }

  lemma AllAwaited(before: Tables, t: Tables, rank: int, removed: seq<int>, jobs: seq<Job>)
    requires Refreshing(before, t, rank, Elems(removed), [], map[]) && Apart(removed, jobs)
    requires forall id :: id in PrevIds(jobs) ==> id in before.files
    ensures Awaited(t, map[], jobs, 0)
  {
    hide OwnRows, RowsKept, NoOrphans;
    var none: map<int, Job> := map[];
    forall k | 0 <= k < |jobs| && jobs[k].prev.Some?
      ensures jobs[k].prev.value in t.files
    {
      assert jobs[k] in jobs;
      var p := jobs[k].prev.value;
      assert p in PrevIds(jobs) && p !in none && p !in Elems(removed);
    }
  }

  lemma NoneReplaced(base: set<int>)
    ensures base + Replaced([]) == base
  {
  }

  lemma NoOrphansSoFar(before: Tables, t: Tables, rank: int, gone: set<int>, done: seq<Job>, written: map<int, Job>)
    requires Refreshing(before, t, rank, gone, done, written)
    ensures NoOrphans(t)
  {
    hide OwnRows, RowsKept, NoOrphans;
  }

  lemma AwaitedNow(t: Tables, written: map<int, Job>, jobs: seq<Job>, i: nat)
    requires Awaited(t, written, jobs, i) && i < |jobs|
    ensures jobs[i].prev.Some? ==> jobs[i].prev.value !in written
  {
  }

  lemma ReplacedNext(base: set<int>, jobs: seq<Job>, i: nat)
    requires i < |jobs|
    ensures jobs[..i + 1] == jobs[..i] + [jobs[i]]
    ensures base + Replaced(jobs[..i + 1]) == base + Replaced(jobs[..i]) + if !jobs[i].skip && jobs[i].prev.Some? then {jobs[i].prev.value} else {}
  {
    assert jobs[..i + 1] == jobs[..i] + [jobs[i]];
    assert forall j :: j in jobs[..i + 1] <==> j in jobs[..i] || j == jobs[i];
  }

  /** A refresh of named files leaves the full-text table as a full rebuild over the edited tables would build it. */
  method RefreshIndex(table: SearchTable, before: Tables, rank: int, removed: seq<int>, jobs: seq<Job>)
      returns (t: Tables, ghost written: map<int, Job>)
    requires multiset(table.rows) == multiset(FullRows(before)) && forall id :: id in before.files ==> id > 0
    requires NoOrphans(before) && Apart(removed, jobs)
    requires (forall id :: id in removed ==> id in before.files) && forall id :: id in PrevIds(jobs) ==> id in before.files
    modifies table
    ensures multiset(table.rows) == multiset(FullRows(t))
    ensures Refreshing(before, t, rank, Elems(removed) + Replaced(jobs), jobs, written)
  {
    hide FullRows, ScanEdit, Refreshed, Refreshing, NoOrphans, Apart;
    ghost var rows := table.rows;
    var old_, new_;
    t, old_, new_, written := RefreshFiles(before, rank, removed, jobs);
    table.RefreshForFiles(t, old_, new_);
    ScanRefreshIsRebuild(before, t, rows, old_, new_, table.rows);
  }

  lemma EditStart(before: Tables, old_: set<int>)
    requires (forall id :: id in before.files ==> id > 0) && forall id :: id in old_ ==> id in before.files
    ensures Editing(before, before, old_, {}, old_)
  {
  }

  lemma EditLess(before: Tables, t: Tables, old_: set<int>, new_: set<int>, pending: set<int>, more: set<int>)
    requires Editing(before, t, old_, new_, pending) && pending <= more
    ensures Editing(before, t, old_, new_, more)
  {
    hide Untouched, Active;
  }

  lemma EditDone(before: Tables, t: Tables, old_: set<int>, new_: set<int>)
    requires Editing(before, t, old_, new_, {})
    ensures ScanEdit(before, t, old_, new_)
  {
    hide Untouched, Active;
  }
}
