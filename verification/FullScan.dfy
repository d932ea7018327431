/** The full scan over an index that may already hold most of the files, and the index it leaves. */
module FullScan {
  import opened Order
  import opened Overrides
  import opened SearchIndex
  import opened ScanFiles
  import opened Wrappers

  /** A row of the file table with all its columns but size and time. */
  datatype Record = Record(source: Source, path: string, rel: string, kind: string, content: string, evidence: Evidence)

  datatype Index = Index(t: Tables, records: map<int, Record>)

  /** What the extractors make of a file. A resource is known by its path alone; a text may fail to parse. */
  datatype Parser = Parser(text: (Source, string, string, string) -> Result<Parsed>, resource: (Source, string) -> Parsed)

  function ParsedFrom(p: Parser, source: Source, rel: string, kind: string, content: string): Result<Parsed> {
    if kind == "resource" then Ok(p.resource(source, rel)) else p.text(source, rel, kind, content)
  }

  function FileOf(r: Record): File {
    File(r.evidence.Hidden?, r.kind, r.rel, r.source.rank)
  }

  function RecordOf(job: FileJob, e: Evidence): Record {
    Record(job.source, job.path, job.rel, job.kind, job.content, e)
  }

  /** The worker leaves a file alone: nothing that it compares has changed. */
  predicate Skips(job: FileJob, e: Evidence, r: Record) {
    && r.source == job.source && r.kind == job.kind && r.evidence == e
    && if e.Hidden? then r.content == job.content
       else !job.force && (r.content == job.content || (job.untouched && job.kind !in {"script", "localization", "schema"}))
  }

  ghost predicate Agrees(ix: Index) {
    ix.records.Keys == ix.t.files.Keys && forall id :: id in ix.records ==> id > 0 && ix.t.files[id] == FileOf(ix.records[id])
  }

  ghost predicate PathsUnique(records: map<int, Record>) {
    forall a, b {:trigger records[a], records[b]} :: a in records && b in records && records[a].path == records[b].path ==> a == b
  }

  /** A visible file has the rows that parsing its record gives. */
  ghost predicate RightRows(t: Tables, p: Parser, id: int, r: Record) {
    r.evidence.Visible? ==>
      var parsed := ParsedFrom(p, r.source, r.rel, r.kind, r.content);
      parsed.Ok? && OwnRows(t, id, parsed.value)
  }

  ghost predicate AllRight(ix: Index, p: Parser) {
    forall id :: id in ix.records ==> RightRows(ix.t, p, id, ix.records[id])
  }

  /** What every scan keeps. */
  ghost predicate Sane(ix: Index, p: Parser) {
    Agrees(ix) && PathsUnique(ix.records) && NoOrphans(ix.t) && AllRight(ix, p)
  }

  /** The rows of every visible file: what its extractor makes of a resource's path, and of a text's contents. */
  ghost predicate RowsRead(ix: Index, p: Parser) {
    forall id :: id in ix.records && ix.records[id].evidence == Visible ==>
      var r := ix.records[id];
      if r.kind == "resource" then OwnRows(ix.t, id, p.resource(r.source, r.rel))
      else var parsed := p.text(r.source, r.rel, r.kind, r.content); parsed.Ok? && OwnRows(ix.t, id, parsed.value)
  }

  lemma SaneRows(ix: Index, p: Parser)
    requires Sane(ix, p)
    ensures RowsRead(ix, p)
  {
    hide OwnRows, Agrees, NoOrphans, PathsUnique;
    forall id | id in ix.records && ix.records[id].evidence == Visible
      ensures RightRows(ix.t, p, id, ix.records[id])
    {
    }
  }

  function Emptied(datatypes: seq<EngineType>): Index {
    Index(Tables(map[], [], [], [], [], datatypes), map[])
  }

  lemma EmptiedSane(datatypes: seq<EngineType>, p: Parser)
    ensures Sane(Emptied(datatypes), p)
  {
  }

  function Dropped(ix: Index, id: int): Index {
    Index(Deleted(ix.t, id), ix.records - {id})
  }

  function WithHiddenFile(ix: Index, id: int, r: Record): Index {
    Index(ix.t.(files := ix.t.files[id := FileOf(r)]), ix.records[id := r])
  }

  function WithFile(ix: Index, id: int, r: Record, parsed: Parsed): Index {
    Index(Written(ix.t, id, Job(r.rel, r.kind, None, false, parsed), r.source.rank), ix.records[id := r])
  }

  lemma SameRight(t: Tables, u: Tables, p: Parser, id: int, r: Record)
    requires SameFile(t, u, id) && RightRows(t, p, id, r)
    ensures RightRows(u, p, id, r)
  {
  }

  lemma DroppedSane(ix: Index, p: Parser, id: int)
    requires Sane(ix, p)
    ensures Sane(Dropped(ix, id), p)
  {
    hide RightRows, SameFile;
    WithoutFileOwned(ix.t.objects, ix.t.files.Keys, id);
    WithoutFileOwned(ix.t.resources, ix.t.files.Keys, id);
    WithoutFileOwned(ix.t.fields, ix.t.files.Keys, id);
    WithoutFileOwned(ix.t.localization, ix.t.files.Keys, id);
    forall other | other in ix.records && other != id
      ensures RightRows(Deleted(ix.t, id), p, other, ix.records[other])
    {
      DeletedSame(ix.t, id, other);
      SameRight(ix.t, Deleted(ix.t, id), p, other, ix.records[other]);
    }
  }

  ghost predicate FreeFor(ix: Index, id: int, path: string) {
    id > 0 && id !in ix.t.files && forall k :: k in ix.records ==> ix.records[k].path != path
  }

  lemma HiddenSane(ix: Index, p: Parser, id: int, r: Record)
    requires Sane(ix, p) && FreeFor(ix, id, r.path) && r.evidence.Hidden?
    ensures Sane(WithHiddenFile(ix, id, r), p)
  {
    hide RowsOf;
    var u := WithHiddenFile(ix, id, r);
    forall other | other in u.records
      ensures RightRows(u.t, p, other, u.records[other])
    {
      if other != id {
        assert RightRows(ix.t, p, other, ix.records[other]);
      }
    }
  }

  lemma VisibleListed(ix: Index, id: int, r: Record, parsed: Parsed)
    requires Agrees(ix) && PathsUnique(ix.records) && FreeFor(ix, id, r.path) && r.evidence.Visible?
    ensures var u := WithFile(ix, id, r, parsed); Agrees(u) && PathsUnique(u.records)
  {
    hide Owned;
  }

  lemma VisibleRows(ix: Index, id: int, r: Record, parsed: Parsed)
    requires NoOrphans(ix.t) && id !in ix.t.files
    ensures var u := WithFile(ix, id, r, parsed); NoOrphans(u.t) && OwnRows(u.t, id, parsed)
  {
    hide RowsOf, Owned;
    AppendedOwned(ix.t.objects, parsed.objects, ix.t.files.Keys, id);
    AppendedOwned(ix.t.resources, parsed.resources, ix.t.files.Keys, id);
    AppendedOwned(ix.t.fields, parsed.fields, ix.t.files.Keys, id);
    AppendedOwned(ix.t.localization, parsed.localization, ix.t.files.Keys, id);
  }

  lemma VisibleSane(ix: Index, p: Parser, id: int, r: Record, parsed: Parsed)
    requires Sane(ix, p) && FreeFor(ix, id, r.path) && r.evidence.Visible?
    requires ParsedFrom(p, r.source, r.rel, r.kind, r.content) == Ok(parsed)
    ensures Sane(WithFile(ix, id, r, parsed), p)
  {
    hide RowsOf, SameFile, ParsedFrom, Agrees, PathsUnique, NoOrphans, OwnRows;
    var u := WithFile(ix, id, r, parsed);
    VisibleListed(ix, id, r, parsed);
    VisibleRows(ix, id, r, parsed);
    forall other | other in u.records
      ensures RightRows(u.t, p, other, u.records[other])
    {
      if other != id {
        WrittenSame(ix.t, id, Job(r.rel, r.kind, None, false, parsed), r.source.rank, other);
        SameRight(ix.t, u.t, p, other, ix.records[other]);
      }
    }
  }

  lemma EditHide(before: Tables, t: Tables, old_: set<int>, new_: set<int>, id: int, file: File)
    requires Editing(before, t, old_, new_, {}) && id > 0 && id !in t.files && file.overridden
    ensures Editing(before, t.(files := t.files[id := file]), old_, new_, {})
  {
    hide RowsOf;
    var u := t.(files := t.files[id := file]);
    forall other | other !in old_ && other !in new_
      ensures Untouched(before, u, other)
    {
      assert Untouched(before, t, other);
    }
  }

  lemma EditTrack(before: Tables, t: Tables, old_: set<int>, new_: set<int>, id: int)
    requires Editing(before, t, old_, new_, {}) && id > 0
    ensures Editing(before, t, old_ + {id}, new_, {id})
  {
    hide Untouched, Active;
  }

  // What becomes of the files.

  /** The record under a path, if any, lets the worker skip the file. */
  ghost predicate SkippedIn(was: map<int, Record>, job: FileJob, e: Evidence) {
    exists id :: id in was && was[id].path == job.path && Skips(job, e, was[id])
  }

  /** Afterwards the file is on record: as before if it was skipped, else as the job has it. */
  ghost predicate Settled(was: map<int, Record>, now: map<int, Record>, job: FileJob, e: Evidence) {
    exists id :: id in now && SettledAs(was, now, job, e, id)
  }

  ghost predicate SettledAs(was: map<int, Record>, now: map<int, Record>, job: FileJob, e: Evidence, id: int)
    requires id in now
  {
    && now[id].path == job.path
    && if SkippedIn(was, job, e) then id in was && was[id] == now[id] else now[id] == RecordOf(job, e)
  }

  /** The files under other paths are those that were there. */
  ghost predicate OthersKept(was: map<int, Record>, now: map<int, Record>, path: string) {
    && (forall id {:trigger was[id]} :: id in was && was[id].path != path ==> id in now && now[id] == was[id])
    && (forall id {:trigger now[id]} :: id in now && now[id].path != path ==> id in was && now[id] == was[id])
  }

  ghost predicate PathKept(was: map<int, Record>, now: map<int, Record>, path: string) {
    && (forall id {:trigger was[id]} :: id in was && was[id].path == path ==> id in now && now[id] == was[id])
    && (forall id {:trigger now[id]} :: id in now && now[id].path == path ==> id in was && now[id] == was[id])
  }

  ghost predicate FoundAt(records: map<int, Record>, path: string, prev: Option<int>) {
    match prev
    case Some(id) => id in records && records[id].path == path
    case None => forall id :: id in records ==> records[id].path != path
  }

  /** One result of the workers. */
  method TakeResult(ghost before: Tables, ix: Index, p: Parser, job: FileJob, e: Evidence, prev: Option<int>, old_: set<int>, new_: set<int>)
      returns (r: Result<Index>, old': set<int>, new': set<int>)
    requires Sane(ix, p) && Editing(before, ix.t, old_, new_, {}) && FoundAt(ix.records, job.path, prev)
    ensures r.Err? <==> !SkippedIn(ix.records, job, e) && e.Visible? && ParsedFrom(p, job.source, job.rel, job.kind, job.content).Err?
    ensures r.Ok? ==> Sane(r.value, p) && Editing(before, r.value.t, old', new', {})
    ensures r.Ok? ==> OthersKept(ix.records, r.value.records, job.path) && Settled(ix.records, r.value.records, job, e)
    ensures SkippedIn(ix.records, job, e) ==> r == Ok(ix) && old' == old_ && new' == new_
  {
    hide Sane, Editing, RowsOf, Skips, ParsedFrom;
    var u := ix;
    old', new' := old_, new_;
    PrevDecides(ix, p, job, e, prev);
    if prev.Some? && Skips(job, e, ix.records[prev.value]) {
      assert SettledAs(ix.records, ix.records, job, e, prev.value);
      return Ok(ix), old', new';
    }
    var parsed := ParsedFrom(p, job.source, job.rel, job.kind, job.content);
    if e.Visible? && parsed.Err? {
      return Err, old', new';
    }
    if prev.Some? {
      PositiveIds(ix, p, prev.value);
      EditTrack(before, u.t, old', new', prev.value);
      old' := old' + {prev.value};
      EditRemove(before, u.t, old', new', {prev.value}, prev.value);
      assert {prev.value} - {prev.value} == {};
      DroppedSane(u, p, prev.value);
      u := Dropped(u, prev.value);
    }
    var id := FreshId(u.t.files.Keys);
    ghost var kept := u;
    DroppedFree(ix, p, job.path, prev, u, id);
    if e.Hidden? {
      EditHide(before, u.t, old', new', id, FileOf(RecordOf(job, e)));
      HiddenSane(u, p, id, RecordOf(job, e));
      u := WithHiddenFile(u, id, RecordOf(job, e));
    } else {
      EditWrite(before, u.t, old', new', {}, id, Job(job.rel, job.kind, None, false, parsed.value), job.source.rank);
      VisibleSane(u, p, id, RecordOf(job, e), parsed.value);
      u := WithFile(u, id, RecordOf(job, e), parsed.value);
      new' := new' + {id};
    }
    assert SettledAs(ix.records, u.records, job, e, id);
    return Ok(u), old', new';
  }

  lemma PositiveIds(ix: Index, p: Parser, id: int)
    requires Sane(ix, p) && id in ix.records
    ensures id > 0
  {
    hide AllRight, NoOrphans;
  }

  lemma PrevDecides(ix: Index, p: Parser, job: FileJob, e: Evidence, prev: Option<int>)
    requires Sane(ix, p) && FoundAt(ix.records, job.path, prev)
    ensures SkippedIn(ix.records, job, e) <==> prev.Some? && Skips(job, e, ix.records[prev.value])
  {
    hide AllRight, NoOrphans, Agrees, Skips;
  }

  lemma DroppedFree(ix: Index, p: Parser, path: string, prev: Option<int>, u: Index, id: int)
    requires Sane(ix, p) && FoundAt(ix.records, path, prev)
    requires u == (if prev.Some? then Dropped(ix, prev.value) else ix) && id > 0 && id !in u.t.files
    ensures FreeFor(u, id, path) && u.records.Keys == u.t.files.Keys
    ensures OthersKept(ix.records, u.records, path)
  {
    hide AllRight, NoOrphans, WithoutFile;
  }

  /** Which id each path is recorded under. */
  ghost predicate Listed(records: map<int, Record>, existing: map<string, int>) {
    && (forall id :: id in records ==> records[id].path in existing && existing[records[id].path] == id)
    && (forall path :: path in existing ==> existing[path] in records && records[existing[path]].path == path)
  }

  method Existing(records: map<int, Record>) returns (existing: map<string, int>)
    requires PathsUnique(records)
    ensures Listed(records, existing)
  {
    existing := map[];
    var rest := records.Keys;
    while rest != {}
      invariant rest <= records.Keys
      invariant forall id :: id in records && id !in rest ==> records[id].path in existing && existing[records[id].path] == id
      invariant forall path :: path in existing ==> existing[path] in records && existing[path] !in rest && records[existing[path]].path == path
      decreases rest
    {
      var id := AnyOf(rest);
      existing := existing[records[id].path := id];
      rest := rest - {id};
    }
  }

  /** No file is walked twice. */
  ghost predicate DistinctPaths(jobs: seq<FileJob>) {
    forall i, j {:trigger jobs[i], jobs[j]} :: 0 <= i < j < |jobs| ==> jobs[i].path != jobs[j].path
  }

  predicate Fails(p: Parser, job: FileJob, e: Evidence) {
    e.Visible? && ParsedFrom(p, job.source, job.rel, job.kind, job.content).Err?
  }

  /** The file stops the scan: it is not skipped, and parsing it fails. */
  ghost predicate Stops(was: map<int, Record>, p: Parser, job: FileJob, e: Evidence) {
    !SkippedIn(was, job, e) && Fails(p, job, e)
  }

  /** Where the loop over the results stands: the files done are settled, all others as they were. */
  ghost predicate Halfway(was: map<int, Record>, now: map<int, Record>, p: Parser, jobs: seq<FileJob>, evidence: seq<Evidence>, waiting: set<int>)
    requires |evidence| == |jobs|
  {
    && (forall i {:trigger jobs[i]} :: 0 <= i < |jobs| && i !in waiting ==>
          Settled(was, now, jobs[i], evidence[i]) && !Stops(was, p, jobs[i], evidence[i]))
    && (forall path {:trigger PathKept(was, now, path)} :: StillToCome(jobs, waiting, path) ==> PathKept(was, now, path))
  }

  /** No file done so far has this path. */
  ghost predicate StillToCome(jobs: seq<FileJob>, waiting: set<int>, path: string) {
    forall i {:trigger jobs[i]} :: 0 <= i < |jobs| && i !in waiting ==> jobs[i].path != path
  }

  ghost predicate Tracks(jobs: seq<FileJob>, waiting: set<int>, tracked: set<string>) {
    forall path :: path in tracked <==> !StillToCome(jobs, waiting, path)
  }

  lemma HalfwayStart(was: map<int, Record>, p: Parser, jobs: seq<FileJob>, evidence: seq<Evidence>, waiting: set<int>)
    requires |evidence| == |jobs| && forall i :: 0 <= i < |jobs| ==> i in waiting
    ensures Halfway(was, was, p, jobs, evidence, waiting) && Tracks(jobs, waiting, {})
  {
    hide Settled, Stops;
  }

  lemma KeptFound(was: map<int, Record>, now: map<int, Record>, existing: map<string, int>, path: string)
    requires Listed(was, existing) && PathKept(was, now, path)
    ensures FoundAt(now, path, if path in existing then Some(existing[path]) else None)
  {
  }

  lemma KeptSkip(was: map<int, Record>, now: map<int, Record>, job: FileJob, e: Evidence)
    requires PathKept(was, now, job.path)
    ensures SkippedIn(was, job, e) <==> SkippedIn(now, job, e)
  {
    hide Skips;
    if id :| id in was && was[id].path == job.path && Skips(job, e, was[id]) {
      assert now[id] == was[id];
    }
    if id :| id in now && now[id].path == job.path && Skips(job, e, now[id]) {
      assert now[id] == was[id];
    }
  }

  lemma SettledFirst(was: map<int, Record>, mid: map<int, Record>, now: map<int, Record>, job: FileJob, e: Evidence)
    requires PathKept(was, mid, job.path) && Settled(mid, now, job, e)
    ensures Settled(was, now, job, e)
  {
    hide SkippedIn;
    KeptSkip(was, mid, job, e);
    var id :| id in now && SettledAs(mid, now, job, e, id);
    assert SettledAs(was, now, job, e, id);
  }

  lemma SettledStill(was: map<int, Record>, mid: map<int, Record>, now: map<int, Record>, job: FileJob, e: Evidence, path: string)
    requires Settled(was, mid, job, e) && OthersKept(mid, now, path) && path != job.path
    ensures Settled(was, now, job, e)
  {
    hide SkippedIn;
    var id :| id in mid && SettledAs(was, mid, job, e, id);
    assert now[id] == mid[id];
    assert SettledAs(was, now, job, e, id);
  }

  lemma KeptStill(was: map<int, Record>, mid: map<int, Record>, now: map<int, Record>, other: string, path: string)
    requires PathKept(was, mid, other) && OthersKept(mid, now, path) && path != other
    ensures PathKept(was, now, other)
  {
    forall id {:trigger was[id]} | id in was && was[id].path == other
      ensures id in now && now[id] == was[id]
    {
      assert mid[id] == was[id];
    }
    forall id {:trigger now[id]} | id in now && now[id].path == other
      ensures id in was && now[id] == was[id]
    {
      assert now[id] == mid[id];
    }
  }

  lemma HalfwayNext(was: map<int, Record>, mid: map<int, Record>, now: map<int, Record>, p: Parser, jobs: seq<FileJob>,
                    evidence: seq<Evidence>, waiting: set<int>, i: int)
    requires |evidence| == |jobs| && DistinctPaths(jobs) && i in waiting && 0 <= i < |jobs|
    requires Halfway(was, mid, p, jobs, evidence, waiting)
    requires OthersKept(mid, now, jobs[i].path) && Settled(mid, now, jobs[i], evidence[i]) && !Stops(was, p, jobs[i], evidence[i])
    ensures Halfway(was, now, p, jobs, evidence, waiting - {i})
  {
    hide Settled, Stops, PathKept, OthersKept;
    assert StillToCome(jobs, waiting, jobs[i].path);
    assert PathKept(was, mid, jobs[i].path);
    SettledFirst(was, mid, now, jobs[i], evidence[i]);
    forall k {:trigger jobs[k]} | 0 <= k < |jobs| && k !in waiting - {i} && k != i
      ensures Settled(was, now, jobs[k], evidence[k]) && !Stops(was, p, jobs[k], evidence[k])
    {
      assert jobs[k].path != jobs[i].path;
      SettledStill(was, mid, now, jobs[k], evidence[k], jobs[i].path);
    }
    forall path {:trigger PathKept(was, now, path)} | StillToCome(jobs, waiting - {i}, path)
      ensures PathKept(was, now, path)
    {
      assert jobs[i].path != path;
      assert StillToCome(jobs, waiting, path);
      assert PathKept(was, mid, path);
      KeptStill(was, mid, now, path, jobs[i].path);
    }
  }

  lemma TracksNext(jobs: seq<FileJob>, waiting: set<int>, tracked: set<string>, i: int)
    requires Tracks(jobs, waiting, tracked) && i in waiting && 0 <= i < |jobs|
    ensures Tracks(jobs, waiting - {i}, tracked + {jobs[i].path})
  {
    forall path
      ensures path in tracked + {jobs[i].path} <==> !StillToCome(jobs, waiting - {i}, path)
    {
      assert path in tracked <==> !StillToCome(jobs, waiting, path);
      if !StillToCome(jobs, waiting - {i}, path) {
        var k :| 0 <= k < |jobs| && k !in waiting - {i} && jobs[k].path == path;
        if k != i {
          assert !StillToCome(jobs, waiting, path);
        }
      }
    }
  }

  /** After the scan every walked file is settled, and no other is on record. */
  ghost predicate Scanned(was: map<int, Record>, now: map<int, Record>, jobs: seq<FileJob>, evidence: seq<Evidence>)
    requires |evidence| == |jobs|
  {
    && (forall i {:trigger jobs[i]} :: 0 <= i < |jobs| ==> Settled(was, now, jobs[i], evidence[i]))
    && (forall id {:trigger now[id]} :: id in now ==> Walked(jobs, now[id].path))
  }

  ghost predicate Walked(jobs: seq<FileJob>, path: string) {
    exists i :: 0 <= i < |jobs| && jobs[i].path == path
  }

  ghost predicate NothingToDo(was: map<int, Record>, jobs: seq<FileJob>, evidence: seq<Evidence>)
    requires |evidence| == |jobs|
  {
    && (forall i {:trigger jobs[i]} :: 0 <= i < |jobs| ==> SkippedIn(was, jobs[i], evidence[i]))
    && (forall id {:trigger was[id]} :: id in was ==> Walked(jobs, was[id].path))
  }

  ghost predicate SomeStop(was: map<int, Record>, p: Parser, jobs: seq<FileJob>, evidence: seq<Evidence>)
    requires |evidence| == |jobs|
  {
    exists i {:trigger jobs[i]} :: 0 <= i < |jobs| && Stops(was, p, jobs[i], evidence[i])
  }

  function Below(n: nat): (s: set<int>)
    ensures forall i :: i in s <==> 0 <= i < n
  {
    if n == 0 then {} else Below(n - 1) + {n - 1}
  }

  /** A file that must be read again: none of its records has its contents, unless only size and time are asked for, as they are
      of a visible file that is not a text; or it is visible and a new parse is forced. */
  ghost predicate MustRead(was: map<int, Record>, job: FileJob, e: Evidence) {
    || (e.Visible? && job.force)
    || forall id :: id in was && was[id].path == job.path ==>
         was[id].content != job.content && (e.Hidden? || !job.untouched || job.kind in {"script", "localization", "schema"})
  }

  /** How a walked file stands on record: hidden files, texts and forced files with their contents, and another one with older
      contents only if its size and time have not changed. */
  ghost predicate RecordedAs(r: Record, job: FileJob, e: Evidence) {
    && r.path == job.path && r.source == job.source && r.kind == job.kind && r.evidence == e
    && (e.Hidden? || job.kind in {"script", "localization", "schema"} || job.force || !job.untouched ==> r.content == job.content)
    && (e.Visible? && job.force ==> r == RecordOf(job, e))
  }

  ghost predicate HasRecord(now: map<int, Record>, job: FileJob, e: Evidence) {
    exists id :: id in now && RecordedAs(now[id], job, e)
  }

  /** Every walked file is on record, and those that must be read again are on record as they are now. */
  ghost predicate AllRead(was: map<int, Record>, now: map<int, Record>, jobs: seq<FileJob>, evidence: seq<Evidence>)
    requires |evidence| == |jobs|
  {
    forall i {:trigger jobs[i]} :: 0 <= i < |jobs| ==>
      && HasRecord(now, jobs[i], evidence[i])
      && (MustRead(was, jobs[i], evidence[i]) ==> OnRecord(now, RecordOf(jobs[i], evidence[i])))
  }

  /** A scan fails only if some visible file cannot be parsed, and does fail if such a file must be read again. */
  ghost predicate FailsAsRead(was: map<int, Record>, p: Parser, jobs: seq<FileJob>, evidence: seq<Evidence>, failed: bool)
    requires |evidence| == |jobs|
  {
    && (failed ==> exists i {:trigger jobs[i]} :: 0 <= i < |jobs| && Fails(p, jobs[i], evidence[i]))
    && ((exists i {:trigger jobs[i]} :: 0 <= i < |jobs| && Fails(p, jobs[i], evidence[i]) && MustRead(was, jobs[i], evidence[i])) ==> failed)
  }

  lemma SettledIsRead(was: map<int, Record>, now: map<int, Record>, job: FileJob, e: Evidence)
    requires Settled(was, now, job, e) && PathsUnique(was)
    ensures HasRecord(now, job, e) && (MustRead(was, job, e) ==> OnRecord(now, RecordOf(job, e)))
  {
    var id :| id in now && SettledAs(was, now, job, e, id);
    if SkippedIn(was, job, e) {
      var k :| k in was && was[k].path == job.path && Skips(job, e, was[k]);
      assert k == id;
    }
    assert RecordedAs(now[id], job, e);
  }

  lemma ScannedIsRead(was: map<int, Record>, now: map<int, Record>, jobs: seq<FileJob>, evidence: seq<Evidence>)
    requires |evidence| == |jobs| && Scanned(was, now, jobs, evidence) && PathsUnique(was)
    ensures AllRead(was, now, jobs, evidence)
  {
    hide Settled, PathsUnique, HasRecord, MustRead, OnRecord;
    forall i {:trigger jobs[i]} | 0 <= i < |jobs|
      ensures HasRecord(now, jobs[i], evidence[i])
      ensures MustRead(was, jobs[i], evidence[i]) ==> OnRecord(now, RecordOf(jobs[i], evidence[i]))
    {
      SettledIsRead(was, now, jobs[i], evidence[i]);
    }
  }

  lemma StopsAsRead(was: map<int, Record>, p: Parser, jobs: seq<FileJob>, evidence: seq<Evidence>)
    requires |evidence| == |jobs|
    ensures FailsAsRead(was, p, jobs, evidence, SomeStop(was, p, jobs, evidence))
  {
    hide Fails;
    forall i {:trigger jobs[i]} | 0 <= i < |jobs| && MustRead(was, jobs[i], evidence[i])
      ensures !SkippedIn(was, jobs[i], evidence[i])
    {
    }
  }

  /** The edit of a full scan: the results in whatever order the workers deliver them, then the files no longer there. */
  method EditIndex(before: Index, p: Parser, jobs: seq<FileJob>, evidence: seq<Evidence>) returns (r: Result<Index>, old_: set<int>, new_: set<int>)
    requires Sane(before, p) && |evidence| == |jobs| && DistinctPaths(jobs)
    ensures r.Err? <==> SomeStop(before.records, p, jobs, evidence)
    ensures FailsAsRead(before.records, p, jobs, evidence, r.Err?) && (r.Ok? ==> AllRead(before.records, r.value.records, jobs, evidence))
    ensures r.Ok? ==> Sane(r.value, p) && ScanEdit(before.t, r.value.t, old_, new_) && Scanned(before.records, r.value.records, jobs, evidence)
    ensures NothingToDo(before.records, jobs, evidence) ==> r == Ok(before) && old_ == {} && new_ == {}
  {
    hide Sane, Editing, ScanEdit, Halfway, Tracks, Settled, Stops, SkippedIn, Listed, AllRead, FailsAsRead;
    SanePaths(before, p);
    StopsAsRead(before.records, p, jobs, evidence);
    var existing := Existing(before.records);
    var ix := before;
    old_, new_ := {}, {};
    var tracked: set<string> := {};
    var waiting := Below(|jobs|);
    EditNothing(before, p);
    HalfwayStart(before.records, p, jobs, evidence, waiting);
    while waiting != {}
      invariant forall i :: i in waiting ==> 0 <= i < |jobs|
      invariant Sane(ix, p) && Editing(before.t, ix.t, old_, new_, {})
      invariant Halfway(before.records, ix.records, p, jobs, evidence, waiting) && Tracks(jobs, waiting, tracked)
      invariant NothingToDo(before.records, jobs, evidence) ==> ix == before && old_ == {} && new_ == {}
      decreases waiting
    {
      var i := AnyOf(waiting);
      var job := jobs[i];
      WaitingKept(before.records, ix.records, p, jobs, evidence, waiting, i);
      KeptFound(before.records, ix.records, existing, job.path);
      KeptSkip(before.records, ix.records, job, evidence[i]);
      var prev := if job.path in existing then Some(existing[job.path]) else None;
      ghost var mid, trackedBefore := ix, tracked;
      StopsMeans(before.records, ix.records, p, job, evidence[i]);
      var taken;
      taken, old_, new_ := TakeResult(before.t, ix, p, job, evidence[i], prev, old_, new_);
      if taken.Err? {
        return Err, {}, {};
      }
      ix := taken.value;
      tracked := tracked + {job.path};
      HalfwayNext(before.records, mid.records, ix.records, p, jobs, evidence, waiting, i);
      TracksNext(jobs, waiting, trackedBefore, i);
      waiting := waiting - {i};
    }
    CleaningStart(before.records, ix.records, p, jobs, evidence, tracked, existing);
    var rest := existing.Keys;
    while rest != {}
      invariant rest <= existing.Keys
      invariant Sane(ix, p) && Editing(before.t, ix.t, old_, new_, {})
      invariant Cleaning(before.records, ix.records, jobs, evidence, tracked, rest)
      invariant NothingToDo(before.records, jobs, evidence) ==> ix == before && old_ == {} && new_ == {}
      decreases rest
    {
      var path :| path in rest;
      var id := existing[path];
      if path !in tracked {
        StillListed(before.records, ix.records, jobs, evidence, tracked, rest, existing, path);
        PositiveIds(ix, p, id);
        EditTrack(before.t, ix.t, old_, new_, id);
        EditRemove(before.t, ix.t, old_ + {id}, new_, {id}, id);
        assert {id} - {id} == {};
        SanePaths(ix, p);
        CleaningNext(before.records, ix.records, jobs, evidence, tracked, rest, path, id);
        DroppedSane(ix, p, id);
        old_ := old_ + {id};
        ix := Dropped(ix, id);
      } else {
        CleaningSkip(before.records, ix.records, jobs, evidence, tracked, rest, path);
      }
      rest := rest - {path};
    }
    EditDone(before.t, ix.t, old_, new_);
    ScannedIsRead(before.records, ix.records, jobs, evidence);
    return Ok(ix), old_, new_;
  }

  lemma SanePaths(ix: Index, p: Parser)
    requires Sane(ix, p)
    ensures PathsUnique(ix.records)
  {
    hide AllRight, NoOrphans, Agrees, PathsUnique;
  }

  lemma EditNothing(ix: Index, p: Parser)
    requires Sane(ix, p)
    ensures Editing(ix.t, ix.t, {}, {}, {})
  {
    hide AllRight, NoOrphans, RowsOf;
    EditStart(ix.t, {});
  }

  lemma WaitingKept(was: map<int, Record>, now: map<int, Record>, p: Parser, jobs: seq<FileJob>, evidence: seq<Evidence>, waiting: set<int>, i: int)
    requires |evidence| == |jobs| && DistinctPaths(jobs) && Halfway(was, now, p, jobs, evidence, waiting) && i in waiting && 0 <= i < |jobs|
    ensures PathKept(was, now, jobs[i].path)
  {
    hide Settled, Stops, PathKept;
    assert StillToCome(jobs, waiting, jobs[i].path);
  }

  lemma StopsMeans(was: map<int, Record>, now: map<int, Record>, p: Parser, job: FileJob, e: Evidence)
    requires PathKept(was, now, job.path)
    ensures Stops(was, p, job, e) <==> !SkippedIn(now, job, e) && Fails(p, job, e)
  {
    hide SkippedIn;
    KeptSkip(was, now, job, e);
  }

  /** Where the removal stands: what is on record was walked or is still to be looked at. */
  ghost predicate Cleaning(was: map<int, Record>, now: map<int, Record>, jobs: seq<FileJob>, evidence: seq<Evidence>,
                           tracked: set<string>, rest: set<string>)
    requires |evidence| == |jobs|
  {
    && (forall path {:trigger path in tracked} :: path in tracked <==> Walked(jobs, path))
    && (forall i {:trigger jobs[i]} :: 0 <= i < |jobs| ==> Settled(was, now, jobs[i], evidence[i]))
    && (forall path {:trigger PathKept(was, now, path)} :: path in rest && path !in tracked ==> PathKept(was, now, path))
    && (forall id {:trigger now[id]} :: id in now ==> now[id].path in tracked || now[id].path in rest)
  }

  lemma CleaningStart(was: map<int, Record>, now: map<int, Record>, p: Parser, jobs: seq<FileJob>, evidence: seq<Evidence>,
                      tracked: set<string>, existing: map<string, int>)
    requires |evidence| == |jobs| && Halfway(was, now, p, jobs, evidence, {}) && Tracks(jobs, {}, tracked) && Listed(was, existing)
    ensures Cleaning(was, now, jobs, evidence, tracked, existing.Keys) && !SomeStop(was, p, jobs, evidence)
  {
    hide Settled, Stops;
    forall path {:trigger path in tracked}
      ensures path in tracked <==> Walked(jobs, path)
      ensures path !in tracked ==> PathKept(was, now, path)
    {
      assert path in tracked <==> !StillToCome(jobs, {}, path);
    }
    forall id {:trigger now[id]} | id in now
      ensures now[id].path in tracked || now[id].path in existing
    {
      if now[id].path !in tracked {
        assert PathKept(was, now, now[id].path);
      }
    }
  }

  lemma StillListed(was: map<int, Record>, now: map<int, Record>, jobs: seq<FileJob>, evidence: seq<Evidence>, tracked: set<string>,
                    rest: set<string>, existing: map<string, int>, path: string)
    requires |evidence| == |jobs| && Cleaning(was, now, jobs, evidence, tracked, rest) && Listed(was, existing)
    requires path in rest && path in existing && path !in tracked
    ensures existing[path] in now && now[existing[path]].path == path
  {
    hide Settled;
    assert PathKept(was, now, path);
    KeptAt(was, now, path, existing[path]);
  }

  lemma KeptAt(was: map<int, Record>, now: map<int, Record>, path: string, id: int)
    requires PathKept(was, now, path) && id in was && was[id].path == path
    ensures id in now && now[id] == was[id]
  {
  }

  lemma CleaningNext(was: map<int, Record>, now: map<int, Record>, jobs: seq<FileJob>, evidence: seq<Evidence>, tracked: set<string>,
                     rest: set<string>, path: string, id: int)
    requires |evidence| == |jobs| && Cleaning(was, now, jobs, evidence, tracked, rest) && PathsUnique(now)
    requires path in rest && path !in tracked && id in now && now[id].path == path
    ensures Cleaning(was, now - {id}, jobs, evidence, tracked, rest - {path})
  {
    hide Settled, PathKept;
    var less := now - {id};
    assert OthersKept(now, less, path);
    forall i {:trigger jobs[i]} | 0 <= i < |jobs|
      ensures Settled(was, less, jobs[i], evidence[i])
    {
      assert Walked(jobs, jobs[i].path);
      assert jobs[i].path in tracked;
      SettledStill(was, now, less, jobs[i], evidence[i], path);
    }
    forall other {:trigger PathKept(was, less, other)} | other in rest - {path} && other !in tracked
      ensures PathKept(was, less, other)
    {
      assert PathKept(was, now, other);
      KeptStill(was, now, less, other, path);
    }
    forall k {:trigger less[k]} | k in less
      ensures less[k].path in tracked || less[k].path in rest - {path}
    {
      assert now[k].path == less[k].path;
    }
  }

  lemma CleaningSkip(was: map<int, Record>, now: map<int, Record>, jobs: seq<FileJob>, evidence: seq<Evidence>, tracked: set<string>,
                     rest: set<string>, path: string)
    requires |evidence| == |jobs| && Cleaning(was, now, jobs, evidence, tracked, rest) && path in tracked
    ensures Cleaning(was, now, jobs, evidence, tracked, rest - {path})
  {
    hide Settled, PathKept;
  }

  /** The records the scan starts from: none if the index was dropped first. */
  function Kept(before: Index, clean: bool): map<int, Record> {
    if clean then map[] else before.records
  }

  /** The whole scan: judge the files, edit the index, replace the engine types if they changed, and bring the full-text table
      up to date, by a refresh where the stored one is still accepted. */
  method Scan(table: SearchTable, before: Index, p: Parser, jobs: seq<FileJob>, rules: map<int, seq<string>>, names: map<int, string>,
              clean: bool, engine: Option<seq<EngineType>>, accepted: bool)
      returns (r: Result<Index>, evidence: seq<Evidence>)
    requires Sane(before, p) && DistinctPaths(jobs) && forall rank :: rank in rules ==> rank > 0
    requires clean ==> engine.Some?
    requires accepted ==> multiset(table.rows) == multiset(FullRows(before.t))
    modifies table
    ensures AllJudged(jobs, rules, names, evidence)
    ensures r.Err? <==> SomeStop(Kept(before, clean), p, jobs, evidence)
    ensures FailsAsRead(Kept(before, clean), p, jobs, evidence, r.Err?)
    ensures r.Ok? ==> AllRead(Kept(before, clean), r.value.records, jobs, evidence)
    ensures r.Ok? ==> Sane(r.value, p) && RowsRead(r.value, p) && Scanned(Kept(before, clean), r.value.records, jobs, evidence)
    ensures r.Ok? ==> r.value.t.datatypes == (if engine.Some? then engine.value else before.t.datatypes)
    ensures r.Ok? ==> multiset(table.rows) == multiset(FullRows(r.value.t))
    ensures r.Err? && !clean ==> table.rows == old(table.rows)
  {
    hide Sane, ScanEdit, AllJudged, Scanned, SomeStop, FullRows, Refreshed, AllRead, FailsAsRead, RowsRead;
    var start := if clean then Emptied(before.t.datatypes) else before;
    EmptiedSane(before.t.datatypes, p);
    evidence := OverridePass(jobs, rules, names);
    JudgedLength(jobs, rules, names, evidence);
    ghost var rows := table.rows;
    var edited, old_, new_ := EditIndex(start, p, jobs, evidence);
    if edited.Err? {
      return Err, evidence;
    }
    var ix := edited.value;
    EditKeepsTypes(start.t, ix.t, old_, new_);
    if engine.Some? {
      SaneTypes(ix, p, engine.value);
      ix := Index(ix.t.(datatypes := engine.value), ix.records);
    }
    SaneRows(ix, p);
    if engine.Some? || !accepted {
      table.Rebuild(ix.t);
    } else {
      table.RefreshForFiles(ix.t, old_, new_);
      ScanRefreshIsRebuild(before.t, ix.t, rows, old_, new_, table.rows);
    }
    return Ok(ix), evidence;
  }

  lemma JudgedLength(jobs: seq<FileJob>, rules: map<int, seq<string>>, names: map<int, string>, evidence: seq<Evidence>)
    requires AllJudged(jobs, rules, names, evidence)
    ensures |evidence| == |jobs|
  {
  }

  lemma EditKeepsTypes(before: Tables, after: Tables, old_: set<int>, new_: set<int>)
    requires ScanEdit(before, after, old_, new_)
    ensures after.datatypes == before.datatypes
  {
    hide Untouched, Active;
  }

  lemma SaneTypes(ix: Index, p: Parser, datatypes: seq<EngineType>)
    requires Sane(ix, p)
    ensures Sane(Index(ix.t.(datatypes := datatypes), ix.records), p)
  {
    hide RowsOf, OwnedBy, ParsedFrom;
    var u := ix.t.(datatypes := datatypes);
    forall id | id in ix.records
      ensures RightRows(u, p, id, ix.records[id])
    {
      assert RightRows(ix.t, p, id, ix.records[id]);
    }
  }

  // What the index comes to.

  ghost predicate OnRecord(records: map<int, Record>, r: Record) {
    exists id :: id in records && records[id] == r
  }

  /** The records are those of the walked files as they are now, and no others. */
  ghost predicate Canonical(records: map<int, Record>, jobs: seq<FileJob>, evidence: seq<Evidence>)
    requires |evidence| == |jobs|
  {
    && (forall i {:trigger jobs[i]} :: 0 <= i < |jobs| ==> OnRecord(records, RecordOf(jobs[i], evidence[i])))
    && (forall id {:trigger records[id]} :: id in records ==> Walked(jobs, records[id].path))
  }

  /** A file that is skipped although its record is out of date: its path within the source has changed, or a resource
      has changed under the same size and time. */
  ghost predicate Stale(was: map<int, Record>, job: FileJob, e: Evidence) {
    exists id :: id in was && was[id].path == job.path && Skips(job, e, was[id]) && OutOfDate(was[id], job)
  }

  predicate OutOfDate(r: Record, job: FileJob) {
    r.rel != job.rel || r.content != job.content
  }

  ghost predicate NoneStale(was: map<int, Record>, jobs: seq<FileJob>, evidence: seq<Evidence>)
    requires |evidence| == |jobs|
  {
    forall i {:trigger jobs[i]} :: 0 <= i < |jobs| ==> !Stale(was, jobs[i], evidence[i])
  }

  lemma SettledMeans(was: map<int, Record>, now: map<int, Record>, job: FileJob, e: Evidence)
    requires Settled(was, now, job, e) && PathsUnique(was) && PathsUnique(now)
    ensures OnRecord(now, RecordOf(job, e)) <==> !Stale(was, job, e)
  {
    var id :| id in now && SettledAs(was, now, job, e, id);
    if OnRecord(now, RecordOf(job, e)) {
      var k :| k in now && now[k] == RecordOf(job, e);
      assert k == id;
    }
    if SkippedIn(was, job, e) {
      var k :| k in was && was[k].path == job.path && Skips(job, e, was[k]);
      assert k == id;
    }
  }

  /** A scan leaves the records of the files as they are now, whatever was there before, if and only if it skips no file whose
      record is out of date. */
  lemma CanonicalIff(was: map<int, Record>, now: map<int, Record>, jobs: seq<FileJob>, evidence: seq<Evidence>)
    requires |evidence| == |jobs| && Scanned(was, now, jobs, evidence) && PathsUnique(was) && PathsUnique(now)
    ensures Canonical(now, jobs, evidence) <==> NoneStale(was, jobs, evidence)
  {
    hide Settled, Stale, OnRecord, PathsUnique;
    forall i {:trigger jobs[i]} | 0 <= i < |jobs|
      ensures OnRecord(now, RecordOf(jobs[i], evidence[i])) <==> !Stale(was, jobs[i], evidence[i])
    {
      SettledMeans(was, now, jobs[i], evidence[i]);
    }
  }

  /** The rows of two files are the same but for the file ids. */
  ghost predicate SameRows(t: Tables, a: int, u: Tables, b: int) {
    && Owned(RowsOf(t.objects, a), 0) == Owned(RowsOf(u.objects, b), 0) && Owned(RowsOf(t.resources, a), 0) == Owned(RowsOf(u.resources, b), 0)
    && Owned(RowsOf(t.fields, a), 0) == Owned(RowsOf(u.fields, b), 0)
    && Owned(RowsOf(t.localization, a), 0) == Owned(RowsOf(u.localization, b), 0)
  }

  ghost predicate SameEntry(x: Index, a: int, y: Index, b: int)
    requires a in x.records && b in y.records
  {
    x.records[a] == y.records[b] && (x.records[a].evidence.Visible? ==> SameRows(x.t, a, y.t, b))
  }

  ghost predicate HasEntry(x: Index, a: int, y: Index)
    requires a in x.records
  {
    exists b :: b in y.records && SameEntry(x, a, y, b)
  }

  /** Two indexes hold the same files with the same rows, but for the file ids. */
  ghost predicate SameIndex(x: Index, y: Index) {
    && (forall a {:trigger x.records[a]} :: a in x.records ==> HasEntry(x, a, y))
    && (forall b {:trigger y.records[b]} :: b in y.records ==> HasEntry(y, b, x))
  }

  lemma {:induction false} OwnedAgain(rows: seq<Row>, a: int, b: int)
    ensures Owned(Owned(rows, a), b) == Owned(rows, b)
  {
    if rows != [] {
      OwnedAgain(rows[1..], a, b);
      assert Owned(rows, a)[1..] == Owned(rows[1..], a);
    }
  }

  lemma SameRecordSameEntry(x: Index, a: int, y: Index, b: int, p: Parser)
    requires Sane(x, p) && Sane(y, p) && a in x.records && b in y.records && x.records[a] == y.records[b]
    ensures SameEntry(x, a, y, b)
  {
    hide RowsOf, Agrees, NoOrphans, PathsUnique, ParsedFrom;
    var r := x.records[a];
    assert RightRows(x.t, p, a, r) && RightRows(y.t, p, b, r);
    if r.evidence.Visible? {
      var parsed := ParsedFrom(p, r.source, r.rel, r.kind, r.content).value;
      OwnedAgain(parsed.objects, a, 0);
      OwnedAgain(parsed.objects, b, 0);
      OwnedAgain(parsed.resources, a, 0);
      OwnedAgain(parsed.resources, b, 0);
      OwnedAgain(parsed.fields, a, 0);
      OwnedAgain(parsed.fields, b, 0);
      OwnedAgain(parsed.localization, a, 0);
      OwnedAgain(parsed.localization, b, 0);
    }
  }

  lemma CanonicalEntries(x: Index, y: Index, p: Parser, jobs: seq<FileJob>, evidence: seq<Evidence>)
    requires |evidence| == |jobs| && Sane(x, p) && Sane(y, p)
    requires Canonical(x.records, jobs, evidence) && Canonical(y.records, jobs, evidence)
    ensures forall a {:trigger x.records[a]} :: a in x.records ==> HasEntry(x, a, y)
  {
    hide Sane, SameEntry;
    SanePaths(x, p);
    forall a {:trigger x.records[a]} | a in x.records
      ensures HasEntry(x, a, y)
    {
      var i :| 0 <= i < |jobs| && jobs[i].path == x.records[a].path;
      assert OnRecord(x.records, RecordOf(jobs[i], evidence[i])) && OnRecord(y.records, RecordOf(jobs[i], evidence[i]));
      var k :| k in x.records && x.records[k] == RecordOf(jobs[i], evidence[i]);
      assert x.records[k].path == x.records[a].path && k == a;
      var b :| b in y.records && y.records[b] == RecordOf(jobs[i], evidence[i]);
      SameRecordSameEntry(x, a, y, b, p);
    }
  }

  lemma EvidenceAgrees(jobs: seq<FileJob>, rules: map<int, seq<string>>, names: map<int, string>, d: seq<Evidence>, e: seq<Evidence>)
    requires Ranked(jobs) && AllJudged(jobs, rules, names, d) && AllJudged(jobs, rules, names, e)
    ensures d == e
  {
    hide Judged, Ranked;
    forall i | 0 <= i < |jobs|
      ensures d[i] == e[i]
    {
      EvidenceUnique(jobs, rules, names, jobs[i], d[i], e[i]);
    }
  }

  /** A scan over an old index gives what a clean scan of the same files gives, but for the file ids, if and only if it skips no
      file whose record is out of date; the order of the results, of the sources and of map keys does not matter. */
  lemma ScanIsCleanScanIff(was: map<int, Record>, x: Index, y: Index, p: Parser, jobs: seq<FileJob>, rules: map<int, seq<string>>,
                           names: map<int, string>, d: seq<Evidence>, e: seq<Evidence>)
    requires Ranked(jobs) && AllJudged(jobs, rules, names, d) && AllJudged(jobs, rules, names, e)
    requires PathsUnique(was) && Sane(x, p) && Sane(y, p)
    requires Scanned(was, x.records, jobs, d) && Scanned(map[], y.records, jobs, e)
    ensures SameIndex(x, y) <==> NoneStale(was, jobs, d)
  {
    hide Sane, Scanned, Judged, Ranked, Canonical, HasEntry;
    EvidenceAgrees(jobs, rules, names, d, e);
    SanePaths(x, p);
    SanePaths(y, p);
    CanonicalIff(was, x.records, jobs, d);
    CanonicalIff(map[], y.records, jobs, e);
    assert NoneStale(map[], jobs, e);
    if NoneStale(was, jobs, d) {
      CanonicalEntries(x, y, p, jobs, d);
      CanonicalEntries(y, x, p, jobs, d);
    }
    if SameIndex(x, y) {
      SameIndexCanonical(x, y, jobs, d);
    }
  }

  lemma SameIndexCanonical(x: Index, y: Index, jobs: seq<FileJob>, evidence: seq<Evidence>)
    requires |evidence| == |jobs| && SameIndex(x, y) && Canonical(y.records, jobs, evidence)
    ensures Canonical(x.records, jobs, evidence)
  {
    hide SameRows, Walked;
    forall i {:trigger jobs[i]} | 0 <= i < |jobs|
      ensures OnRecord(x.records, RecordOf(jobs[i], evidence[i]))
    {
      assert OnRecord(y.records, RecordOf(jobs[i], evidence[i]));
      var b :| b in y.records && y.records[b] == RecordOf(jobs[i], evidence[i]);
      assert HasEntry(y, b, x);
    }
    forall a {:trigger x.records[a]} | a in x.records
      ensures Walked(jobs, x.records[a].path)
    {
      assert HasEntry(x, a, y);
      var b :| b in y.records && SameEntry(x, a, y, b);
      assert Walked(jobs, y.records[b].path);
    }
  }

  /** A file is skipped under a path within its source that it no longer has: only the path on disk, the source, the kind and the
      hash are compared. */
  lemma MovedRoot(job: FileJob, rel: string)
    requires rel != job.rel && !job.force
    ensures Stale(map[1 := RecordOf(job, Visible).(rel := rel)], job, Visible)
  {
    var was := map[1 := RecordOf(job, Visible).(rel := rel)];
    assert 1 in was && was[1].path == job.path && Skips(job, Visible, was[1]) && OutOfDate(was[1], job);
  }

  /** After a scan that leaves the files as they are now, at most one visible file has any relative path. */
  lemma OneVisibleFile(ix: Index, p: Parser, jobs: seq<FileJob>, rules: map<int, seq<string>>, names: map<int, string>,
                       evidence: seq<Evidence>, a: int, b: int)
    requires Ranked(jobs) && AllJudged(jobs, rules, names, evidence) && Sane(ix, p) && Canonical(ix.records, jobs, evidence)
    requires forall j, k :: j in jobs && k in jobs && j.source == k.source && j.rel == k.rel ==> j.path == k.path
    requires a in ix.records && b in ix.records && ix.records[a].rel == ix.records[b].rel
    requires ix.records[a].evidence.Visible? && ix.records[b].evidence.Visible?
    ensures a == b
  {
    hide Judged, Ranked, Sane;
    SanePaths(ix, p);
    var i := JobOf(ix.records, jobs, evidence, a);
    var k := JobOf(ix.records, jobs, evidence, b);
    assert Judged(jobs, rules, names, jobs[i], evidence[i]) && Judged(jobs, rules, names, jobs[k], evidence[k]);
    OneVisible(jobs, rules, names, jobs[i], jobs[k]);
    assert ix.records[a].path == ix.records[b].path;
  }

  lemma JobOf(records: map<int, Record>, jobs: seq<FileJob>, evidence: seq<Evidence>, id: int) returns (i: nat)
    requires |evidence| == |jobs| && Canonical(records, jobs, evidence) && PathsUnique(records) && id in records
    ensures i < |jobs| && records[id] == RecordOf(jobs[i], evidence[i])
  {
    assert Walked(jobs, records[id].path);
    i :| 0 <= i < |jobs| && jobs[i].path == records[id].path;
    assert OnRecord(records, RecordOf(jobs[i], evidence[i]));
    var k :| k in records && records[k] == RecordOf(jobs[i], evidence[i]);
    assert records[k].path == records[id].path;
  }

  /** A scan finds nothing to do in an index that holds the files as they are now, unless it is told to parse them again. */
  lemma SecondScanIdle(records: map<int, Record>, jobs: seq<FileJob>, rules: map<int, seq<string>>, names: map<int, string>,
                       d: seq<Evidence>, e: seq<Evidence>)
    requires Ranked(jobs) && AllJudged(jobs, rules, names, d) && AllJudged(jobs, rules, names, e) && Canonical(records, jobs, d)
    requires forall j :: j in jobs ==> !j.force
    ensures NothingToDo(records, jobs, e)
  {
    hide Judged, Ranked;
    EvidenceAgrees(jobs, rules, names, d, e);
    forall i {:trigger jobs[i]} | 0 <= i < |jobs|
      ensures SkippedIn(records, jobs[i], e[i])
    {
      assert OnRecord(records, RecordOf(jobs[i], e[i]));
      var id :| id in records && records[id] == RecordOf(jobs[i], e[i]);
      assert Skips(jobs[i], e[i], records[id]);
    }
  }
}
