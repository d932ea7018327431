/** The semantic full-text table: its full rebuild, its batched refresh by file, and the checks that accept a stored copy. */
module SearchIndex {
  import opened Order
  import opened Text
  import TextLaws
  import opened Wrappers

  datatype File = File(overridden: bool, kind: string, relPath: string, rank: int)

  /** A row of one of the four semantic tables, with the columns that reach the full-text table. */
  datatype Row =
    | ObjectRow(fileId: int, objectType: string, name: string, source: string)
    | ResourceRow(fileId: int, kind: string, resourcePath: string, source: string)
    | FieldRow(fileId: int, objectName: string, field: string, raw: string, source: string)
    | LocalizationRow(fileId: int, key: string, language: string, value: string, source: string)

  datatype EngineType = EngineType(name: string, signature: string, description: string, returnType: string, sourcePath: string)

  datatype Tables = Tables(files: map<int, File>, objects: seq<Row>, resources: seq<Row>, fields: seq<Row>,
                           localization: seq<Row>, datatypes: seq<EngineType>)

  datatype FtsRow = FtsRow(kind: string, name: string, text: string, source: string, path: string, fileId: int)

  /** Only English and Simplified Chinese texts are indexed. */
  predicate IndexedLanguage(language: string) {
    Contains(ToLower(language), "english") || Contains(ToLower(language), "simp")
  }

  /** The full-text row of an active row: the joins and projections of the INSERT ... SELECT statements. */
  function Project(files: map<int, File>, r: Row): Option<FtsRow> {
    if r.fileId !in files || files[r.fileId].overridden then None
    else
      var path := files[r.fileId].relPath;
      match r
      case ObjectRow(id, typ, name, source) => Some(FtsRow("object", name, typ + " " + name + " " + path, source, path, id))
      case ResourceRow(id, kind, resource, source) => Some(FtsRow("resource", resource, kind + " " + resource, source, path, id))
      case FieldRow(id, owner, field, raw, source) => Some(FtsRow("script_key", field, field + " " + owner + " " + raw, source, path, id))
      case LocalizationRow(id, key, language, value, source) =>
        if IndexedLanguage(language) then Some(FtsRow("localization", key, key + " " + value, source, path, id)) else None
  }

  /** One INSERT ... SELECT restricted to the given files. */
  function Select(files: map<int, File>, rows: seq<Row>, ids: set<int>): seq<FtsRow> {
    if rows == [] then []
    else
      var p := Project(files, rows[0]);
      (if p.Some? && rows[0].fileId in ids then [p.value] else []) + Select(files, rows[1..], ids)
  }

  function DatatypeRows(datatypes: seq<EngineType>): seq<FtsRow> {
    if datatypes == [] then []
    else
      var d := datatypes[0];
      [FtsRow("datatype", d.name, d.signature + " " + d.description + " " + d.returnType, "engine_logs", d.sourcePath, 0)]
      + DatatypeRows(datatypes[1..])
  }

  /** The full-text rows of the given files. */
  function FileRows(t: Tables, ids: set<int>): seq<FtsRow> {
    Select(t.files, t.objects, ids) + Select(t.files, t.resources, ids) + Select(t.files, t.fields, ids)
    + Select(t.files, t.localization, ids)
  }

  /** The full-text table as the full rebuild leaves it. */
  function FullRows(t: Tables): seq<FtsRow> {
    FileRows(t, t.files.Keys) + DatatypeRows(t.datatypes)
  }

  /** The file is known and not hidden. */
  predicate Visible(files: map<int, File>, id: int) {
    id in files && !files[id].overridden
  }

  /** A full-text row of the rebuilt table, told by the columns it comes from. */
  ghost predicate Told(t: Tables, r: FtsRow) {
    || (exists o :: o in t.objects + t.resources + t.fields + t.localization && Visible(t.files, o.fileId) && ToldBy(t.files[o.fileId].relPath, o, r))
    || (exists d :: d in t.datatypes && r == FtsRow("datatype", d.name, d.signature + " " + d.description + " " + d.returnType, "engine_logs", d.sourcePath, 0))
  }

  /** Objects by type, name and path; resources by kind and path; fields by name, owner and value; texts in English or
      Simplified Chinese by key and value. */
  ghost predicate ToldBy(path: string, o: Row, r: FtsRow) {
    && r.source == o.source && r.path == path && r.fileId == o.fileId
    && (o.ObjectRow? ==> r.kind == "object" && r.name == o.name && r.text == o.objectType + " " + o.name + " " + path)
    && (o.ResourceRow? ==> r.kind == "resource" && r.name == o.resourcePath && r.text == o.kind + " " + o.resourcePath)
    && (o.FieldRow? ==> r.kind == "script_key" && r.name == o.field && r.text == o.field + " " + o.objectName + " " + o.raw)
    && (o.LocalizationRow? ==> r.kind == "localization" && r.name == o.key && r.text == o.key + " " + o.value && ReadLanguage(o.language))
  }

  ghost predicate ReadLanguage(language: string) {
    exists a: string, b: string :: ToLower(language) == a + "english" + b || ToLower(language) == a + "simp" + b
  }

  lemma LanguageIff(language: string)
    ensures IndexedLanguage(language) <==> ReadLanguage(language)
  {
    hide Contains, ToLower;
    TextLaws.ContainsIff(ToLower(language), "english");
    TextLaws.ContainsIff(ToLower(language), "simp");
    if IndexedLanguage(language) {
      if Contains(ToLower(language), "english") {
        var a: string, b: string :| ToLower(language) == a + "english" + b;
        assert ReadLanguage(language);
      } else {
        var a: string, b: string :| ToLower(language) == a + "simp" + b;
        assert ReadLanguage(language);
      }
    }
  }

  lemma ProjectTold(files: map<int, File>, o: Row, r: FtsRow)
    ensures Project(files, o) == Some(r) <==> Visible(files, o.fileId) && ToldBy(files[o.fileId].relPath, o, r)
  {
    hide IndexedLanguage, ReadLanguage;
    if o.LocalizationRow? {
      LanguageIff(o.language);
    }
  }

  lemma {:induction false} SelectMembers(files: map<int, File>, rows: seq<Row>, ids: set<int>, r: FtsRow)
    ensures r in Select(files, rows, ids) <==> exists o :: o in rows && o.fileId in ids && Project(files, o) == Some(r)
  {
    hide Project;
    if rows != [] {
      SelectMembers(files, rows[1..], ids, r);
      assert rows == [rows[0]] + rows[1..];
    }
  }

  lemma {:induction false} DatatypeMembers(datatypes: seq<EngineType>, r: FtsRow)
    ensures r in DatatypeRows(datatypes) <==>
            exists d :: d in datatypes && r == FtsRow("datatype", d.name, d.signature + " " + d.description + " " + d.returnType, "engine_logs", d.sourcePath, 0)
  {
    if datatypes != [] {
      DatatypeMembers(datatypes[1..], r);
      assert datatypes == [datatypes[0]] + datatypes[1..];
    }
  }

  /** The rebuilt table holds exactly the rows that the columns tell. */
  lemma FullRowsTold(t: Tables, r: FtsRow)
    ensures r in FullRows(t) <==> Told(t, r)
  {
    hide Project, Select, DatatypeRows, ToldBy;
    SelectMembers(t.files, t.objects, t.files.Keys, r);
    SelectMembers(t.files, t.resources, t.files.Keys, r);
    SelectMembers(t.files, t.fields, t.files.Keys, r);
    SelectMembers(t.files, t.localization, t.files.Keys, r);
    DatatypeMembers(t.datatypes, r);
    forall o
      ensures Project(t.files, o) == Some(r) <==> Visible(t.files, o.fileId) && ToldBy(t.files[o.fileId].relPath, o, r)
    {
      ProjectTold(t.files, o, r);
    }
  }

  /** DELETE ... WHERE file_id IN (...). */
  function Without(rows: seq<FtsRow>, ids: set<int>): seq<FtsRow> {
    if rows == [] then []
    else (if rows[0].fileId in ids then [] else [rows[0]]) + Without(rows[1..], ids)
  }

  /** How often the full-text row r comes from its own file (or, for file 0, from a data type). */
  ghost function Share(t: Tables, r: FtsRow): nat {
    multiset(FileRows(t, {r.fileId}))[r] + multiset(DatatypeRows(t.datatypes))[r]
  }

  lemma ProjectFile(files: map<int, File>, row: Row)
    ensures Project(files, row).Some? ==> row.fileId in files && Project(files, row).value.fileId == row.fileId
  {
  }

  lemma SelectHead(files: map<int, File>, rows: seq<Row>, ids: set<int>, r: FtsRow)
    requires rows != []
    ensures var p := Project(files, rows[0]);
            multiset(Select(files, rows, ids))[r] ==
              (if p.Some? && rows[0].fileId in ids && p.value == r then 1 else 0) + multiset(Select(files, rows[1..], ids))[r]
  {
    hide Project;
  }

  lemma {:induction false} SelectCount(files: map<int, File>, rows: seq<Row>, ids: set<int>, r: FtsRow)
    ensures multiset(Select(files, rows, ids))[r] == if r.fileId in ids then multiset(Select(files, rows, {r.fileId}))[r] else 0
  {
    hide Project;
    if rows != [] {
      hide Select;
      SelectCount(files, rows[1..], ids, r);
      SelectHead(files, rows, ids, r);
      SelectHead(files, rows, {r.fileId}, r);
      ProjectFile(files, rows[0]);
    }
  }

  lemma {:induction false} SelectAll(files: map<int, File>, rows: seq<Row>, r: FtsRow)
    ensures multiset(Select(files, rows, files.Keys))[r] == multiset(Select(files, rows, {r.fileId}))[r]
  {
    hide Project;
    if rows != [] {
      hide Select;
      SelectAll(files, rows[1..], r);
      SelectHead(files, rows, files.Keys, r);
      SelectHead(files, rows, {r.fileId}, r);
      ProjectFile(files, rows[0]);
    }
  }

  lemma FileRowsCount(t: Tables, ids: set<int>, r: FtsRow)
    ensures multiset(FileRows(t, ids))[r] == if r.fileId in ids then multiset(FileRows(t, {r.fileId}))[r] else 0
  {
    SelectCount(t.files, t.objects, ids, r);
    SelectCount(t.files, t.resources, ids, r);
    SelectCount(t.files, t.fields, ids, r);
    SelectCount(t.files, t.localization, ids, r);
  }

  lemma FullCount(t: Tables, r: FtsRow)
    ensures multiset(FullRows(t))[r] == Share(t, r)
  {
    SelectAll(t.files, t.objects, r);
    SelectAll(t.files, t.resources, r);
    SelectAll(t.files, t.fields, r);
    SelectAll(t.files, t.localization, r);
  }

  lemma {:induction false} WithoutCount(rows: seq<FtsRow>, ids: set<int>, r: FtsRow)
    ensures multiset(Without(rows, ids))[r] == if r.fileId in ids then 0 else multiset(rows)[r]
  {
    if rows != [] {
      assert rows == [rows[0]] + rows[1..];
      WithoutCount(rows[1..], ids, r);
    }
  }

  lemma {:induction false} DatatypeRowsOfFileZero(datatypes: seq<EngineType>, r: FtsRow)
    requires r.fileId != 0
    ensures multiset(DatatypeRows(datatypes))[r] == 0
  {
    if datatypes != [] {
      DatatypeRowsOfFileZero(datatypes[1..], r);
    }
  }

  /** The edit between two states of the tables is covered by the two id sets: a file in neither contributes the same rows
      before and after, a file only in `old` contributes none any more, a file only in `new` contributed none before. */
  ghost predicate Covered(before: Tables, after: Tables, old_: set<int>, new_: set<int>) {
    forall r: FtsRow :: CoveredAt(before, after, old_, new_, r)
  }

  ghost predicate CoveredAt(before: Tables, after: Tables, old_: set<int>, new_: set<int>, r: FtsRow) {
    && (r.fileId !in old_ && r.fileId !in new_ ==> Share(before, r) == Share(after, r))
    && (r.fileId in old_ && r.fileId !in new_ ==> Share(after, r) == 0)
    && (r.fileId !in old_ && r.fileId in new_ ==> Share(before, r) == 0)
  }

  function Positive(ids: set<int>): set<int> {
    set id | id in ids && id > 0
  }

  /** What the refresh leaves in the table. */
  ghost predicate Refreshed(rows: seq<FtsRow>, t: Tables, old_: set<int>, new_: set<int>, rows': seq<FtsRow>) {
    multiset(rows') == multiset(Without(rows, Positive(old_))) + multiset(FileRows(t, Positive(new_)))
  }

  /** A refresh of an up-to-date table gives exactly what a full rebuild would give iff the id sets cover the edit. */
  lemma RefreshIsRebuild(before: Tables, after: Tables, rows: seq<FtsRow>, old_: set<int>, new_: set<int>, rows': seq<FtsRow>)
    requires multiset(rows) == multiset(FullRows(before))
    requires Refreshed(rows, after, old_, new_, rows')
    ensures multiset(rows') == multiset(FullRows(after)) <==> Covered(before, after, Positive(old_), Positive(new_))
  {
    hide Share, FileRows, FullRows, Without;
    var o, n := Positive(old_), Positive(new_);
    if Covered(before, after, o, n) {
      forall r: FtsRow
        ensures multiset(rows')[r] == multiset(FullRows(after))[r]
      {
        RefreshedCount(before, after, rows, o, n, rows', r);
        assert CoveredAt(before, after, o, n, r);
      }
    }
    if multiset(rows') == multiset(FullRows(after)) {
      forall r: FtsRow
        ensures CoveredAt(before, after, o, n, r)
      {
        RefreshedCount(before, after, rows, o, n, rows', r);
      }
    }
  }

  lemma RefreshedCount(before: Tables, after: Tables, rows: seq<FtsRow>, o: set<int>, n: set<int>, rows': seq<FtsRow>, r: FtsRow)
    requires multiset(rows) == multiset(FullRows(before)) && 0 !in n
    requires multiset(rows') == multiset(Without(rows, o)) + multiset(FileRows(after, n))
    ensures multiset(rows')[r] == (if r.fileId in o then 0 else Share(before, r)) + if r.fileId in n then Share(after, r) else 0
    ensures multiset(FullRows(after))[r] == Share(after, r)
  {
    WithoutCount(rows, o, r);
    FullCount(before, r);
    FullCount(after, r);
    FileRowsCount(after, n, r);
    if r.fileId != 0 {
      DatatypeRowsOfFileZero(after.datatypes, r);
    }
  }

  lemma WithoutHead(x: FtsRow, rest: seq<FtsRow>, ids: set<int>)
    ensures Without([x] + rest, ids) == if x.fileId in ids then Without(rest, ids) else [x] + Without(rest, ids)
  {
    assert ([x] + rest)[1..] == rest;
  }

  lemma {:induction false} WithoutTwice(rows: seq<FtsRow>, a: set<int>, b: set<int>)
    ensures Without(Without(rows, a), b) == Without(rows, a + b)
  {
    if rows != [] {
      var x, rest := rows[0], rows[1..];
      assert rows == [x] + rest;
      WithoutTwice(rest, a, b);
      WithoutHead(x, rest, a);
      WithoutHead(x, rest, a + b);
      WithoutHead(x, Without(rest, a), b);
    }
  }

  lemma {:induction false} WithoutNone(rows: seq<FtsRow>)
    ensures Without(rows, {}) == rows
  {
    if rows != [] {
      WithoutNone(rows[1..]);
      assert rows == [rows[0]] + rows[1..];
    }
  }

  /** Rows of disjoint sets of files add up. */
  lemma FileRowsAdd(t: Tables, a: set<int>, b: set<int>)
    requires a !! b
    ensures multiset(FileRows(t, a + b)) == multiset(FileRows(t, a)) + multiset(FileRows(t, b))
  {
    hide FileRows;
    forall r: FtsRow
      ensures multiset(FileRows(t, a + b))[r] == (multiset(FileRows(t, a)) + multiset(FileRows(t, b)))[r]
    {
      FileRowsCount(t, a + b, r);
      FileRowsCount(t, a, r);
      FileRowsCount(t, b, r);
    }
  }

  lemma FileRowsNone(t: Tables)
    ensures multiset(FileRows(t, {})) == multiset{}
  {
    forall r: FtsRow
      ensures multiset(FileRows(t, {}))[r] == 0
    {
      FileRowsCount(t, {}, r);
    }
  }

  predicate IntLeq(a: int, b: int) {
    a <= b
  }

  lemma SortIds(ids: seq<int>)
    requires Distinct(ids)
    ensures Elems(SortBy(ids, IntLeq)) == Elems(ids) && Ascending(SortBy(ids, IntLeq))
  {
    var out := SortBy(ids, IntLeq);
    SortBySorts(ids, IntLeq);
    DistinctPermutation(ids, out);
    MultisetMembers(ids, out);
    forall i, j | 0 <= i < j < |out|
      ensures out[i] < out[j]
    {
      assert IntLeq(out[i], out[j]) && out[i] != out[j];
    }
  }

  predicate Ascending(ids: seq<int>) {
    forall i, j :: 0 <= i < j < |ids| ==> ids[i] < ids[j]
  }

  lemma OneMoreId(ids: set<int>, rest: set<int>, out: seq<int>, id: int)
    requires id in rest && rest <= ids && Elems(out) == Positive(ids) - rest && Distinct(out)
    ensures var out' := if id > 0 then out + [id] else out;
            Elems(out') == Positive(ids) - (rest - {id}) && Distinct(out')
  {
    assert id !in Elems(out);
    assert Elems(out + [id]) == Elems(out) + {id};
  }

  /** The positive ids of a set, each once, in ascending order. */
  method SortedFileIds(ids: set<int>) returns (out: seq<int>)
    ensures Elems(out) == Positive(ids) && Ascending(out)
  {
    hide Positive, Distinct, Elems;
    out := [];
    var rest := ids;
    NoIds(ids);
    while rest != {}
      invariant rest <= ids && Elems(out) == Positive(ids) - rest && Distinct(out)
      decreases rest
    {
      var id := AnyOf(rest);
      OneMoreId(ids, rest, out, id);
      if id > 0 {
        out := out + [id];
      }
      rest := rest - {id};
    }
    SortIds(out);
    out := SortBy(out, IntLeq);
  }

  lemma NoIds(ids: set<int>)
    ensures Elems([]) == Positive(ids) - ids && Distinct<int>([])
  {
  }

  const BATCH_SIZE := 512

  /** A batch and the ids before it, of a list in ascending order. */
  lemma BatchSplits(ids: seq<int>, start: nat, end: nat)
    requires start <= end <= |ids| && Ascending(ids)
    ensures Elems(ids[..end]) == Elems(ids[..start]) + Elems(ids[start..end])
    ensures Elems(ids[..start]) !! Elems(ids[start..end])
  {
    assert ids[..end] == ids[..start] + ids[start..end];
  }

  ghost predicate InsertedUpTo(t: Tables, ids: seq<int>, k: nat, before: seq<FtsRow>, rows: seq<FtsRow>) {
    k <= |ids| && multiset(rows) == multiset(before) + multiset(FileRows(t, Elems(ids[..k])))
  }

  lemma InsertedNone(t: Tables, ids: seq<int>, rows: seq<FtsRow>)
    ensures InsertedUpTo(t, ids, 0, rows, rows)
  {
    FileRowsNone(t);
    assert Elems(ids[..0]) == {};
  }

  lemma InsertedMore(t: Tables, ids: seq<int>, start: nat, end: nat, before: seq<FtsRow>, rows: seq<FtsRow>)
    requires start <= end <= |ids| && Ascending(ids) && InsertedUpTo(t, ids, start, before, rows)
    ensures InsertedUpTo(t, ids, end, before, rows + FileRows(t, Elems(ids[start..end])))
  {
    hide FileRows, Elems;
    BatchSplits(ids, start, end);
    FileRowsAdd(t, Elems(ids[..start]), Elems(ids[start..end]));
  }

  /** The stored full-text table. */
  class SearchTable {
    var rows: seq<FtsRow>

    /** Drops the table and fills it from all active rows and the data types. */
    method Rebuild(t: Tables)
      modifies this
      ensures rows == FullRows(t)
    {
      rows := [];
      rows := rows + Select(t.files, t.objects, t.files.Keys);
      rows := rows + Select(t.files, t.resources, t.files.Keys);
      rows := rows + Select(t.files, t.fields, t.files.Keys);
      rows := rows + Select(t.files, t.localization, t.files.Keys);
      rows := rows + DatatypeRows(t.datatypes);
    }

    /** Removes the rows of the given files, batch by batch. */
    method DeleteFiles(ids: seq<int>)
      requires Ascending(ids)
      modifies this
      ensures rows == Without(old(rows), Elems(ids))
    {
      var start := 0;
      WithoutNone(rows);
      assert Elems(ids[..0]) == {};
      while start < |ids|
        invariant 0 <= start <= |ids|
        invariant rows == Without(old(rows), Elems(ids[..start]))
      {
        hide Without;
        var end := if start + BATCH_SIZE > |ids| then |ids| else start + BATCH_SIZE;
        var batch := Elems(ids[start..end]);
        WithoutTwice(old(rows), Elems(ids[..start]), batch);
        BatchSplits(ids, start, end);
        rows := Without(rows, batch);
        start := end;
      }
      assert ids[..|ids|] == ids;
    }

    /** The four INSERT ... SELECT statements of one batch. */
    method InsertBatch(t: Tables, batch: set<int>)
      modifies this
      ensures rows == old(rows) + FileRows(t, batch)
    {
      rows := rows + Select(t.files, t.objects, batch);
      rows := rows + Select(t.files, t.resources, batch);
      rows := rows + Select(t.files, t.fields, batch);
      rows := rows + Select(t.files, t.localization, batch);
    }

    /** Inserts the rows of the given files, batch by batch. */
    method InsertFiles(t: Tables, ids: seq<int>)
      requires Ascending(ids)
      modifies this
      ensures multiset(rows) == multiset(old(rows)) + multiset(FileRows(t, Elems(ids)))
    {
      hide FileRows, Elems, Ascending;
      var start := 0;
      InsertedNone(t, ids, rows);
      while start < |ids|
        invariant 0 <= start <= |ids| && Ascending(ids)
        invariant InsertedUpTo(t, ids, start, old(rows), rows)
      {
        hide InsertedUpTo;
        var end := if start + BATCH_SIZE > |ids| then |ids| else start + BATCH_SIZE;
        InsertedMore(t, ids, start, end, old(rows), rows);
        InsertBatch(t, Elems(ids[start..end]));
        start := end;
      }
      assert ids[..|ids|] == ids;
    }

    /** Removes the rows of the old files and inserts those of the new files. */
    method RefreshForFiles(t: Tables, oldIds: set<int>, newIds: set<int>)
      modifies this
      ensures Refreshed(old(rows), t, oldIds, newIds, rows)
    {
      var ids := SortedFileIds(oldIds);
      DeleteFiles(ids);
      ids := SortedFileIds(newIds);
      if |ids| == 0 {
        FileRowsNone(t);
        assert Positive(newIds) == {};
        return;
      }
      InsertFiles(t, ids);
    }
  }

  /** The rows of a table that belong to one file. */
  ghost function RowsOf(rows: seq<Row>, id: int): seq<Row> {
    if rows == [] then []
    else (if rows[0].fileId == id then [rows[0]] else []) + RowsOf(rows[1..], id)
  }

  ghost predicate SameFile(before: Tables, after: Tables, id: int) {
    && (id in before.files <==> id in after.files) && (id in before.files ==> before.files[id] == after.files[id])
    && RowsOf(before.objects, id) == RowsOf(after.objects, id) && RowsOf(before.resources, id) == RowsOf(after.resources, id)
    && RowsOf(before.fields, id) == RowsOf(after.fields, id) && RowsOf(before.localization, id) == RowsOf(after.localization, id)
  }

  predicate Active(t: Tables, id: int) {
    id in t.files && !t.files[id].overridden
  }

  /** A scan has left a file as it is, or the file was and is in no active row. */
  ghost predicate Untouched(before: Tables, after: Tables, id: int) {
    SameFile(before, after, id) || (!Active(before, id) && !Active(after, id))
  }

  /** What a scan knows about its edit: files in neither set keep their own active rows; old files are gone or overridden unless they
      are new as well; new files were unknown or overridden unless they are old as well; the data types are unchanged. */
  ghost predicate ScanEdit(before: Tables, after: Tables, old_: set<int>, new_: set<int>) {
    && (forall id :: id !in old_ && id !in new_ ==> Untouched(before, after, id))
    && (forall id :: id in old_ - new_ ==> !Active(after, id))
    && (forall id :: id in new_ - old_ ==> !Active(before, id))
    && before.datatypes == after.datatypes
    && (forall id :: id in old_ + new_ ==> id > 0)
  }

  lemma {:induction false} SelectRowsOf(files: map<int, File>, rows: seq<Row>, id: int)
    ensures Select(files, rows, {id}) == Select(files, RowsOf(rows, id), {id})
  {
    if rows != [] {
      SelectRowsOf(files, rows[1..], id);
      var own := RowsOf(rows, id);
      if rows[0].fileId == id {
        assert own == [rows[0]] + RowsOf(rows[1..], id) && own[1..] == RowsOf(rows[1..], id);
      } else {
        assert own == RowsOf(rows[1..], id);
      }
    }
  }

  lemma {:induction false} SelectSame(f: map<int, File>, g: map<int, File>, rows: seq<Row>, id: int)
    requires (id in f <==> id in g) && (id in f ==> f[id] == g[id])
    ensures Select(f, RowsOf(rows, id), {id}) == Select(g, RowsOf(rows, id), {id})
  {
    if rows != [] {
      SelectSame(f, g, rows[1..], id);
      var own := RowsOf(rows, id);
      if rows[0].fileId == id {
        assert own == [rows[0]] + RowsOf(rows[1..], id) && own[1..] == RowsOf(rows[1..], id);
        assert Project(f, rows[0]) == Project(g, rows[0]);
      } else {
        assert own == RowsOf(rows[1..], id);
      }
    }
  }

  lemma TableSame(before: Tables, after: Tables, rows: seq<Row>, rows': seq<Row>, id: int)
    requires SameFile(before, after, id) && RowsOf(rows, id) == RowsOf(rows', id)
    ensures Select(before.files, rows, {id}) == Select(after.files, rows', {id})
  {
    SelectRowsOf(before.files, rows, id);
    SelectRowsOf(after.files, rows', id);
    SelectSame(before.files, after.files, rows, id);
  }

  lemma {:induction false} SelectInactive(files: map<int, File>, rows: seq<Row>, id: int)
    requires id !in files || files[id].overridden
    ensures Select(files, rows, {id}) == []
  {
    if rows != [] {
      SelectInactive(files, rows[1..], id);
    }
  }

  lemma InactiveRows(t: Tables, r: FtsRow)
    requires !Active(t, r.fileId)
    ensures Share(t, r) == multiset(DatatypeRows(t.datatypes))[r]
  {
    SelectInactive(t.files, t.objects, r.fileId);
    SelectInactive(t.files, t.resources, r.fileId);
    SelectInactive(t.files, t.fields, r.fileId);
    SelectInactive(t.files, t.localization, r.fileId);
  }

  lemma InactiveShare(t: Tables, r: FtsRow)
    requires !Active(t, r.fileId) && r.fileId > 0
    ensures Share(t, r) == 0
  {
    InactiveRows(t, r);
    DatatypeRowsOfFileZero(t.datatypes, r);
  }

  lemma SameShare(before: Tables, after: Tables, r: FtsRow)
    requires SameFile(before, after, r.fileId) && before.datatypes == after.datatypes
    ensures Share(before, r) == Share(after, r)
  {
    TableSame(before, after, before.objects, after.objects, r.fileId);
    TableSame(before, after, before.resources, after.resources, r.fileId);
    TableSame(before, after, before.fields, after.fields, r.fileId);
    TableSame(before, after, before.localization, after.localization, r.fileId);
  }

  lemma UntouchedShare(before: Tables, after: Tables, r: FtsRow)
    requires Untouched(before, after, r.fileId) && before.datatypes == after.datatypes
    ensures Share(before, r) == Share(after, r)
  {
    if SameFile(before, after, r.fileId) {
      SameShare(before, after, r);
    } else {
      InactiveRows(before, r);
      InactiveRows(after, r);
    }
  }

  /** After such an edit the refresh leaves exactly what a full rebuild would build. */
  lemma ScanRefreshIsRebuild(before: Tables, after: Tables, rows: seq<FtsRow>, old_: set<int>, new_: set<int>, rows': seq<FtsRow>)
    requires multiset(rows) == multiset(FullRows(before)) && ScanEdit(before, after, old_, new_)
    requires Refreshed(rows, after, old_, new_, rows')
    ensures multiset(rows') == multiset(FullRows(after))
  {
    hide Share, FullRows, Refreshed, Active, Untouched;
    assert Positive(old_) == old_ && Positive(new_) == new_ by {
      assert forall id :: id in old_ ==> id in old_ + new_;
      assert forall id :: id in new_ ==> id in old_ + new_;
    }
    forall r: FtsRow
      ensures CoveredAt(before, after, old_, new_, r)
    {
      if r.fileId !in old_ && r.fileId !in new_ {
        UntouchedShare(before, after, r);
      } else if r.fileId !in new_ {
        assert r.fileId in old_ - new_ && r.fileId in old_ + new_;
        InactiveShare(after, r);
      } else if r.fileId !in old_ {
        assert r.fileId in new_ - old_ && r.fileId in old_ + new_;
        InactiveShare(before, r);
      }
    }
    RefreshIsRebuild(before, after, rows, old_, new_, rows');
  }

  /** The rows of the data types survive every refresh: nothing of file 0 is removed or added. */
  lemma DatatypeRowsSurvive(t: Tables, rows: seq<FtsRow>, old_: set<int>, new_: set<int>, rows': seq<FtsRow>, r: FtsRow)
    requires Refreshed(rows, t, old_, new_, rows') && r.fileId <= 0
    ensures multiset(rows')[r] == multiset(rows)[r]
  {
    WithoutCount(rows, Positive(old_), r);
    FileRowsCount(t, Positive(new_), r);
  }

  lemma SubsetOfSameSize<T>(a: set<T>, b: set<T>)
    requires a <= b && |a| == |b|
    ensures a == b
  {
    assert b == a + (b - a);
    assert |b| == |a| + |b - a|;
  }

  /** Equal counts and no localization id without a document: the acceptance test of the substring index. */
  predicate TrigramMatches(localization: set<int>, documents: set<int>) {
    |localization| == |documents| && !exists id :: id in localization && id !in documents
  }

  lemma TrigramMatchesIff(localization: set<int>, documents: set<int>)
    ensures TrigramMatches(localization, documents) <==> localization == documents
  {
    if TrigramMatches(localization, documents) {
      forall id | id in localization
        ensures id in documents
      {
      }
      assert localization <= documents;
      SubsetOfSameSize(localization, documents);
    }
  }

  predicate ActiveScript(files: map<int, File>, id: int) {
    id in files && !files[id].overridden && files[id].kind == "script"
  }

  /** The counts of the script-text test: active scripts, indexed rows, and distinct matched files of the left join. */
  predicate ScriptTextMatches(files: map<int, File>, indexed: set<int>) {
    var scripts := set id | id in files && ActiveScript(files, id);
    var matched := set id | id in indexed && ActiveScript(files, id);
    |scripts| == |indexed| && |scripts| == |matched|
  }

  lemma ScriptTextMatchesIff(files: map<int, File>, indexed: set<int>)
    ensures ScriptTextMatches(files, indexed) <==>
            forall id :: id in indexed <==> id in files && files[id].overridden == false && files[id].kind == "script"
  {
    var scripts := set id | id in files && ActiveScript(files, id);
    var matched := set id | id in indexed && ActiveScript(files, id);
    if ScriptTextMatches(files, indexed) {
      SubsetOfSameSize(matched, indexed);
      SubsetOfSameSize(matched, scripts);
      forall id
        ensures id in indexed <==> ActiveScript(files, id)
      {
        assert ActiveScript(files, id) <==> id in scripts;
      }
    }
    if forall id :: id in indexed <==> ActiveScript(files, id) {
      forall id
        ensures id in scripts <==> id in indexed
      {
        assert id in indexed <==> ActiveScript(files, id);
      }
      assert scripts == indexed;
      assert matched == indexed;
    }
  }
}