/** The substring index over localization values: maintained by triggers, rebuilt on schema repair. */
module TrigramIndex {
  import SearchIndex
  import opened Wrappers

  /** Rowids and values. The index table may be missing; each trigger may be missing. `generation` is the stored counter. */
  datatype Db = Db(localization: map<int, string>, trigram: Option<map<int, string>>,
                   onInsert: bool, onDelete: bool, onUpdate: bool, ready: bool, generation: Option<int>)

  /** What a statement of the outside world may do between two opens of the schema. A bulk load that dies part-way is a
      sequence of these; `FinishLoad` is the transaction that ends one. */
  datatype Event =
    | Insert(id: int, value: string)
    | Delete(id: int)
    | Update(id: int, value: string)
    | DropTriggers(insertToo: bool, deleteToo: bool, updateToo: bool)
    | DropIndex
    | Reset
    | FinishLoad
    | SetReady(ready: bool)
    | Open

  predicate AllTriggers(db: Db) {
    db.onInsert && db.onDelete && db.onUpdate
  }

  /** INSERT INTO localization; with its trigger the statement fails as a whole if the index table is missing. */
  function InsertRow(db: Db, id: int, value: string): Db {
    if id in db.localization || (db.onInsert && db.trigram.None?) then db
    else db.(localization := db.localization[id := value],
             trigram := if db.onInsert then Some(db.trigram.value[id := value]) else db.trigram)
  }

  function DeleteRow(db: Db, id: int): Db {
    if id !in db.localization || (db.onDelete && db.trigram.None?) then db
    else db.(localization := db.localization - {id},
             trigram := if db.onDelete then Some(db.trigram.value - {id}) else db.trigram)
  }

  function UpdateRow(db: Db, id: int, value: string): Db {
    if id !in db.localization || (db.onUpdate && db.trigram.None?) then db
    else db.(localization := db.localization[id := value],
             trigram := if db.onUpdate then Some((db.trigram.value - {id})[id := value]) else db.trigram)
  }

  function Rebuilt(db: Db): Db {
    db.(trigram := Some(db.localization))
  }

  function WithTriggers(db: Db): Db {
    db.(onInsert := true, onDelete := true, onUpdate := true)
  }

  function Bumped(db: Db): Db {
    db.(generation := Some(if db.generation.Some? then db.generation.value + 1 else 1))
  }

  predicate NeedsRepair(db: Db) {
    db.trigram.None? || !AllTriggers(db)
  }

  /** The schema open: judge first, create what is missing, then repair or only make sure of the triggers. */
  function Opened(db: Db): Db {
    var repair := NeedsRepair(db);
    var created := if db.trigram.None? then db.(trigram := Some(map[])) else db;
    if repair then
      var repaired := WithTriggers(Rebuilt(created));
      if repaired.ready then Bumped(repaired) else repaired
    else WithTriggers(created)
  }

  /** The generation a reader sees; a missing counter reads as zero. */
  function ReadGeneration(db: Db): int {
    if db.generation.Some? then db.generation.value else 0
  }

  function Apply(db: Db, e: Event): Db {
    match e
    case Insert(id, value) => InsertRow(db, id, value)
    case Delete(id) => DeleteRow(db, id)
    case Update(id, value) => UpdateRow(db, id, value)
    case DropTriggers(i, d, u) => db.(onInsert := db.onInsert && !i, onDelete := db.onDelete && !d, onUpdate := db.onUpdate && !u)
    case DropIndex => db.(trigram := None)
    case Reset => Db(map[], Some(map[]), false, false, false, false, None)
    case FinishLoad => WithTriggers(Rebuilt(db))
    case SetReady(ready) => db.(ready := ready)
    case Open => Opened(db)
  }

  function Run(db: Db, events: seq<Event>): Db
    decreases |events|
  {
    if events == [] then db else Run(Apply(db, events[0]), events[1..])
  }

  /** As long as the table and all triggers are there, the index says what the localization table says. */
  ghost predicate Maintained(db: Db) {
    !NeedsRepair(db) ==> db.trigram.value == db.localization
  }

  lemma ApplyMaintains(db: Db, e: Event)
    requires Maintained(db)
    ensures Maintained(Apply(db, e))
  {
  }

  lemma {:induction false} RunMaintains(db: Db, events: seq<Event>)
    requires Maintained(db)
    ensures Maintained(Run(db, events))
    decreases |events|
  {
    if events != [] {
      ApplyMaintains(db, events[0]);
      RunMaintains(Apply(db, events[0]), events[1..]);
    }
  }

  /** Whatever happened before, an open leaves the index equal to the localization rows and maintained; it advances the
      generation that readers see exactly when it repaired an index that was ready, and changes nothing else of it. */
  lemma OpenRepairs(start: Db, events: seq<Event>)
    requires Maintained(start)
    ensures var before := Run(start, events);
            var after := Opened(before);
            && after.localization == before.localization && after.trigram == Some(after.localization) && AllTriggers(after)
            && after.ready == before.ready
            && (ReadGeneration(after) > ReadGeneration(before) <==> NeedsRepair(before) && before.ready)
            && (!(NeedsRepair(before) && before.ready) ==> after.generation == before.generation)
  {
    RunMaintains(start, events);
  }

  /** A second open finds nothing to repair. */
  lemma OpenIsIdempotent(start: Db, events: seq<Event>)
    requires Maintained(start)
    ensures var once := Opened(Run(start, events));
            !NeedsRepair(once) && Opened(once) == once
  {
    OpenRepairs(start, events);
  }

  /** A reset database being loaded: no trigger keeps the index, which is empty, and nothing is published. */
  ghost predicate Loading(db: Db) {
    db.trigram == Some(map[]) && !db.onInsert && !db.onDelete && !db.onUpdate && !db.ready && db.generation == None
  }

  lemma {:induction false} LoadKeepsLoading(db: Db, events: seq<Event>)
    requires Loading(db) && forall e :: e in events ==> e.Insert? || e.Delete? || e.Update?
    ensures Loading(Run(db, events))
    decreases |events|
  {
    if events != [] {
      assert events[0] in events;
      LoadKeepsLoading(Apply(db, events[0]), events[1..]);
    }
  }

  /** A load that dies after a reset leaves an unpublished database without triggers, which the next open indexes and gives its
      triggers, without publishing anything. */
  lemma AbortedLoadIsRepaired(db: Db, events: seq<Event>)
    requires forall e :: e in events ==> e.Insert? || e.Delete? || e.Update?
    ensures Apply(db, Reset).localization == map[] && Loading(Run(Apply(db, Reset), events))
    ensures var after := Opened(Run(Apply(db, Reset), events));
            after.trigram == Some(after.localization) && AllTriggers(after) && !after.ready && after.generation == None
  {
    LoadKeepsLoading(Apply(db, Reset), events);
  }

  /** Creating the missing triggers without judging first would not do: a value updated while its trigger was missing stays
      stale, and the count test, which sees rowids only, accepts the table. */
  lemma TriggersAloneAreNotEnough(id: int, before: string, after: string)
    requires before != after
    ensures var start := Db(map[id := before], Some(map[id := before]), true, true, true, true, Some(1));
            var naive := WithTriggers(Run(start, [DropTriggers(false, false, true), Update(id, after)]));
            && Maintained(start) && !Maintained(naive)
            && SearchIndex.TrigramMatches(naive.localization.Keys, naive.trigram.value.Keys)
  {
    var start := Db(map[id := before], Some(map[id := before]), true, true, true, true, Some(1));
    var dropped := Apply(start, DropTriggers(false, false, true));
    var updated := Apply(dropped, Update(id, after));
    var events := [DropTriggers(false, false, true), Update(id, after)];
    assert events[1..] == [Update(id, after)] && events[1..][1..] == [];
    assert Run(updated, []) == updated;
    assert Run(dropped, [Update(id, after)]) == updated;
    assert Run(start, events) == updated;
    assert updated.localization[id] == after && updated.trigram.value[id] == before;
    SearchIndex.TrigramMatchesIff(updated.localization.Keys, updated.trigram.value.Keys);
  }

  /** The database as the statements change it, one at a time. */
  class Database {
    var localization: map<int, string>
    var trigram: Option<map<int, string>>
    var onInsert: bool
    var onDelete: bool
    var onUpdate: bool
    var ready: bool
    var generation: Option<int>

    function Now(): Db
      reads this
    {
      Db(localization, trigram, onInsert, onDelete, onUpdate, ready, generation)
    }

    /** INSERT INTO localization, with the insert trigger if it is there. */
    method InsertLocalization(id: int, value: string) returns (ok: bool)
      modifies this
      ensures Now() == InsertRow(old(Now()), id, value)
      ensures old(Maintained(Now())) ==> Maintained(Now())
      ensures ok <==> id !in old(localization) && (onInsert ==> old(trigram).Some?)
    {
      ok := id !in localization && !(onInsert && trigram.None?);
      if !ok {
        return;
      }
      localization := localization[id := value];
      if onInsert {
        trigram := Some(trigram.value[id := value]);
      }
    }

    /** UPDATE localization SET value, with the update trigger: delete the old entry, insert the new one. */
    method UpdateLocalization(id: int, value: string) returns (ok: bool)
      modifies this
      ensures Now() == UpdateRow(old(Now()), id, value)
      ensures old(Maintained(Now())) ==> Maintained(Now())
      ensures ok <==> id in old(localization) && (onUpdate ==> old(trigram).Some?)
    {
      ok := id in localization && !(onUpdate && trigram.None?);
      if !ok {
        return;
      }
      localization := localization[id := value];
      if onUpdate {
        trigram := Some(trigram.value - {id});
        trigram := Some(trigram.value[id := value]);
      }
    }

    /** DELETE FROM localization, with the delete trigger. */
    method DeleteLocalization(id: int) returns (ok: bool)
      modifies this
      ensures Now() == DeleteRow(old(Now()), id)
      ensures old(Maintained(Now())) ==> Maintained(Now())
      ensures ok <==> id in old(localization) && (onDelete ==> old(trigram).Some?)
    {
      ok := id in localization && !(onDelete && trigram.None?);
      if !ok {
        return;
      }
      localization := localization - {id};
      if onDelete {
        trigram := Some(trigram.value - {id});
      }
    }

    /** Drops the index table, creates it empty and fills it from all localization rows. */
    method RebuildTrigram()
      modifies this
      ensures Now() == Rebuilt(old(Now()))
    {
      trigram := None;
      trigram := Some(map[]);
      trigram := Some(trigram.value + localization);
      assert trigram.value == localization;
    }

    method CreateTriggers()
      modifies this
      ensures Now() == WithTriggers(old(Now()))
    {
      onInsert := true;
      onDelete := true;
      onUpdate := true;
    }

    method BumpGeneration()
      modifies this
      ensures Now() == Bumped(old(Now()))
    {
      generation := if generation.None? then Some(1) else Some(generation.value + 1);
    }

    /** The schema open. The judgement comes before the missing table is created. */
    method EnsureSchemaWithRepair() returns (repaired: bool)
      modifies this
      ensures Now() == Opened(old(Now())) && repaired == NeedsRepair(old(Now()))
      ensures localization == old(localization) && onInsert && onDelete && onUpdate
      ensures old(Maintained(Now())) ==> trigram == Some(localization)
    {
      var triggers := (if onInsert then 1 else 0) + (if onDelete then 1 else 0) + if onUpdate then 1 else 0;
      repaired := trigram.None? || triggers != 3;
      if trigram.None? {
        trigram := Some(map[]);
      }
      if repaired {
        RebuildTrigram();
        CreateTriggers();
        if ready {
          BumpGeneration();
        }
      } else {
        CreateTriggers();
      }
    }
  }
}
