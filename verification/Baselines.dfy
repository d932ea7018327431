/** Recorded diagnostic baselines, the decisions of the caller that outlive every rebuild. */
module Baselines {
  import opened Order
  import opened Text
  import TextLaws
  import opened Diagnostics
  import opened Wrappers

  datatype Finding = Finding(code: string, severity: string, created: string)

  type EntryKey = (string, string)

  /** The rows of the two preserved tables. */
  datatype Tables = Tables(snapshots: map<string, string>, entries: map<EntryKey, Finding>)

  datatype Baseline = Baseline(name: string, count: nat, created: string, existed: bool)

  const DEFAULT_NAME := "default"

  function Normalized(name: string): (r: string)
    ensures r != ""
  {
    var trimmed := ToLower(TrimSpace(name));
    if trimmed == "" then DEFAULT_NAME else trimmed
  }

  /** Two names are one exactly if they are equal but for case and the blanks around them; a blank name is "default". */
  lemma NamesMerge(left: string, a: string, right: string, left': string, b: string, right': string)
    requires TextLaws.Blank(left) && TextLaws.Blank(right) && TextLaws.Bare(a) && TextLaws.Blank(left') && TextLaws.Blank(right') && TextLaws.Bare(b)
    ensures Normalized(left + a + right) == Normalized(left' + b + right') <==>
            |a| == |b| && forall i :: 0 <= i < |a| ==> a[i] == b[i] || TextLaws.CasePair(a[i], b[i]) || TextLaws.CasePair(b[i], a[i])
    ensures Normalized(left) == "default"
  {
    TextLaws.TrimIs(left, a, right);
    TextLaws.TrimIs(left', b, right');
    TextLaws.SameButCase(a, b);
    TextLaws.BlanksLeft(left, "");
    assert left + "" == left;
  }

  function BaselineKey(d: Diagnostic): string {
    d.source + "\0" + Key(d)
  }

  ghost function EntryNames(entries: map<EntryKey, Finding>): set<string> {
    set k | k in entries :: k.0
  }

  ghost function KeysOf(entries: map<EntryKey, Finding>, name: string): set<string> {
    set k | k in entries && k.0 == name :: k.1
  }

  /** What the tables mean: the recorded names, each with the keys it hides. */
  ghost function View(t: Tables): map<string, set<string>> {
    map n | n in t.snapshots.Keys + EntryNames(t.entries) :: KeysOf(t.entries, n)
  }

  /** Every entry belongs to a snapshot. Tables written before snapshots were recorded need not be coherent. */
  ghost predicate Coherent(t: Tables) {
    EntryNames(t.entries) <= t.snapshots.Keys
  }

  function Without(entries: map<EntryKey, Finding>, name: string): map<EntryKey, Finding> {
    map k | k in entries && k.0 != name :: entries[k]
  }

  /** The entries after each key of the diagnostics was inserted once, for its first diagnostic. */
  function Inserted(entries: map<EntryKey, Finding>, name: string, diagnostics: seq<Diagnostic>, now: string): map<EntryKey, Finding> {
    if diagnostics == [] then entries
    else
      var before, d := Inserted(entries, name, diagnostics[..|diagnostics| - 1], now), diagnostics[|diagnostics| - 1];
      if (name, BaselineKey(d)) in before then before
      else before[(name, BaselineKey(d)) := Finding(d.code, d.severity, now)]
  }

  function Saved(t: Tables, name: string, diagnostics: seq<Diagnostic>, now: string): Tables {
    Tables(t.snapshots[name := now], Inserted(Without(t.entries, name), name, diagnostics, now))
  }

  function Cleared(t: Tables, name: string): Tables {
    Tables(t.snapshots - {name}, Without(t.entries, name))
  }

  ghost predicate EntryCreated(entries: map<EntryKey, Finding>, name: string, created: string) {
    exists k :: k in entries && k.0 == name && entries[k].created == created
  }

  /** The greatest creation stamp among the entries of a name. */
  ghost predicate IsLatest(entries: map<EntryKey, Finding>, name: string, created: string) {
    && EntryCreated(entries, name, created)
    && forall k {:trigger entries[k]} :: k in entries && k.0 == name ==> Leq(entries[k].created, created)
  }

  /** Names known only from entries got a snapshot, dated by their latest entry; all else is as before. */
  ghost predicate Adopted(t: Tables, u: Tables) {
    && u.entries == t.entries
    && u.snapshots.Keys == t.snapshots.Keys + EntryNames(t.entries)
    && (forall n :: n in t.snapshots ==> u.snapshots[n] == t.snapshots[n])
    && (forall n :: n in EntryNames(t.entries) - t.snapshots.Keys ==> IsLatest(t.entries, n, u.snapshots[n]))
  }

  ghost function KeysIn(diagnostics: seq<Diagnostic>): set<string> {
    set d | d in diagnostics :: BaselineKey(d)
  }

  /** The report without the findings of a baseline, in its order; an empty baseline hides nothing. */
  function Filtered(report: seq<Diagnostic>, baseline: set<string>): (r: seq<Diagnostic>)
    ensures forall d :: d in r <==> d in report && BaselineKey(d) !in baseline
  {
    if report == [] then []
    else
      var d, rest := report[|report| - 1], Filtered(report[..|report| - 1], baseline);
      if BaselineKey(d) in baseline then rest else rest + [d]
  }

  /** The live database that a publication copies from: none, or one in which either table may be missing. */
  datatype Live = NoDatabase | Live(snapshots: Option<map<string, string>>, entries: Option<map<EntryKey, Finding>>)

  function LiveTables(live: Live): Tables {
    if live.NoDatabase? then Tables(map[], map[])
    else Tables(if live.snapshots.Some? then live.snapshots.value else map[],
                if live.entries.Some? then live.entries.value else map[])
  }

  datatype PreservedTable = SnapshotTable | EntryTable

  /** Copies rows one by one into an emptied table; no insert meets a row with its key. */
  method CopyRows<K, V>(rows: map<K, V>) returns (table: map<K, V>)
    ensures table == rows
  {
    table := map[];
    var rest := rows.Keys;
    while rest != {}
      invariant table.Keys !! rest && table.Keys + rest == rows.Keys
      invariant forall k :: k in table ==> table[k] == rows[k]
      decreases rest
    {
      var k :| k in rest;
      assert k !in table;
      table, rest := table[k := rows[k]], rest - {k};
    }
  }

  method NamesOf(entries: map<EntryKey, Finding>) returns (names: set<string>)
    ensures names == EntryNames(entries)
  {
    names := set k | k in entries :: k.0;
  }

  /** MAX(created_at) over the entries of one name. */
  method LatestCreated(entries: map<EntryKey, Finding>, name: string) returns (created: string)
    requires name in EntryNames(entries)
    ensures IsLatest(entries, name, created)
  {
    var rest := set k | k in entries && k.0 == name;
    ghost var all := rest;
    assert rest != {} by {
      var k :| k in entries && k.0 == name;
      assert k in rest;
    }
    var first :| first in rest;
    created := entries[first].created;
    rest := rest - {first};
    LeqReflexive(created);
    while rest != {}
      invariant rest <= all
      invariant EntryCreated(entries, name, created)
      invariant forall k :: k in all - rest ==> Leq(entries[k].created, created)
      decreases rest
    {
      hide Leq;
      var k :| k in rest;
      var next := entries[k].created;
      LeqTotal(created, next);
      LeqReflexive(next);
      if !Leq(next, created) {
        forall j | j in all - rest
          ensures Leq(entries[j].created, next)
        {
          LeqTransitive(entries[j].created, created, next);
        }
        created := next;
      }
      rest := rest - {k};
    }
  }

  /** A database, seen as its two preserved tables and the revision that readers compare. */
  class BaselineStore {
    var snapshots: map<string, string>
    var entries: map<EntryKey, Finding>
    var revision: nat

    function Rows(): Tables
      reads this
    {
      Tables(snapshots, entries)
    }

    /** Records every diagnostic of the index under a name. */
    method SaveDiagnosticBaseline(name: string, diagnostics: seq<Diagnostic>, now: string) returns (r: Baseline)
      modifies this
      ensures Rows() == Saved(old(Rows()), Normalized(name), diagnostics, now)
      ensures r == Baseline(Normalized(name), |KeysIn(diagnostics)|, now, true)
      ensures revision == old(revision) + 1
    {
      var key := Normalized(name);
      entries := Without(entries, key);
      ghost var kept := entries;
      assert forall k :: k in kept ==> k.0 != key;
      snapshots := snapshots[key := now];
      var unique: set<string> := {};
      for i := 0 to |diagnostics|
        invariant snapshots == old(snapshots)[key := now] && revision == old(revision)
        invariant entries == Inserted(kept, key, diagnostics[..i], now)
        invariant unique == KeysIn(diagnostics[..i])
      {
        hide BaselineKey, Normalized, Inserted, KeysIn, Without;
        var fingerprint := BaselineKey(diagnostics[i]);
        SeenNext(diagnostics, i);
        InsertedNext(kept, key, diagnostics, now, i);
        if fingerprint in unique {
          continue;
        }
        unique := unique + {fingerprint};
        entries := entries[(key, fingerprint) := Finding(diagnostics[i].code, diagnostics[i].severity, now)];
      }
      assert diagnostics[..|diagnostics|] == diagnostics;
      revision := revision + 1;
      r := Baseline(key, |unique|, now, true);
    }

    /** Forgets a snapshot and says what it held. */
    method ClearDiagnosticBaseline(name: string) returns (r: Baseline)
      modifies this
      ensures Rows() == Cleared(old(Rows()), Normalized(name))
      ensures r.name == Normalized(name) && r.existed == (Normalized(name) in old(snapshots))
      ensures r.created == if r.existed then old(snapshots)[Normalized(name)] else ""
      ensures r.count == |KeysOf(old(entries), Normalized(name))|
      ensures revision == old(revision) + 1
    {
      var key := Normalized(name);
      var existed := key in snapshots;
      var created := if existed then snapshots[key] else "";
      var held := set k | k in entries && k.0 == key :: k.1;
      entries := Without(entries, key);
      snapshots := snapshots - {key};
      revision := revision + 1;
      r := Baseline(key, |held|, created, existed);
    }

    /** Gives every name that only entries record its snapshot. */
    method AdoptOlderSnapshots()
      modifies this`snapshots
      ensures Adopted(old(Rows()), Rows())
    {
      var groups := NamesOf(entries);
      var rest := groups;
      while rest != {}
        invariant rest <= groups && groups == EntryNames(entries)
        invariant snapshots.Keys == old(snapshots).Keys + (groups - rest)
        invariant forall n :: n in old(snapshots) ==> snapshots[n] == old(snapshots)[n]
        invariant forall n :: n in groups - rest - old(snapshots).Keys ==> IsLatest(entries, n, snapshots[n])
        decreases rest
      {
        hide IsLatest, EntryNames;
        var name :| name in rest;
        var created := LatestCreated(entries, name);
        if name !in snapshots {
          snapshots := snapshots[name := created];
        }
        rest := rest - {name};
      }
    }

    /** A publication fills the preserved tables of the staged database from the live one. */
    method CopyPreservedPublicationTables(live: Live)
      modifies this`snapshots, this`entries
      ensures Adopted(LiveTables(live), Rows())
    {
      var pending := {SnapshotTable, EntryTable};
      while pending != {}
        invariant SnapshotTable !in pending ==> snapshots == LiveTables(live).snapshots
        invariant EntryTable !in pending ==> entries == LiveTables(live).entries
        decreases pending
      {
        var table :| table in pending;
        pending := pending - {table};
        if table == SnapshotTable {
          snapshots := map[];
          if live.Live? && live.snapshots.Some? {
            snapshots := CopyRows(live.snapshots.value);
          }
        } else {
          entries := map[];
          if live.Live? && live.entries.Some? {
            entries := CopyRows(live.entries.value);
          }
        }
      }
      AdoptOlderSnapshots();
    }

    /** The keys of a baseline: nothing for a blank name, an error for a name without snapshot. */
    method DiagnosticBaselineSet(name: string) returns (unknown: bool, keys: set<string>)
      ensures unknown <==> TrimSpace(name) != "" && Normalized(name) !in snapshots
      ensures keys == if unknown || TrimSpace(name) == "" then {} else KeysOf(entries, Normalized(name))
    {
      if TrimSpace(name) == "" {
        return false, {};
      }
      var key := Normalized(name);
      if key !in snapshots {
        return true, {};
      }
      return false, set k | k in entries && k.0 == key :: k.1;
    }
  }

  /** The filter loop, with its shortcut for an empty baseline. */
  method FilterDiagnosticsAgainstBaseline(report: seq<Diagnostic>, baseline: set<string>) returns (out: seq<Diagnostic>)
    ensures out == Filtered(report, baseline)
  {
    if baseline == {} {
      FilteredByNothing(report);
      return report;
    }
    out := [];
    for i := 0 to |report|
      invariant out == Filtered(report[..i], baseline)
    {
      hide BaselineKey;
      assert report[..i + 1][..i] == report[..i];
      if BaselineKey(report[i]) in baseline {
        continue;
      }
      out := out + [report[i]];
    }
    assert report[..|report|] == report;
  }

  lemma {:induction false} FilteredByNothing(report: seq<Diagnostic>)
    ensures Filtered(report, {}) == report
  {
    hide BaselineKey;
    if report != [] {
      FilteredByNothing(report[..|report| - 1]);
    }
  }

  lemma SeenNext(diagnostics: seq<Diagnostic>, i: nat)
    requires i < |diagnostics|
    ensures KeysIn(diagnostics[..i + 1]) == KeysIn(diagnostics[..i]) + {BaselineKey(diagnostics[i])}
  {
    hide BaselineKey;
    var some, more := diagnostics[..i], diagnostics[..i + 1];
    assert more == some + [diagnostics[i]];
    assert diagnostics[i] in more;
  }

  /** The set of keys met so far tells whether an insert would repeat one. */
  lemma InsertedNext(kept: map<EntryKey, Finding>, name: string, diagnostics: seq<Diagnostic>, now: string, i: nat)
    requires i < |diagnostics| && forall k :: k in kept ==> k.0 != name
    ensures Inserted(kept, name, diagnostics[..i + 1], now)
         == (var before, d := Inserted(kept, name, diagnostics[..i], now), diagnostics[i];
             if BaselineKey(d) in KeysIn(diagnostics[..i]) then before
             else before[(name, BaselineKey(d)) := Finding(d.code, d.severity, now)])
  {
    hide BaselineKey, KeysIn;
    assert diagnostics[..i + 1][..i] == diagnostics[..i];
    InsertedKeys(kept, name, diagnostics[..i], now, (name, BaselineKey(diagnostics[i])));
  }

  lemma {:induction false} InsertedKeys(entries: map<EntryKey, Finding>, name: string, diagnostics: seq<Diagnostic>, now: string, k: EntryKey)
    ensures k in Inserted(entries, name, diagnostics, now) <==> k in entries || (k.0 == name && k.1 in KeysIn(diagnostics))
  {
    hide BaselineKey;
    if diagnostics != [] {
      var n := |diagnostics| - 1;
      InsertedKeys(entries, name, diagnostics[..n], now, k);
      SeenNext(diagnostics, n);
      assert diagnostics[..n + 1] == diagnostics;
    }
  }

  lemma KeysOfMember(entries: map<EntryKey, Finding>, name: string, f: string)
    ensures f in KeysOf(entries, name) <==> (name, f) in entries
    ensures (name, f) in entries ==> name in EntryNames(entries)
  {
    if (name, f) in entries {
      assert (name, f).1 == f;
    }
  }

  lemma NamedByEntry(entries: map<EntryKey, Finding>, name: string)
    ensures name in EntryNames(entries) <==> KeysOf(entries, name) != {}
  {
    if f :| f in KeysOf(entries, name) {
      KeysOfMember(entries, name, f);
    }
    if name in EntryNames(entries) {
      var k :| k in entries && k.0 == name;
      assert k.1 in KeysOf(entries, name);
    }
  }

  lemma SavedKeys(t: Tables, name: string, diagnostics: seq<Diagnostic>, now: string, n: string)
    ensures KeysOf(Saved(t, name, diagnostics, now).entries, n) == if n == name then KeysIn(diagnostics) else KeysOf(t.entries, n)
  {
    hide Inserted, KeysIn;
    var u := Saved(t, name, diagnostics, now);
    forall f
      ensures f in KeysOf(u.entries, n) <==> f in if n == name then KeysIn(diagnostics) else KeysOf(t.entries, n)
    {
      KeysOfMember(u.entries, n, f);
      KeysOfMember(t.entries, n, f);
      InsertedKeys(Without(t.entries, name), name, diagnostics, now, (n, f));
    }
  }

  /** Saving gives one name a new key set, also when it is empty, and touches no other name. */
  lemma SaveRefines(t: Tables, name: string, diagnostics: seq<Diagnostic>, now: string)
    ensures View(Saved(t, name, diagnostics, now)) == View(t)[name := KeysIn(diagnostics)]
    ensures Coherent(t) ==> Coherent(Saved(t, name, diagnostics, now))
  {
    hide KeysIn, KeysOf, EntryNames, Inserted;
    var u := Saved(t, name, diagnostics, now);
    forall n
      ensures n in View(u) <==> n in View(t)[name := KeysIn(diagnostics)]
      ensures n in View(u) ==> View(u)[n] == View(t)[name := KeysIn(diagnostics)][n]
      ensures n != name ==> (n in EntryNames(u.entries) <==> n in EntryNames(t.entries))
    {
      SavedKeys(t, name, diagnostics, now, n);
      NamedByEntry(t.entries, n);
      NamedByEntry(u.entries, n);
    }
  }

  lemma ClearRefines(t: Tables, name: string)
    ensures View(Cleared(t, name)) == View(t) - {name}
    ensures Coherent(t) ==> Coherent(Cleared(t, name))
  {
    hide KeysOf, EntryNames;
    var u := Cleared(t, name);
    forall n
      ensures KeysOf(u.entries, n) == if n == name then {} else KeysOf(t.entries, n)
      ensures n in EntryNames(u.entries) <==> n != name && n in EntryNames(t.entries)
    {
      forall f
        ensures f in KeysOf(u.entries, n) <==> f in if n == name then {} else KeysOf(t.entries, n)
      {
        KeysOfMember(u.entries, n, f);
        KeysOfMember(t.entries, n, f);
      }
      NamedByEntry(t.entries, n);
      NamedByEntry(u.entries, n);
    }
  }

  /** Adopting or publishing changes nothing a caller can see, and leaves coherent tables whatever it found. */
  lemma AdoptRefines(t: Tables, u: Tables)
    requires Adopted(t, u)
    ensures View(u) == View(t) && Coherent(u)
  {
  }

  /** Adoption leaves one result, and none but it. */
  lemma AdoptedUnique(t: Tables, u: Tables, v: Tables)
    requires Adopted(t, u) && Adopted(t, v)
    ensures u == v
  {
    hide Leq, EntryNames;
    forall n | n in u.snapshots
      ensures u.snapshots[n] == v.snapshots[n]
    {
      if n !in t.snapshots {
        LatestUnique(t.entries, n, u.snapshots[n], v.snapshots[n]);
      }
    }
  }

  lemma LatestUnique(entries: map<EntryKey, Finding>, name: string, a: string, b: string)
    requires IsLatest(entries, name, a) && IsLatest(entries, name, b)
    ensures a == b
  {
    hide Leq;
    var i :| i in entries && i.0 == name && entries[i].created == a;
    var j :| j in entries && j.0 == name && entries[j].created == b;
    LeqAntisymmetric(a, b);
  }

  /** What may happen to the database that readers are pointed to. */
  datatype Action =
    | Save(name: string, diagnostics: seq<Diagnostic>, now: string)
    | Clear(name: string)
    | Publish

  function Acted(ready: Tables, action: Action): Tables {
    match action
    case Save(name, diagnostics, now) => Saved(ready, Normalized(name), diagnostics, now)
    case Clear(name) => Cleared(ready, Normalized(name))
    case Publish => ready
  }

  /** Saving and clearing open the schema first, which adopts; a publication copies the live tables and adopts. */
  ghost predicate Step(t: Tables, action: Action, u: Tables) {
    exists ready: Tables {:trigger Adopted(t, ready)} :: Adopted(t, ready) && u == Acted(ready, action)
  }

  ghost predicate Run(states: seq<Tables>, actions: seq<Action>) {
    |states| == |actions| + 1 && forall i :: 0 <= i < |actions| ==> Step(states[i], actions[i], states[i + 1])
  }

  /** The simple store: one map from names to key sets, to which a publication does nothing. */
  ghost function Recorded(start: map<string, set<string>>, actions: seq<Action>): map<string, set<string>> {
    if actions == [] then start
    else
      var before := Recorded(start, actions[..|actions| - 1]);
      match actions[|actions| - 1]
      case Save(name, diagnostics, now) => before[Normalized(name) := KeysIn(diagnostics)]
      case Clear(name) => before - {Normalized(name)}
      case Publish => before
  }

  lemma StepRefines(t: Tables, action: Action, u: Tables)
    requires Step(t, action, u)
    ensures View(u) == Recorded(View(t), [action]) && Coherent(u)
  {
    hide View, Coherent, Saved, Cleared, KeysIn, Adopted, Normalized;
    var ready :| Adopted(t, ready) && u == Acted(ready, action);
    AdoptRefines(t, ready);
    assert [action][..0] == [];
    match action
    case Save(name, diagnostics, now) => SaveRefines(ready, Normalized(name), diagnostics, now);
    case Clear(name) => ClearRefines(ready, Normalized(name));
    case Publish =>
  }

  /** Over every run the two tables refine one map from names to key sets, wherever the run starts. */
  lemma {:induction false} RunRefines(states: seq<Tables>, actions: seq<Action>)
    requires Run(states, actions)
    ensures View(states[|actions|]) == Recorded(View(states[0]), actions)
    ensures actions != [] ==> Coherent(states[|actions|])
  {
    hide View, Coherent, Step, KeysIn, Normalized;
    if actions != [] {
      var n := |actions| - 1;
      RunRefines(states[..n + 1], actions[..n]);
      StepRefines(states[n], actions[n], states[n + 1]);
      assert [actions[n]][..0] == [];
    }
  }

  /** A name was saved and not cleared since, or never cleared and there from the start. */
  ghost predicate Stands(start: set<string>, actions: seq<Action>, name: string) {
    if actions == [] then name in start
    else
      match actions[|actions| - 1]
      case Save(n, _, _) => Normalized(n) == name || Stands(start, actions[..|actions| - 1], name)
      case Clear(n) => Normalized(n) != name && Stands(start, actions[..|actions| - 1], name)
      case Publish => Stands(start, actions[..|actions| - 1], name)
  }

  lemma {:induction false} RecordedNames(start: map<string, set<string>>, actions: seq<Action>, name: string)
    ensures name in Recorded(start, actions) <==> Stands(start.Keys, actions, name)
  {
    hide KeysIn, Normalized;
    if actions != [] {
      RecordedNames(start, actions[..|actions| - 1], name);
    }
  }

  /** A lookup fails exactly for the names not saved since their last clear; a baseline of no findings is found. */
  lemma LookupFailsIff(states: seq<Tables>, actions: seq<Action>, name: string)
    requires Run(states, actions) && actions != []
    ensures Normalized(name) !in states[|actions|].snapshots
       <==> !Stands(View(states[0]).Keys, actions, Normalized(name))
  {
    hide Recorded, Stands, Step, Normalized, KeysOf, EntryNames;
    RunRefines(states, actions);
    RecordedNames(View(states[0]), actions, Normalized(name));
  }

  ghost predicate LeavesAlone(action: Action, name: string) {
    match action
    case Save(n, _, _) => Normalized(n) != name
    case Clear(n) => Normalized(n) != name
    case Publish => true
  }

  lemma {:induction false} SavedStands(start: map<string, set<string>>, actions: seq<Action>, i: nat)
    requires i < |actions| && actions[i].Save?
    requires forall j :: i < j < |actions| ==> LeavesAlone(actions[j], Normalized(actions[i].name))
    ensures Normalized(actions[i].name) in Recorded(start, actions)
    ensures Recorded(start, actions)[Normalized(actions[i].name)] == KeysIn(actions[i].diagnostics)
  {
    hide KeysIn, Normalized;
    if i < |actions| - 1 {
      SavedStands(start, actions[..|actions| - 1], i);
    }
  }

  /** d is the stored diagnostic e as a report lists it: its fingerprint filled in, the fields no key reads free. */
  predicate Reported(e: Diagnostic, d: Diagnostic) {
    && d.source == e.source && d.code == e.code && d.message == e.message && d.path == e.path && d.line == e.line
    && (d.fingerprint == e.fingerprint || (e.fingerprint == "" && d.fingerprint == DiagnosticFingerprint(e)))
  }

  lemma ReportedKey(e: Diagnostic, d: Diagnostic)
    requires Reported(e, d)
    ensures BaselineKey(d) == BaselineKey(e)
  {
  }

  /** Whatever is saved or cleared under other names and however often the index is rebuilt in between, a report of
      the diagnostics a baseline recorded, filtered by that baseline, is empty. */
  lemma SavedBaselineHidesAll(states: seq<Tables>, actions: seq<Action>, i: nat, report: seq<Diagnostic>)
    requires Run(states, actions) && i < |actions| && actions[i].Save?
    requires forall j :: i < j < |actions| ==> LeavesAlone(actions[j], Normalized(actions[i].name))
    requires forall d :: d in report ==> exists e :: e in actions[i].diagnostics && Reported(e, d)
    ensures Normalized(actions[i].name) in states[|actions|].snapshots
    ensures Filtered(report, KeysOf(states[|actions|].entries, Normalized(actions[i].name))) == []
  {
    hide Step, Recorded, Normalized, Reported, KeysOf, EntryNames, BaselineKey;
    var name, t := Normalized(actions[i].name), states[|actions|];
    RunRefines(states, actions);
    SavedStands(View(states[0]), actions, i);
    assert KeysOf(t.entries, name) == KeysIn(actions[i].diagnostics);
    var shown := Filtered(report, KeysOf(t.entries, name));
    if shown != [] {
      var d := shown[0];
      assert d in shown;
      var e :| e in actions[i].diagnostics && Reported(e, d);
      ReportedKey(e, d);
      assert false;
    }
  }

  /** A finding is hidden exactly when the recorded ones include one of its source with its fingerprint,
      as long as no source name holds the separator. */
  lemma HiddenIff(recorded: seq<Diagnostic>, d: Diagnostic)
    requires '\0' !in d.source && forall e :: e in recorded ==> '\0' !in e.source
    ensures Filtered([d], KeysIn(recorded)) == [] <==> exists e :: e in recorded && e.source == d.source && Key(e) == Key(d)
  {
    hide Key;
    assert [d][..0] == [];
    assert Filtered([d], KeysIn(recorded)) == [] <==> BaselineKey(d) in KeysIn(recorded);
    if BaselineKey(d) in KeysIn(recorded) {
      var e :| e in recorded && BaselineKey(e) == BaselineKey(d);
      assert e.source + (['\0'] + Key(e)) == BaselineKey(e) && d.source + (['\0'] + Key(d)) == BaselineKey(d);
      SplitAtFirst('\0', e.source, d.source, Key(e), Key(d));
    }
    if e :| e in recorded && e.source == d.source && Key(e) == Key(d) {
      assert BaselineKey(d) == BaselineKey(e);
    }
  }
}
