/** Loading of the engine logs: a read checked before and after, behind a bounded first-in first-out cache. */
module EngineBundle {
  import opened Order
  import opened Wrappers

  type Path = string

  datatype Stamp = Stamp(size: nat, mtime: int)

  datatype Version = Version(content: string, stamp: Stamp)

  /** The input files that exist at one instant. */
  type State = map<Path, Version>

  /** The files of a root: a fixed list, of which some may be missing, and what its data type directory may hold. */
  datatype Inputs = Inputs(fixed: seq<Path>, optional: set<Path>, directory: Path, datatypes: set<Path>)

  /** No path is listed twice. */
  ghost predicate WellLaid(inputs: Inputs) {
    Distinct(inputs.fixed) && Elems(inputs.fixed) !! inputs.datatypes
  }

  function PathsOf(inputs: Inputs): set<Path> {
    Elems(inputs.fixed) + inputs.datatypes
  }

  /** The stamps that were seen; a missing or unlisted input has none. */
  datatype Manifest = Manifest(root: string, files: map<Path, Stamp>)

  /** The contents that were read. Fingerprint and rule tables are functions of them. */
  type Bundle = map<Path, string>

  datatype Cached = Cached(manifest: Manifest, bundle: Bundle)

  const MAX_CACHED: nat := 8

  /** A path has these contents under this stamp at an instant. */
  predicate Holds(state: State, path: Path, stamp: Stamp, content: string) {
    path in state && state[path] == Version(content, stamp)
  }

  /** The versions of a path at two instants, if they bear one stamp, are one version that was there in between. */
  ghost predicate Unbroken(timeline: seq<State>, p: Path, i: nat, k: nat, j: nat)
    requires i <= k <= j < |timeline|
  {
    p in timeline[i] && p in timeline[j] && timeline[i][p].stamp == timeline[j][p].stamp ==>
      p in timeline[k] && timeline[k][p] == timeline[i][p]
  }

  /** Every write of a file gives it a stamp it never had. */
  ghost predicate FreshStamps(timeline: seq<State>) {
    forall p, i: nat, k: nat, j: nat :: i <= k <= j < |timeline| ==> Unbroken(timeline, p, i, k, j)
  }

  /** At an instant, every input that was read has the stamp that was seen and the contents that were read. */
  predicate Settled(state: State, files: map<Path, Stamp>, bundle: Bundle) {
    && bundle.Keys == files.Keys
    && forall p :: p in files ==> Holds(state, p, files[p], bundle[p])
  }

  /** Each path was looked at once within a span of time, and the files are the stamps that were seen. */
  ghost predicate Observed(timeline: seq<State>, paths: set<Path>, files: map<Path, Stamp>, at: map<Path, nat>, from: nat, now: nat) {
    && now < |timeline| && at.Keys == paths && files.Keys <= paths
    && forall p {:trigger at[p]} :: p in paths ==> from <= at[p] <= now && StatGave(timeline, p, files, at[p])
  }

  ghost predicate StatGave(timeline: seq<State>, p: Path, files: map<Path, Stamp>, t: nat)
    requires t < |timeline|
  {
    && (p in files <==> p in timeline[t])
    && (p in files ==> timeline[t][p].stamp == files[p])
  }

  ghost predicate ReadWithin(timeline: seq<State>, bundle: Bundle, at: map<Path, nat>, from: nat, now: nat) {
    && now < |timeline| && at.Keys == bundle.Keys
    && forall p {:trigger at[p]} :: p in bundle ==>
         from <= at[p] <= now && p in timeline[at[p]] && timeline[at[p]][p].content == bundle[p]
  }

  /** A path was absent at some instant of a span. */
  predicate AbsentWithin(timeline: seq<State>, p: Path, from: nat, now: nat) {
    exists t :: from <= t <= now < |timeline| && p !in timeline[t]
  }

  /** The bundle is settled at an instant, and every input it leaves out was absent then or later. */
  predicate AnsweredAt(timeline: seq<State>, paths: set<Path>, bundle: Bundle, i: nat, now: nat) {
    && i <= now < |timeline| && bundle.Keys <= paths
    && (forall p :: p in bundle ==> p in timeline[i] && timeline[i][p].content == bundle[p])
    && (forall p :: p in paths - bundle.Keys ==> AbsentWithin(timeline, p, i, now))
  }

  /** The bundle answers for every instant of a span. */
  predicate Covers(timeline: seq<State>, paths: set<Path>, bundle: Bundle, a: nat, b: nat, now: nat) {
    a <= b <= now < |timeline| && forall i: nat :: a <= i <= b ==> AnsweredAt(timeline, paths, bundle, i, now)
  }

  // Why a load may fail.

  /** A path that is there at an instant and gone at a later one. */
  ghost predicate Vanishes(timeline: seq<State>, p: Path, from: nat, now: nat) {
    exists i: nat, k: nat :: from <= i <= k <= now < |timeline| && p in timeline[i] && p !in timeline[k]
  }

  /** A required file or the directory is missing at some instant, or a data type file that was listed is gone when it is
      looked at. */
  ghost predicate PlanFails(timeline: seq<State>, inputs: Inputs, from: nat, now: nat) {
    || (exists p :: p in inputs.fixed && p !in inputs.optional && AbsentWithin(timeline, p, from, now))
    || AbsentWithin(timeline, inputs.directory, from, now)
    || (exists p :: p in inputs.datatypes && Vanishes(timeline, p, from, now))
  }

  /** The stamp that a look at an instant would give. */
  function StampAt(state: State, p: Path): Option<Stamp> {
    if p in state then Some(state[p].stamp) else None
  }

  /** An input comes, goes or is written within a span. */
  ghost predicate Changes(timeline: seq<State>, paths: set<Path>, from: nat, now: nat) {
    exists p, i: nat, k: nat ::
      p in paths && from <= i <= k <= now < |timeline| && StampAt(timeline[i], p) != StampAt(timeline[k], p)
  }

  /** Some input changes during each of two spans, the one after the other. */
  ghost predicate ChangesTwice(timeline: seq<State>, paths: set<Path>, from: nat, now: nat) {
    exists mid: nat :: from <= mid <= now && Changes(timeline, paths, from, mid) && Changes(timeline, paths, mid, now)
  }

  /** All that can make a load fail: a plan that fails, an input that vanishes, or inputs that change during both attempts. */
  ghost predicate LoadFails(timeline: seq<State>, inputs: Inputs, from: nat, now: nat) {
    || PlanFails(timeline, inputs, from, now)
    || (exists p :: p in PathsOf(inputs) && Vanishes(timeline, p, from, now))
    || ChangesTwice(timeline, PathsOf(inputs), from, now)
  }

  /** The inputs stay the same over a span. */
  ghost predicate Steady(timeline: seq<State>, paths: set<Path>, from: nat, now: nat) {
    forall p, i: nat :: p in paths && from <= i <= now < |timeline| ==>
      (p in timeline[i] <==> p in timeline[from]) && (p in timeline[i] ==> timeline[i][p] == timeline[from][p])
  }

  ghost predicate AllRequired(state: State, inputs: Inputs) {
    inputs.directory in state && forall p :: p in inputs.fixed && p !in inputs.optional ==> p in state
  }

  function Looked(inputs: Inputs): set<Path> {
    PathsOf(inputs) + {inputs.directory}
  }

  lemma AbsentEarlier(timeline: seq<State>, p: Path, early: nat, from: nat, now: nat, later: nat)
    requires AbsentWithin(timeline, p, from, now) && early <= from && now <= later < |timeline|
    ensures AbsentWithin(timeline, p, early, later)
  {
  }

  lemma FailsEarlier(timeline: seq<State>, inputs: Inputs, early: nat, from: nat, now: nat, later: nat)
    requires PlanFails(timeline, inputs, from, now) && early <= from && now <= later < |timeline|
    ensures LoadFails(timeline, inputs, early, later)
  {
    if p :| p in inputs.fixed && p !in inputs.optional && AbsentWithin(timeline, p, from, now) {
      AbsentEarlier(timeline, p, early, from, now, later);
    } else if AbsentWithin(timeline, inputs.directory, from, now) {
      AbsentEarlier(timeline, inputs.directory, early, from, now, later);
    } else {
      var p :| p in inputs.datatypes && Vanishes(timeline, p, from, now);
      VanishesEarlier(timeline, p, early, from, now, later);
    }
  }

  lemma VanishesEarlier(timeline: seq<State>, p: Path, early: nat, from: nat, now: nat, later: nat)
    requires Vanishes(timeline, p, from, now) && early <= from && now <= later < |timeline|
    ensures Vanishes(timeline, p, early, later)
  {
    var i: nat, k: nat :| from <= i <= k <= now < |timeline| && p in timeline[i] && p !in timeline[k];
  }

  /** A file that the plan saw and the read missed has vanished in between. */
  lemma ReadFails(timeline: seq<State>, inputs: Inputs, files: map<Path, Stamp>, at: map<Path, nat>, early: nat, t0: nat, t1: nat, t2: nat)
    requires Observed(timeline, PathsOf(inputs), files, at, t0, t1) && early <= t0 && t1 <= t2
    requires exists p :: p in files && AbsentWithin(timeline, p, t1, t2)
    ensures LoadFails(timeline, inputs, early, t2)
  {
    var p :| p in files && AbsentWithin(timeline, p, t1, t2);
    assert StatGave(timeline, p, files, at[p]);
    var k :| t1 <= k <= t2 < |timeline| && p !in timeline[k];
    assert Vanishes(timeline, p, early, t2);
  }

  /** Two looks with different results: some input has changed in between. */
  lemma LooksDiffer(timeline: seq<State>, paths: set<Path>, files: map<Path, Stamp>, files': map<Path, Stamp>,
                    at: map<Path, nat>, at': map<Path, nat>, t0: nat, t1: nat, t2: nat, t3: nat)
    requires Observed(timeline, paths, files, at, t0, t1) && Observed(timeline, paths, files', at', t2, t3)
    requires t0 <= t1 <= t2 <= t3 && files != files'
    ensures Changes(timeline, paths, t0, t3)
  {
    if forall p :: p in paths ==> StampAt(timeline[at[p]], p) == StampAt(timeline[at'[p]], p) {
      SameLooks(timeline, paths, files, files', at, at', t0, t1, t2, t3);
    } else {
      var p :| p in paths && StampAt(timeline[at[p]], p) != StampAt(timeline[at'[p]], p);
    }
  }

  lemma SameLooks(timeline: seq<State>, paths: set<Path>, files: map<Path, Stamp>, files': map<Path, Stamp>,
                  at: map<Path, nat>, at': map<Path, nat>, t0: nat, t1: nat, t2: nat, t3: nat)
    requires Observed(timeline, paths, files, at, t0, t1) && Observed(timeline, paths, files', at', t2, t3)
    requires forall p :: p in paths ==> StampAt(timeline[at[p]], p) == StampAt(timeline[at'[p]], p)
    ensures files == files'
  {
    forall p
      ensures p in files <==> p in files'
      ensures p in files ==> files[p] == files'[p]
    {
      if p in paths {
        assert StatGave(timeline, p, files, at[p]) && StatGave(timeline, p, files', at'[p]);
      }
    }
  }

  /** A load over inputs that stay the same and are complete cannot fail. */
  lemma SteadyNeverFails(timeline: seq<State>, inputs: Inputs, from: nat, now: nat)
    requires from <= now < |timeline| && Steady(timeline, Looked(inputs), from, now) && AllRequired(timeline[from], inputs)
    ensures !LoadFails(timeline, inputs, from, now)
  {
    forall p, i: nat, k: nat | p in Looked(inputs) && from <= i <= k <= now
      ensures StampAt(timeline[i], p) == StampAt(timeline[k], p) && (p in timeline[i] ==> p in timeline[k])
    {
    }
    forall p | p == inputs.directory || (p in inputs.fixed && p !in inputs.optional)
      ensures !AbsentWithin(timeline, p, from, now)
    {
      assert p in Looked(inputs) && p in timeline[from];
    }
  }

  /** What a load answers while the inputs stay the same: all of them, as they are. */
  lemma SteadyAnswer(timeline: seq<State>, paths: set<Path>, bundle: Bundle, from: nat, now: nat)
    requires from <= now < |timeline| && Steady(timeline, paths, from, now) && Promised(timeline, paths, bundle, from, now)
    ensures bundle == Snapshot(timeline[from], paths)
  {
    var a: nat, b: nat :| from <= a && PromisedOver(timeline, paths, bundle, a, b, now);
    assert AnsweredAt(timeline, paths, bundle, a, now);
    forall p | p in paths
      ensures p in bundle <==> p in timeline[from]
      ensures p in bundle ==> bundle[p] == timeline[from][p].content
    {
      assert p in timeline[a] <==> p in timeline[from];
      if p !in bundle {
        assert p in paths - bundle.Keys;
        var t :| a <= t <= now < |timeline| && p !in timeline[t];
        assert p in timeline[t] <==> p in timeline[from];
      }
    }
  }

  /** All inputs of one instant. */
  ghost function Snapshot(state: State, paths: set<Path>): Bundle {
    map p | p in state && p in paths :: state[p].content
  }

  /** No other root has a new bundle. */
  ghost predicate Unreplaced(before: map<string, Cached>, after: map<string, Cached>, root: string) {
    forall r :: r in after && r != root ==> r in before && after[r] == before[r]
  }

  /** A bundle that some load read, settled at instant a, answering for a..b and confirmed by now. */
  predicate RecordedAt(timeline: seq<State>, layout: string -> Inputs, root: string, c: Cached, a: nat, b: nat, now: nat) {
    && c.manifest.root == root && Covers(timeline, PathsOf(layout(root)), c.bundle, a, b, now)
    && Settled(timeline[a], c.manifest.files, c.bundle)
  }

  ghost predicate Recorded(timeline: seq<State>, layout: string -> Inputs, root: string, c: Cached, now: nat) {
    exists a: nat, b: nat :: RecordedAt(timeline, layout, root, c, a, b, now)
  }

  ghost predicate AllRecorded(timeline: seq<State>, layout: string -> Inputs, entries: map<string, Cached>, now: nat) {
    forall root :: root in entries ==> Recorded(timeline, layout, root, entries[root], now)
  }

  lemma AnsweredLater(timeline: seq<State>, paths: set<Path>, bundle: Bundle, i: nat, now: nat, later: nat)
    requires AnsweredAt(timeline, paths, bundle, i, now) && now <= later < |timeline|
    ensures AnsweredAt(timeline, paths, bundle, i, later)
  {
    forall p | p in paths - bundle.Keys
      ensures AbsentWithin(timeline, p, i, later)
    {
      assert AbsentWithin(timeline, p, i, now);
    }
  }

  lemma CoversLater(timeline: seq<State>, paths: set<Path>, bundle: Bundle, a: nat, b: nat, now: nat, later: nat)
    requires Covers(timeline, paths, bundle, a, b, now) && now <= later < |timeline|
    ensures Covers(timeline, paths, bundle, a, b, later)
  {
    hide AnsweredAt;
    forall i: nat | a <= i <= b
      ensures AnsweredAt(timeline, paths, bundle, i, later)
    {
      AnsweredLater(timeline, paths, bundle, i, now, later);
    }
  }

  /** Cached bundles stay what they were when time passes. */
  lemma RecordedLater(timeline: seq<State>, layout: string -> Inputs, entries: map<string, Cached>, now: nat, later: nat)
    requires AllRecorded(timeline, layout, entries, now) && now <= later < |timeline|
    ensures AllRecorded(timeline, layout, entries, later)
  {
    hide AnsweredAt, Settled;
    forall root | root in entries
      ensures Recorded(timeline, layout, root, entries[root], later)
    {
      var a: nat, b: nat :| RecordedAt(timeline, layout, root, entries[root], a, b, now);
      CoversLater(timeline, PathsOf(layout(root)), entries[root].bundle, a, b, now, later);
      assert RecordedAt(timeline, layout, root, entries[root], a, b, later);
    }
  }

  /** A cached bundle whose manifest is seen again is promised by this load as well, whichever load read it and when. */
  lemma CachedIsPromised(timeline: seq<State>, layout: string -> Inputs, root: string, c: Cached, at: map<Path, nat>, t0: nat, now: nat)
    requires FreshStamps(timeline) && Recorded(timeline, layout, root, c, now) && t0 <= now
    requires Observed(timeline, PathsOf(layout(root)), c.manifest.files, at, t0, now)
    ensures Promised(timeline, PathsOf(layout(root)), c.bundle, t0, now)
  {
    hide FreshStamps, Observed, AnsweredAt, Settled, PromisedOver, PathsOf;
    var a: nat, b: nat :| RecordedAt(timeline, layout, root, c, a, b, now);
    var from, to := Max(a, t0), Max(b, t0);
    if a <= t0 {
      StillSettled(timeline, PathsOf(layout(root)), c.manifest.files, c.bundle, at, a, t0, now);
    }
    Promise(timeline, PathsOf(layout(root)), c.bundle, from, to, now);
  }

  lemma ReadIsRecorded(timeline: seq<State>, layout: string -> Inputs, m: Manifest, bundle: Bundle, a: nat, b: nat, now: nat)
    requires Covers(timeline, PathsOf(layout(m.root)), bundle, a, b, now) && Settled(timeline[a], m.files, bundle)
    ensures Recorded(timeline, layout, m.root, Cached(m, bundle), now)
  {
    hide Settled, AnsweredAt;
    assert RecordedAt(timeline, layout, m.root, Cached(m, bundle), a, b, now);
  }

  lemma StoredRecorded(timeline: seq<State>, layout: string -> Inputs, before: map<string, Cached>, after: map<string, Cached>,
                       root: string, c: Cached, now: nat)
    requires AllRecorded(timeline, layout, before, now) && Recorded(timeline, layout, root, c, now)
    requires root in after && after[root] == c && Unreplaced(before, after, root)
    ensures AllRecorded(timeline, layout, after, now)
  {
    hide Recorded;
  }

  lemma EntryRecorded(timeline: seq<State>, layout: string -> Inputs, entries: map<string, Cached>, root: string, now: nat)
    requires AllRecorded(timeline, layout, entries, now) && root in entries
    ensures Recorded(timeline, layout, root, entries[root], now)
  {
  }

  class Bundles {
    const timeline: seq<State>
    const layout: string -> Inputs
    var now: nat
    var entries: map<string, Cached>
    var order: seq<string>

    /** The order lists the cached roots, each once, and no more of them than fit. */
    ghost predicate Bounded()
      reads this`entries, this`order
    {
      Distinct(order) && Elems(order) == entries.Keys && |order| <= MAX_CACHED
    }

    ghost predicate Valid()
      reads this
    {
      && now < |timeline|
      && Bounded()
      && AllRecorded(timeline, layout, entries, now)
    }

    constructor (timeline: seq<State>, layout: string -> Inputs)
      requires timeline != []
      ensures Valid() && this.timeline == timeline && this.layout == layout && entries == map[]
    {
      this.timeline, this.layout := timeline, layout;
      now, entries, order := 0, map[], [];
    }

    /** Other programs may write the inputs before the next look at them. */
    method Elapse()
      requires now < |timeline|
      modifies this`now
      ensures old(now) <= now < |timeline|
    {
      var d: int := *;
      if 0 <= d && now + d < |timeline| {
        now := now + d;
      }
    }

    method Stat(path: Path) returns (r: Result<Stamp>)
      requires now < |timeline|
      modifies this`now
      ensures old(now) <= now < |timeline|
      ensures r.Ok? <==> path in timeline[now]
      ensures r.Ok? ==> timeline[now][path].stamp == r.value
    {
      Elapse();
      if path in timeline[now] {
        r := Ok(timeline[now][path].stamp);
      } else {
        r := Err;
      }
    }

    method ReadFile(path: Path) returns (r: Result<string>)
      requires now < |timeline|
      modifies this`now
      ensures old(now) <= now < |timeline|
      ensures r.Ok? <==> path in timeline[now]
      ensures r.Ok? ==> timeline[now][path].content == r.value
    {
      Elapse();
      if path in timeline[now] {
        r := Ok(timeline[now][path].content);
      } else {
        r := Err;
      }
    }

    /** Which data type files the directory lists at an instant. */
    method ReadDir(directory: Path, candidates: set<Path>) returns (r: Result<set<Path>>)
      requires now < |timeline|
      modifies this`now
      ensures old(now) <= now < |timeline|
      ensures r.Ok? <==> directory in timeline[now]
      ensures r.Ok? ==> forall p :: p in r.value <==> p in candidates && p in timeline[now]
    {
      Elapse();
      if directory in timeline[now] {
        r := Ok(set p | p in candidates && p in timeline[now]);
      } else {
        r := Err;
      }
    }

    /** Looks at every input of a root once: the fixed list, the directory, and each file the directory lists. */
    method EngineInputPlan(root: string) returns (r: Result<Manifest>, ghost at: map<Path, nat>)
      requires now < |timeline| && WellLaid(layout(root))
      modifies this`now
      ensures old(now) <= now < |timeline|
      ensures r.Ok? ==> r.value.root == root && Observed(timeline, PathsOf(layout(root)), r.value.files, at, old(now), now)
      ensures r.Err? ==> PlanFails(timeline, layout(root), old(now), now)
    {
      hide StatGave, PlanFails;
      var inputs := layout(root);
      var files: map<Path, Stamp> := map[];
      at := map[];
      for i := 0 to |inputs.fixed|
        invariant old(now) <= now < |timeline|
        invariant Observed(timeline, Elems(inputs.fixed[..i]), files, at, old(now), now)
      {
        hide Observed;
        var path := inputs.fixed[i];
        var info := Stat(path);
        FixedNext(inputs.fixed, i);
        if info.Err? && path !in inputs.optional {
          RequiredMissing(timeline, inputs, path, old(now), now);
          return Err, at;
        }
        ObserveOne(timeline, Elems(inputs.fixed[..i]), files, at, path, old(now), now);
        if info.Ok? {
          files := files[path := info.value];
        }
        at := at[path := now];
      }
      assert inputs.fixed[..|inputs.fixed|] == inputs.fixed;
      var listing := ReadDir(inputs.directory, inputs.datatypes);
      ghost var listed := now;
      if listing.Err? {
        DirectoryMissing(timeline, inputs, old(now), now);
        return Err, at;
      }
      var names := listing.value;
      ghost var unlisted := inputs.datatypes - names;
      ghost var listedAt := map p | p in unlisted :: now;
      ObserveNone(timeline, Elems(inputs.fixed), files, at, unlisted, old(now), now);
      at := at + listedAt;
      var rest := names;
      while rest != {}
        invariant rest <= names <= inputs.datatypes
        invariant old(now) <= listed <= now < |timeline|
        invariant Observed(timeline, PathsOf(inputs) - rest, files, at, old(now), now)
        decreases rest
      {
        hide Observed;
        var path :| path in rest;
        var info := Stat(path);
        if info.Err? {
          ListedGone(timeline, inputs, path, old(now), listed, now);
          return Err, at;
        }
        ObserveOne(timeline, PathsOf(inputs) - rest, files, at, path, old(now), now);
        files := files[path := info.value];
        at := at[path := now];
        assert PathsOf(inputs) - (rest - {path}) == PathsOf(inputs) - rest + {path};
        rest := rest - {path};
      }
      assert PathsOf(inputs) - {} == PathsOf(inputs);
      return Ok(Manifest(root, files)), at;
    }

    /** Reads every input that the manifest found present. */
    method ReadEngineBundle(m: Manifest) returns (r: Result<Bundle>, ghost at: map<Path, nat>)
      requires now < |timeline|
      modifies this`now
      ensures old(now) <= now < |timeline|
      ensures r.Ok? ==> r.value.Keys == m.files.Keys && ReadWithin(timeline, r.value, at, old(now), now)
      ensures r.Err? ==> exists p :: p in m.files && AbsentWithin(timeline, p, old(now), now)
    {
      var bundle: Bundle := map[];
      at := map[];
      var rest := m.files.Keys;
      while rest != {}
        invariant rest <= m.files.Keys && bundle.Keys == m.files.Keys - rest
        invariant old(now) <= now < |timeline|
        invariant ReadWithin(timeline, bundle, at, old(now), now)
        decreases rest
      {
        var path :| path in rest;
        var data := ReadFile(path);
        if data.Err? {
          assert AbsentWithin(timeline, path, old(now), now);
          return Err, at;
        }
        bundle := bundle[path := data.value];
        at := at[path := now];
        rest := rest - {path};
      }
      return Ok(bundle), at;
    }

    method CachedBundleForManifest(m: Manifest) returns (r: Result<Bundle>)
      ensures r == if m.root in entries && entries[m.root].manifest == m then Ok(entries[m.root].bundle) else Err
    {
      if m.root !in entries || entries[m.root].manifest != m {
        return Err;
      }
      return Ok(entries[m.root].bundle);
    }

    /** A new root goes to the end of the order and pushes out the oldest ones that no longer fit. */
    method CacheEngineBundle(m: Manifest, bundle: Bundle)
      requires Bounded()
      modifies this`entries, this`order
      ensures Bounded()
      ensures m.root in old(entries) ==> order == old(order)
      ensures m.root !in old(entries) ==> order == (if |old(order)| < 8 then old(order) else old(order)[1..]) + [m.root]
      ensures |order| <= 8
      ensures m.root in entries && entries[m.root] == Cached(m, bundle)
      ensures Unreplaced(old(entries), entries, m.root)
    {
      if m.root !in entries {
        assert m.root !in order by {
          assert m.root in order ==> m.root in Elems(order);
        }
        order := order + [m.root];
      }
      entries := entries[m.root := Cached(m, bundle)];
      ghost var full, all := order, old(entries);
      assert Elems(order) == entries.Keys by {
        assert forall x :: x in order <==> x in old(order) || x == m.root;
      }
      assert m.root == order[|order| - 1] || order == old(order);
      ghost var gone := 0;
      while |order| > MAX_CACHED
        invariant 0 <= gone <= |full| && order == full[gone..] && (|full| <= MAX_CACHED ==> gone == 0)
        invariant gone > 0 ==> |order| >= MAX_CACHED
        invariant Distinct(order) && Elems(order) == entries.Keys
        invariant m.root in entries && entries[m.root] == Cached(m, bundle)
        invariant Unreplaced(all, entries, m.root)
        decreases |order|
      {
        var oldest := order[0];
        HeadLeaves(order);
        assert oldest != m.root;
        order := order[1..];
        entries := entries - {oldest};
        gone := gone + 1;
      }
    }

    /** Whatever other loads publish between two uses of the cache: any number of bundles they have read. */
    method OthersPublish()
      requires Valid()
      modifies this`entries, this`order
      ensures Valid()
    {
      var more: int := *;
      while more > 0
        invariant Valid()
      {
        hide Settled, AnsweredAt, Bounded;
        var c: Cached, a: int, b: int := *, *, *;
        if 0 <= a <= b && RecordedAt(timeline, layout, c.manifest.root, c, a, b, now) {
          CacheEngineBundle(c.manifest, c.bundle);
          assert Recorded(timeline, layout, c.manifest.root, c, now);
        }
        more := more - 1;
      }
    }

    /** At most two attempts. Every answer is promised over a span of instants of this call; without the cache that span is
        all the time between two looks at every input. It fails only if a required input was missing, an input vanished, or
        inputs changed during both attempts; so over inputs that stay the same and are complete it answers with all of them. */
    method LoadEngineBundle(root: string, allowManifestCache: bool) returns (r: Result<Bundle>)
      requires Valid() && FreshStamps(timeline) && WellLaid(layout(root))
      modifies this`now, this`entries, this`order
      ensures Valid() && old(now) <= now
      ensures Answers(timeline, layout(root), r, old(now), now)
      ensures r.Ok? && !allowManifestCache ==> LookedTwice(timeline, PathsOf(layout(root)), r.value, old(now), now)
    {
      hide Observed, ReadWithin, Settled, AnsweredAt, FreshStamps, PathsOf, WellLaid, Bounded, Promised, LookedTwice, PlanFails, LoadFails,
        Steady, AllRequired, Snapshot, AbsentWithin, Changes, ChangedTimes, Covers, Recorded, RecordedAt, AllRecorded, Answers, Unreplaced;
      var attempt := 0;
      NoChangesYet(timeline, PathsOf(layout(root)), now);
      ghost var paths := PathsOf(layout(root));
      while attempt < 2
        invariant Valid() && old(now) <= now
        invariant 0 <= attempt <= 2 && ChangedTimes(timeline, paths, old(now), now, attempt)
      {
        ghost var t0 := now;
        var plan, at := EngineInputPlan(root);
        RecordedLater(timeline, layout, entries, t0, now);
        if plan.Err? {
          FailsEarlier(timeline, layout(root), old(now), t0, now, now);
          ErrAnswers(timeline, layout(root), old(now), now);
          return Err;
        }
        var manifest := plan.value;
        ghost var t1 := now;
        if allowManifestCache {
          OthersPublish();
          var hit := CachedBundleForManifest(manifest);
          if hit.Ok? {
            EntryRecorded(timeline, layout, entries, root, now);
            CachedIsPromised(timeline, layout, root, entries[root], at, t0, now);
            PromisedEarlier(timeline, paths, hit.value, old(now), t0, now);
            OkAnswers(timeline, layout(root), hit.value, old(now), now);
            return hit;
          }
        }
        var read, readAt := ReadEngineBundle(manifest);
        RecordedLater(timeline, layout, entries, t1, now);
        if read.Err? {
          ReadFails(timeline, layout(root), manifest.files, at, old(now), t0, t1, now);
          ErrAnswers(timeline, layout(root), old(now), now);
          return Err;
        }
        ghost var t2 := now;
        var after, at' := EngineInputPlan(root);
        RecordedLater(timeline, layout, entries, t2, now);
        if after.Err? {
          FailsEarlier(timeline, layout(root), old(now), t2, now, now);
          ErrAnswers(timeline, layout(root), old(now), now);
          return Err;
        }
        if after.value == manifest {
          ReadIsPromised(timeline, paths, manifest.files, read.value, at, readAt, at', old(now), t0, t1, t2, now);
          OkAnswers(timeline, layout(root), read.value, old(now), now);
          ReadIsRecorded(timeline, layout, manifest, read.value, t1, t2, now);
          OthersPublish();
          ghost var others := entries;
          CacheEngineBundle(manifest, read.value);
          StoredRecorded(timeline, layout, others, entries, manifest.root, Cached(manifest, read.value), now);
          return read;
        }
        LooksDiffer(timeline, paths, manifest.files, after.value.files, at, at', t0, t1, t2, now);
        ChangedAgain(timeline, paths, old(now), t0, now, attempt);
        attempt := attempt + 1;
      }
      TwiceFails(timeline, layout(root), old(now), now);
      ErrAnswers(timeline, layout(root), old(now), now);
      return Err;
    }
  }

  lemma TwiceFails(timeline: seq<State>, inputs: Inputs, from: nat, now: nat)
    requires ChangedTimes(timeline, PathsOf(inputs), from, now, 2)
    ensures LoadFails(timeline, inputs, from, now)
  {
  }

  /** How many attempts have already seen a change. */
  ghost predicate ChangedTimes(timeline: seq<State>, paths: set<Path>, from: nat, now: nat, attempt: int) {
    && (attempt == 1 ==> Changes(timeline, paths, from, now))
    && (attempt == 2 ==> ChangesTwice(timeline, paths, from, now))
  }

  lemma NoChangesYet(timeline: seq<State>, paths: set<Path>, from: nat)
    ensures ChangedTimes(timeline, paths, from, from, 0)
  {
  }

  lemma ChangedAgain(timeline: seq<State>, paths: set<Path>, from: nat, t0: nat, now: nat, attempt: int)
    requires ChangedTimes(timeline, paths, from, t0, attempt) && Changes(timeline, paths, t0, now) && 0 <= attempt < 2 && from <= t0 <= now
    ensures ChangedTimes(timeline, paths, from, now, attempt + 1)
  {
    if attempt == 0 {
      var p, i: nat, k: nat :|
        p in paths && t0 <= i <= k <= now < |timeline| && StampAt(timeline[i], p) != StampAt(timeline[k], p);
      assert Changes(timeline, paths, from, now);
    }
  }

  /** What a load says: an answer is promised, a failure has a cause, and over inputs that stay the same and are complete the
      answer is all of them. */
  ghost predicate Answers(timeline: seq<State>, inputs: Inputs, r: Result<Bundle>, from: nat, now: nat) {
    && from <= now < |timeline|
    && (r.Ok? ==> Promised(timeline, PathsOf(inputs), r.value, from, now))
    && (r.Err? ==> LoadFails(timeline, inputs, from, now))
    && (Steady(timeline, Looked(inputs), from, now) && AllRequired(timeline[from], inputs) ==>
          r == Ok(Snapshot(timeline[from], PathsOf(inputs))))
  }

  lemma ErrAnswers(timeline: seq<State>, inputs: Inputs, from: nat, now: nat)
    requires from <= now < |timeline| && LoadFails(timeline, inputs, from, now)
    ensures Answers(timeline, inputs, Err, from, now)
  {
    hide LoadFails;
    if Steady(timeline, Looked(inputs), from, now) && AllRequired(timeline[from], inputs) {
      SteadyNeverFails(timeline, inputs, from, now);
    }
  }

  lemma OkAnswers(timeline: seq<State>, inputs: Inputs, bundle: Bundle, from: nat, now: nat)
    requires from <= now < |timeline| && Promised(timeline, PathsOf(inputs), bundle, from, now)
    ensures Answers(timeline, inputs, Ok(bundle), from, now)
  {
    hide Promised;
    if Steady(timeline, Looked(inputs), from, now) {
      assert forall p :: p in PathsOf(inputs) ==> p in Looked(inputs);
      assert Steady(timeline, PathsOf(inputs), from, now);
      SteadyAnswer(timeline, PathsOf(inputs), bundle, from, now);
    }
  }

  lemma RequiredMissing(timeline: seq<State>, inputs: Inputs, p: Path, from: nat, now: nat)
    requires p in inputs.fixed && p !in inputs.optional && from <= now < |timeline| && p !in timeline[now]
    ensures PlanFails(timeline, inputs, from, now)
  {
    assert AbsentWithin(timeline, p, from, now);
  }

  lemma DirectoryMissing(timeline: seq<State>, inputs: Inputs, from: nat, now: nat)
    requires from <= now < |timeline| && inputs.directory !in timeline[now]
    ensures PlanFails(timeline, inputs, from, now)
  {
    assert AbsentWithin(timeline, inputs.directory, from, now);
  }

  lemma ListedGone(timeline: seq<State>, inputs: Inputs, p: Path, from: nat, listed: nat, now: nat)
    requires p in inputs.datatypes && from <= listed <= now < |timeline| && p in timeline[listed] && p !in timeline[now]
    ensures PlanFails(timeline, inputs, from, now)
  {
    assert Vanishes(timeline, p, from, now);
  }

  lemma HeadLeaves(order: seq<string>)
    requires Distinct(order) && order != []
    ensures Distinct(order[1..]) && Elems(order[1..]) == Elems(order) - {order[0]}
  {
    forall x
      ensures x in Elems(order[1..]) <==> x in Elems(order) - {order[0]}
    {
      if x in Elems(order) - {order[0]} {
        var k :| 0 <= k < |order| && order[k] == x;
        assert order[1..][k - 1] == x;
      }
    }
  }

  lemma FixedNext(fixed: seq<Path>, i: nat)
    requires Distinct(fixed) && i < |fixed|
    ensures fixed[i] !in Elems(fixed[..i]) && Elems(fixed[..i + 1]) == Elems(fixed[..i]) + {fixed[i]}
  {
    assert fixed[..i + 1] == fixed[..i] + [fixed[i]];
  }

  lemma ObserveOne(timeline: seq<State>, paths: set<Path>, files: map<Path, Stamp>, at: map<Path, nat>, path: Path, from: nat, now: nat)
    requires exists earlier: nat :: earlier <= now && Observed(timeline, paths, files, at, from, earlier)
    requires path !in paths && from <= now < |timeline|
    ensures path in timeline[now] ==>
              Observed(timeline, paths + {path}, files[path := timeline[now][path].stamp], at[path := now], from, now)
    ensures path !in timeline[now] ==> Observed(timeline, paths + {path}, files, at[path := now], from, now)
  {
  }

  lemma ObserveNone(timeline: seq<State>, paths: set<Path>, files: map<Path, Stamp>, at: map<Path, nat>, absent: set<Path>, from: nat, now: nat)
    requires exists earlier: nat :: earlier <= now && Observed(timeline, paths, files, at, from, earlier)
    requires paths !! absent && from <= now < |timeline| && forall p :: p in absent ==> p !in timeline[now]
    ensures Observed(timeline, paths + absent, files, at + map p | p in absent :: now, from, now)
  {
  }

  /** Equal manifests before and after the reads: at every instant between the two looks, the contents are those read. */
  lemma DoubleChecked(timeline: seq<State>, paths: set<Path>, files: map<Path, Stamp>, bundle: Bundle,
                      at: map<Path, nat>, readAt: map<Path, nat>, at': map<Path, nat>, t0: nat, t1: nat, t2: nat, t3: nat, i: nat)
    requires FreshStamps(timeline) && t1 <= i <= t2 <= t3
    requires Observed(timeline, paths, files, at, t0, t1) && Observed(timeline, paths, files, at', t2, t3)
    requires bundle.Keys == files.Keys && ReadWithin(timeline, bundle, readAt, t1, t2)
    ensures Settled(timeline[i], files, bundle) && AnsweredAt(timeline, paths, bundle, i, t3)
  {
    hide FreshStamps;
    forall p | p in files
      ensures Holds(timeline[i], p, files[p], bundle[p])
    {
      Lifetime(timeline, p, at[p], readAt[p], at'[p]);
      Lifetime(timeline, p, at[p], i, at'[p]);
    }
    SettledContents(timeline[i], files, bundle);
    forall p | p in paths - bundle.Keys
      ensures AbsentWithin(timeline, p, i, t3)
    {
      assert p !in timeline[at'[p]];
    }
  }

  lemma SettledContents(state: State, files: map<Path, Stamp>, bundle: Bundle)
    requires Settled(state, files, bundle)
    ensures forall p :: p in bundle ==> p in state && state[p].content == bundle[p]
  {
    forall p | p in bundle
      ensures p in state && state[p].content == bundle[p]
    {
      assert p in files && Holds(state, p, files[p], bundle[p]);
    }
  }

  lemma Lifetime(timeline: seq<State>, p: Path, i: nat, k: nat, j: nat)
    requires FreshStamps(timeline) && i <= k <= j < |timeline| && p in timeline[i] && p in timeline[j]
    requires timeline[i][p].stamp == timeline[j][p].stamp
    ensures p in timeline[k] && timeline[k][p] == timeline[i][p]
  {
    assert Unbroken(timeline, p, i, k, j);
  }

  /** A cached bundle whose manifest is seen again is still settled when the call began. */
  lemma StillSettled(timeline: seq<State>, paths: set<Path>, files: map<Path, Stamp>, bundle: Bundle, at: map<Path, nat>, i: nat, t0: nat, t1: nat)
    requires FreshStamps(timeline) && i <= t0 <= t1 < |timeline| && Settled(timeline[i], files, bundle)
    requires Observed(timeline, paths, files, at, t0, t1)
    ensures Settled(timeline[t0], files, bundle) && AnsweredAt(timeline, paths, bundle, t0, t1)
  {
    hide FreshStamps;
    forall p | p in files
      ensures Holds(timeline[t0], p, files[p], bundle[p])
    {
      assert Holds(timeline[i], p, files[p], bundle[p]);
      Lifetime(timeline, p, i, t0, at[p]);
    }
    SettledContents(timeline[t0], files, bundle);
    forall p | p in paths - bundle.Keys
      ensures AbsentWithin(timeline, p, t0, t1)
    {
      assert p !in timeline[at[p]];
    }
  }

  /** A path that exists at an instant i is removed after it, as the first thing that happens to its existence. */
  ghost predicate RemovedAfter(timeline: seq<State>, p: Path, i: nat, now: nat) {
    exists s: nat :: i <= s < now < |timeline| && RemovedAt(timeline, p, i, s)
  }

  ghost predicate RemovedAt(timeline: seq<State>, p: Path, i: nat, s: nat)
    requires i <= s < |timeline| - 1
  {
    (forall j :: i <= j <= s ==> p in timeline[j]) && p !in timeline[s + 1]
  }

  /** What is there at i and absent at t was removed in between. */
  lemma {:induction false} Removal(timeline: seq<State>, p: Path, i: nat, t: nat)
    requires i <= t < |timeline| && p in timeline[i] && p !in timeline[t]
    ensures RemovedAfter(timeline, p, i, t)
    decreases t
  {
    var s := t - 1;
    if p in timeline[s] && forall j :: i <= j <= s ==> p in timeline[j] {
      assert RemovedAt(timeline, p, i, s);
    } else {
      var j :| i <= j <= s && p !in timeline[j];
      Removal(timeline, p, i, j);
    }
  }

  lemma RemovedStill(timeline: seq<State>, p: Path, i: nat, t: nat, now: nat)
    requires RemovedAfter(timeline, p, i, t) && t <= now < |timeline|
    ensures RemovedAfter(timeline, p, i, now)
  {
    var s: nat :| i <= s < t < |timeline| && RemovedAt(timeline, p, i, s);
  }

  /** An answer is a snapshot of its instant if and only if no input it leaves out was removed after that instant. */
  lemma SnapshotIff(timeline: seq<State>, paths: set<Path>, bundle: Bundle, i: nat, now: nat)
    requires AnsweredAt(timeline, paths, bundle, i, now)
    ensures bundle == Snapshot(timeline[i], paths) <==> forall p :: p in paths - bundle.Keys ==> !RemovedAfter(timeline, p, i, now)
  {
    forall p | p in paths - bundle.Keys
      ensures p in timeline[i] <==> RemovedAfter(timeline, p, i, now)
    {
      if p in timeline[i] {
        var t: nat :| i <= t <= now < |timeline| && p !in timeline[t];
        Removal(timeline, p, i, t);
        RemovedStill(timeline, p, i, t, now);
      }
    }
    if forall p :: p in paths - bundle.Keys ==> !RemovedAfter(timeline, p, i, now) {
      assert bundle.Keys == Snapshot(timeline[i], paths).Keys;
    }
  }

  /** No input of these is removed during a span. */
  ghost predicate NoneRemoved(timeline: seq<State>, paths: set<Path>, from: nat, now: nat) {
    forall p, s: nat :: p in paths && from <= s < now < |timeline| && p in timeline[s] ==> p in timeline[s + 1]
  }

  /** Where no left-out input is removed between the instant of an answer and its return, the answer is a snapshot. */
  lemma AnswersAreSnapshots(timeline: seq<State>, paths: set<Path>, bundle: Bundle, i: nat, now: nat)
    requires AnsweredAt(timeline, paths, bundle, i, now) && NoneRemoved(timeline, paths - bundle.Keys, i, now)
    ensures bundle == Snapshot(timeline[i], paths)
  {
    forall p | p in paths - bundle.Keys
      ensures !RemovedAfter(timeline, p, i, now)
    {
      NeverRemoved(timeline, paths - bundle.Keys, p, i, now);
    }
    SnapshotIff(timeline, paths, bundle, i, now);
  }

  lemma NeverRemoved(timeline: seq<State>, paths: set<Path>, p: Path, i: nat, now: nat)
    requires NoneRemoved(timeline, paths, i, now) && p in paths
    ensures !RemovedAfter(timeline, p, i, now)
  {
    forall s: nat | i <= s < now < |timeline|
      ensures !RemovedAt(timeline, p, i, s)
    {
      assert p in timeline[s] ==> p in timeline[s + 1];
    }
  }

  /** None of these inputs exists. */
  ghost predicate NoneAt(state: State, missing: set<Path>) {
    forall p :: p in missing ==> p !in state
  }

  ghost predicate SnapshotWithin(timeline: seq<State>, paths: set<Path>, bundle: Bundle, a: nat, b: nat)
    requires b < |timeline|
  {
    exists i: nat :: a <= i <= b && bundle == Snapshot(timeline[i], paths)
  }

  ghost predicate NoneWithin(timeline: seq<State>, missing: set<Path>, a: nat, b: nat)
    requires b < |timeline|
  {
    exists i: nat :: a <= i <= b && NoneAt(timeline[i], missing)
  }

  /** A bundle that answers for a span is a snapshot of some instant of it if and only if at one of them none of the inputs it
      leaves out existed. */
  lemma SnapshotWithinIff(timeline: seq<State>, paths: set<Path>, bundle: Bundle, a: nat, b: nat, now: nat)
    requires Covers(timeline, paths, bundle, a, b, now)
    ensures SnapshotWithin(timeline, paths, bundle, a, b) <==> NoneWithin(timeline, paths - bundle.Keys, a, b)
  {
    forall i: nat | a <= i <= b
      ensures bundle == Snapshot(timeline[i], paths) <==> NoneAt(timeline[i], paths - bundle.Keys)
    {
      assert AnsweredAt(timeline, paths, bundle, i, now);
      SnapshotIffNone(timeline, paths, bundle, i, now);
    }
  }

  lemma SnapshotIffNone(timeline: seq<State>, paths: set<Path>, bundle: Bundle, i: nat, now: nat)
    requires AnsweredAt(timeline, paths, bundle, i, now)
    ensures bundle == Snapshot(timeline[i], paths) <==> NoneAt(timeline[i], paths - bundle.Keys)
  {
    if NoneAt(timeline[i], paths - bundle.Keys) {
      assert bundle.Keys == Snapshot(timeline[i], paths).Keys;
    }
  }

  /** What a load promises of a span: the bundle answers for all of it, and when it is a snapshot. */
  ghost predicate PromisedOver(timeline: seq<State>, paths: set<Path>, bundle: Bundle, a: nat, b: nat, now: nat) {
    && Covers(timeline, paths, bundle, a, b, now)
    && (SnapshotWithin(timeline, paths, bundle, a, b) <==> NoneWithin(timeline, paths - bundle.Keys, a, b))
  }

  ghost predicate Promised(timeline: seq<State>, paths: set<Path>, bundle: Bundle, from: nat, now: nat) {
    exists a: nat, b: nat :: from <= a && PromisedOver(timeline, paths, bundle, a, b, now)
  }

  /** The inputs were looked at twice with one result, before a and after b, and the promise is for all that lies between. */
  ghost predicate TwoLooks(timeline: seq<State>, paths: set<Path>, bundle: Bundle, files: map<Path, Stamp>,
                           at: map<Path, nat>, at': map<Path, nat>, from: nat, a: nat, b: nat, now: nat)
  {
    && from <= a && files.Keys == bundle.Keys && PromisedOver(timeline, paths, bundle, a, b, now)
    && Observed(timeline, paths, files, at, from, a) && Observed(timeline, paths, files, at', b, now)
  }

  ghost predicate LookedTwice(timeline: seq<State>, paths: set<Path>, bundle: Bundle, from: nat, now: nat) {
    exists files, at, at', a: nat, b: nat :: TwoLooks(timeline, paths, bundle, files, at, at', from, a, b, now)
  }

  lemma PromisedEarlier(timeline: seq<State>, paths: set<Path>, bundle: Bundle, early: nat, from: nat, now: nat)
    requires Promised(timeline, paths, bundle, from, now) && early <= from
    ensures Promised(timeline, paths, bundle, early, now)
  {
    hide PromisedOver;
  }

  lemma Promise(timeline: seq<State>, paths: set<Path>, bundle: Bundle, a: nat, b: nat, now: nat)
    requires Covers(timeline, paths, bundle, a, b, now)
    ensures PromisedOver(timeline, paths, bundle, a, b, now)
  {
    SnapshotWithinIff(timeline, paths, bundle, a, b, now);
  }

  /** Equal manifests before and after the reads promise the bundle for all the time between the looks. */
  lemma ReadIsPromised(timeline: seq<State>, paths: set<Path>, files: map<Path, Stamp>, bundle: Bundle, at: map<Path, nat>,
                       readAt: map<Path, nat>, at': map<Path, nat>, from: nat, t0: nat, t1: nat, t2: nat, t3: nat)
    requires FreshStamps(timeline) && from <= t0 <= t1 <= t2 <= t3
    requires Observed(timeline, paths, files, at, t0, t1) && Observed(timeline, paths, files, at', t2, t3)
    requires bundle.Keys == files.Keys && ReadWithin(timeline, bundle, readAt, t1, t2)
    ensures Promised(timeline, paths, bundle, from, t3) && LookedTwice(timeline, paths, bundle, from, t3)
    ensures Settled(timeline[t1], files, bundle) && Covers(timeline, paths, bundle, t1, t2, t3)
  {
    hide FreshStamps, Settled, AnsweredAt, ReadWithin, PromisedOver, StatGave;
    forall i: nat | t1 <= i <= t2
      ensures Settled(timeline[i], files, bundle) && AnsweredAt(timeline, paths, bundle, i, t3)
    {
      DoubleChecked(timeline, paths, files, bundle, at, readAt, at', t0, t1, t2, t3, i);
    }
    Promise(timeline, paths, bundle, t1, t2, t3);
    assert TwoLooks(timeline, paths, bundle, files, at, at', from, t1, t2, t3);
  }

  /** Two optional inputs that come and go in turn: both looks miss both files, every stamp is fresh, and yet no
      instant has neither. */
  lemma AlternatingInputs(a: Path, b: Path, u: Version, v: Version, w: Version)
    requires a != b && u.stamp != v.stamp && v.stamp != w.stamp && u.stamp != w.stamp
    ensures var timeline := [map[b := u], map[a := v], map[b := w], map[a := v.(stamp := u.stamp)]];
            && FreshStamps(timeline)
            && Observed(timeline, {a, b}, map[], map[a := 0, b := 1], 0, 1)
            && Observed(timeline, {a, b}, map[], map[a := 2, b := 3], 1, 3)
            && ReadWithin(timeline, map[], map[], 1, 1)
            && forall i :: 0 <= i < |timeline| ==> Snapshot(timeline[i], {a, b}) != map[]
  {
    var timeline := [map[b := u], map[a := v], map[b := w], map[a := v.(stamp := u.stamp)]];
    assert b in Snapshot(timeline[0], {a, b}) && a in Snapshot(timeline[1], {a, b});
    assert b in Snapshot(timeline[2], {a, b}) && a in Snapshot(timeline[3], {a, b});
  }
}
