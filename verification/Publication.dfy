/**
 Publication of immutable database generations behind one pointer file, as runs of single file operations.

 All names live in the directory of the anchor. One operation at a time holds the publication lock; the process may die
 between any two file operations. Database managers open the published database and retire it later without the lock.
 */
module Publication {
  import opened Text
  import opened Wrappers

  const PREFIX := ".generation-"
  const SUFFIX := ".sqlite"
  const CURRENT := ".current"

  function Sidecars(): seq<string> {
    ["", "-wal", "-shm", "-journal"]
  }

  function GenerationPrefix(base: string): string {
    "." + base + PREFIX
  }

  /** The name of a generation; `token` stands for the hashed revision in hexadecimal. */
  function GenerationName(base: string, generation: int, token: string): string {
    GenerationPrefix(base) + Itoa(generation) + "-" + token + SUFFIX
  }

  predicate ValidName(base: string, name: string) {
    && name != "" && '/' !in name && name != "." && name != ".."
    && HasPrefix(name, GenerationPrefix(base)) && HasSuffix(name, SUFFIX)
  }

  /** The validator accepts exactly the names without a slash between the generation prefix and the suffix. */
  lemma ValidIff(base: string, name: string)
    ensures ValidName(base, name) <==> '/' !in name && exists middle: string :: name == "." + base + ".generation-" + middle + ".sqlite"
  {
    var prefix := GenerationPrefix(base);
    assert prefix == "." + base + ".generation-";
    if ValidName(base, name) {
      NoOverlap(prefix, name);
      assert name == prefix + name[|prefix|..|name| - 7] + ".sqlite";
    }
    if middle: string :| name == "." + base + ".generation-" + middle + ".sqlite" {
      assert name == prefix + (middle + ".sqlite");
      assert name[..|prefix|] == prefix && name[|name| - 7..] == ".sqlite";
    }
  }

  lemma NoOverlap(prefix: string, name: string)
    requires |prefix| > 0 && prefix[|prefix| - 1] == '-' && HasPrefix(name, prefix) && HasSuffix(name, SUFFIX)
    ensures |prefix| + |SUFFIX| <= |name|
  {
    assert name[|prefix| - 1] == '-';
    assert forall i :: |name| - |SUFFIX| <= i < |name| ==> name[i] == SUFFIX[i - (|name| - |SUFFIX|)];
    assert forall i :: 0 <= i < |SUFFIX| ==> SUFFIX[i] != '-';
  }

  function PointerName(base: string): string {
    base + CURRENT
  }

  function TemporaryName(base: string, random: string): string {
    "." + base + CURRENT + "-" + random
  }

  predicate MarkerAt(s: string, j: int) {
    0 <= j && j + |SUFFIX| <= |s| && s[j..j + |SUFFIX|] == SUFFIX
  }

  /** Position of the last ".sqlite" in a name, or -1. */
  function LastMarker(s: string): (i: int)
    ensures i == -1 || MarkerAt(s, i)
    ensures forall j :: j > i ==> !MarkerAt(s, j)
  {
    if |s| < |SUFFIX| then -1
    else if HasSuffix(s, SUFFIX) then |s| - |SUFFIX|
    else
      var i := LastMarker(s[..|s| - 1]);
      MarkersShorter(s);
      i
  }

  lemma MarkersShorter(s: string)
    requires s != "" && !HasSuffix(s, SUFFIX)
    ensures forall j :: MarkerAt(s, j) <==> MarkerAt(s[..|s| - 1], j)
  {
    forall j
      ensures MarkerAt(s, j) <==> MarkerAt(s[..|s| - 1], j)
    {
      if 0 <= j && j + |SUFFIX| < |s| {
        assert s[j..j + |SUFFIX|] == s[..|s| - 1][j..j + |SUFFIX|];
      } else if 0 <= j && j + |SUFFIX| == |s| {
        assert s[j..j + |SUFFIX|] == s[|s| - |SUFFIX|..];
      }
    }
  }

  /** The root name the sweep derives from a directory entry. */
  function RootName(entry: string): Option<string> {
    var marker := LastMarker(entry);
    if marker < 0 then None else Some(entry[..marker + |SUFFIX|])
  }

  /** The glob of the sweep: the generation prefix, anything, ".sqlite", anything. */
  ghost predicate Globbed(base: string, entry: string) {
    exists middle: string, rest: string :: GlobSplit(base, entry, middle, rest)
  }

  ghost predicate GlobSplit(base: string, entry: string, middle: string, rest: string) {
    entry == GenerationPrefix(base) + middle + SUFFIX + rest
  }

  lemma GeneratedNameIsValid(base: string, generation: int, token: string)
    requires '/' !in base && '/' !in token
    ensures ValidName(base, GenerationName(base, generation, token))
  {
    var name := GenerationName(base, generation, token);
    var number := Itoa(generation);
    assert '/' !in number by {
      assert forall c :: c in number ==> c == '-' || '0' <= c <= '9';
    }
    assert name == "." + base + PREFIX + number + "-" + token + SUFFIX;
    assert name[|name| - |SUFFIX|..] == SUFFIX;
    assert name[..|GenerationPrefix(base)|] == GenerationPrefix(base);
    assert |name| > 2;
  }

  lemma MarkerIn(head: string, tail: string)
    ensures MarkerAt(head + SUFFIX + tail, |head|)
  {
    var s := head + SUFFIX + tail;
    assert s[|head|..|head| + |SUFFIX|] == SUFFIX;
  }

  lemma MarkerIsDot(s: string, j: int)
    ensures MarkerAt(s, j) ==> 0 <= j < |s| && s[j] == '.'
  {
    if MarkerAt(s, j) {
      assert s[j..j + |SUFFIX|][0] == SUFFIX[0];
    }
  }

  /** Every sidecar entry of a generation leads back to the generation's own name. */
  lemma RootRecovered(root: string, sidecar: string)
    requires HasSuffix(root, SUFFIX) && sidecar in Sidecars()
    ensures RootName(root + sidecar) == Some(root)
  {
    var k := |root| - |SUFFIX|;
    var entry := root + sidecar;
    assert root == root[..k] + SUFFIX;
    assert entry == root[..k] + SUFFIX + sidecar;
    MarkerIn(root[..k], sidecar);
    forall j | j > k
      ensures !MarkerAt(entry, j)
    {
      if j < |entry| {
        NoDotAfter(root, sidecar, j);
      }
      MarkerIsDot(entry, j);
    }
    assert LastMarker(entry) == k;
    assert entry[..k + |SUFFIX|] == root;
  }

  /** After the final marker of a generation name there is no other dot. */
  lemma NoDotAfter(root: string, sidecar: string, j: int)
    requires HasSuffix(root, SUFFIX) && sidecar in Sidecars() && |root| - |SUFFIX| < j < |root + sidecar|
    ensures (root + sidecar)[j] != '.'
  {
    var k := |root| - |SUFFIX|;
    if j < |root| {
      assert (root + sidecar)[j] == root[j] == root[k..][j - k] == SUFFIX[j - k];
    } else {
      assert (root + sidecar)[j] == sidecar[j - |root|];
    }
  }

  /** The root derived from any entry that the glob finds is a valid generation name. */
  lemma GlobbedRootIsValid(base: string, entry: string)
    requires Globbed(base, entry) && '/' !in entry
    ensures RootName(entry).Some? && ValidName(base, RootName(entry).value)
  {
    hide GenerationPrefix, LastMarker, MarkerAt, ValidName;
    var middle, rest :| GlobSplit(base, entry, middle, rest);
    var prefix, tail := GenerationPrefix(base), middle + SUFFIX + rest;
    assert entry == prefix + tail;
    MarkerIn(prefix + middle, rest);
    LastMarkerAfter(entry, |prefix + middle|);
    RootAt(base, tail, entry, LastMarker(entry));
  }

  lemma RootAt(base: string, tail: string, entry: string, marker: int)
    requires entry == GenerationPrefix(base) + tail && '/' !in entry && MarkerAt(entry, marker) && marker >= |GenerationPrefix(base)|
    ensures ValidName(base, entry[..marker + |SUFFIX|])
  {
    hide GenerationPrefix, ValidName, HasPrefix, HasSuffix;
    RootOf(GenerationPrefix(base), tail, entry, marker);
    PrefixIsLong(base);
    RootIsValid(base, entry[..marker + |SUFFIX|], entry);
  }

  lemma LastMarkerAfter(s: string, k: int)
    requires MarkerAt(s, k)
    ensures k <= LastMarker(s) <= |s| - |SUFFIX| && MarkerAt(s, LastMarker(s))
  {
    hide LastMarker;
    MarkerIsDot(s, k);
  }

  lemma RootIsValid(base: string, root: string, entry: string)
    requires HasPrefix(root, GenerationPrefix(base)) && HasSuffix(root, SUFFIX) && |GenerationPrefix(base)| > 2
    requires '/' !in entry && forall c :: c in root ==> c in entry
    ensures ValidName(base, root)
  {
    hide GenerationPrefix;
  }

  lemma PrefixIsLong(base: string)
    ensures |GenerationPrefix(base)| > 2
  {
  }

  lemma RootOf(prefix: string, tail: string, entry: string, marker: int)
    requires entry == prefix + tail && MarkerAt(entry, marker) && marker >= |prefix|
    ensures var root := entry[..marker + |SUFFIX|];
            HasPrefix(root, prefix) && HasSuffix(root, SUFFIX) && forall c :: c in root ==> c in entry
  {
    var root := entry[..marker + |SUFFIX|];
    assert root[..|prefix|] == prefix;
    assert root[|root| - |SUFFIX|..] == entry[marker..marker + |SUFFIX|];
  }

  /** A directory entry: a database or other plain file, a text file, or something that is not a file. */
  datatype Entry = Plain | Text(content: string) | NotAFile

  /** What the holder of the publication lock is in the middle of. */
  datatype Task =
    | Idle
    | Promoted(generation: string)
    | Writing(generation: string, temporary: string)
    | Written(generation: string, temporary: string)
    | Removing(pending: set<string>)

  /** `held` holds the databases that managers have opened, `loose` the names that their removals may still remove, once or
      several times. `last` is the generation published last and `published` every name that was ever a target, both kept to
      state the property. */
  datatype State = State(dir: map<string, Entry>, task: Task, last: Option<string>, published: set<string>, held: set<string>, loose: set<string>)

  datatype Resolution = Resolved(name: string) | Invalid

  /** Follows the pointer: the anchor if there is none, else the valid, existing file it names. */
  function Resolve(base: string, dir: map<string, Entry>): Resolution {
    if PointerName(base) !in dir then Resolved(base)
    else match dir[PointerName(base)]
      case Text(content) =>
        var name := TrimSpace(content);
        if !ValidName(base, name) || name !in dir || dir[name].NotAFile? then Invalid else Resolved(name)
      case _ => Invalid
  }

  function Family(root: string): set<string> {
    set sidecar | sidecar in Sidecars() :: root + sidecar
  }

  /** A database is four files. */
  lemma FamilyIs(root: string)
    ensures Family(root) == {root, root + "-wal", root + "-shm", root + "-journal"}
  {
    assert root + "" == root;
    forall name
      ensures name in Family(root) <==> name in {root, root + "-wal", root + "-shm", root + "-journal"}
    {
      assert "" in Sidecars() && "-wal" in Sidecars() && "-shm" in Sidecars() && "-journal" in Sidecars();
    }
  }

  /** The roots a sweep may choose from; which of them are old enough is up to the clock. */
  ghost function SweepRoots(base: string, dir: map<string, Entry>, current: string): set<string> {
    set entry | entry in dir && '/' !in entry && Globbed(base, entry) && RootName(entry).Some? && RootName(entry).value != current ::
      RootName(entry).value
  }

  ghost function Families(roots: set<string>): set<string> {
    set root, sidecar | root in roots && sidecar in Sidecars() :: root + sidecar
  }

  /** One file operation of the lock holder, its death, a step of a manager, or somebody writing a file that is neither pointer
      nor generation in use. */
  datatype Event =
    | Promote(number: int, token: string)
    | CreateTemporary(random: string)
    | WriteTemporary
    | RenameTemporary
    | GiveUp
    | Sweep(roots: set<string>)
    | Retire(name: string)
    | Remove(name: string)
    | SkipRemove(name: string)
    | Crash
    | Open
    | RetireOpened(name: string)
    | RemoveLoose(name: string)
    | Other(name: string, entry: Entry)

  /** Files of the operation under way, which nobody else writes. */
  predicate InUse(s: State, name: string) {
    match s.task
    case Promoted(g) => name == g
    case Writing(g, t) => name == g || name == t
    case Written(g, t) => name == g || name == t
    case _ => false
  }

  /** Promotes a staged database under a generated name that is still free. */
  function PromoteStep(base: string, s: State, name: string): Option<State> {
    if !s.task.Idle? || name in s.dir || Resolve(base, s.dir).Invalid? then None
    else Some(s.(dir := s.dir[name := Plain], task := Promoted(name)))
  }

  /** The rename moves whatever the temporary file holds over the pointer. */
  function RenameStep(base: string, s: State, g: string, t: string): Option<State> {
    if t !in s.dir then None
    else Some(s.(dir := (s.dir - {t})[PointerName(base) := s.dir[t]], task := Idle, last := Some(g), published := s.published + {g}))
  }

  ghost function SweepStep(base: string, s: State, roots: set<string>): Option<State> {
    var r := Resolve(base, s.dir);
    if s.task.Idle? && r.Resolved? && roots <= SweepRoots(base, s.dir, r.name)
    then Some(s.(task := Removing(Families(roots)))) else None
  }

  /** Retiring refuses the current target and every name that is neither the anchor nor a generation name. */
  predicate MayRetire(base: string, dir: map<string, Entry>, name: string) {
    var r := Resolve(base, dir);
    r.Resolved? && name != r.name && (name == base || ValidName(base, name))
  }

  function RetireStep(base: string, s: State, name: string): Option<State> {
    if !s.task.Idle? || !MayRetire(base, s.dir, name) then None
    else Some(s.(task := Removing(Family(name))))
  }

  /** A manager opens the published database. */
  function OpenStep(base: string, s: State): Option<State> {
    var r := Resolve(base, s.dir);
    if r.Invalid? then None else Some(s.(held := s.held + {r.name}))
  }

  /** A manager retires a database it has opened, whatever the holder of the lock is doing. */
  function RetireOpenedStep(base: string, s: State, name: string): Option<State> {
    if name !in s.held || !MayRetire(base, s.dir, name) then None
    else Some(s.(loose := s.loose + Family(name)))
  }

  ghost function Step(base: string, s: State, e: Event): Option<State> {
    match e
    case Promote(number, token) => if '/' in token then None else PromoteStep(base, s, GenerationName(base, number, token))
    case CreateTemporary(random) =>
      var t := TemporaryName(base, random);
      if !s.task.Promoted? || t in s.dir then None
      else Some(s.(dir := s.dir[t := Text("")], task := Writing(s.task.generation, t)))
    case WriteTemporary =>
      if !s.task.Writing? then None
      else Some(s.(dir := s.dir[s.task.temporary := Text(s.task.generation + "\n")], task := Written(s.task.generation, s.task.temporary)))
    case RenameTemporary => if !s.task.Written? then None else RenameStep(base, s, s.task.generation, s.task.temporary)
    case GiveUp => if s.task.Writing? || s.task.Written? then Some(s.(dir := s.dir - {s.task.temporary}, task := Idle)) else None
    case Sweep(roots) => SweepStep(base, s, roots)
    case Retire(name) => RetireStep(base, s, name)
    case Remove(name) =>
      if s.task.Removing? && name in s.task.pending
      then Some(s.(dir := s.dir - {name}, task := Removing(s.task.pending - {name}))) else None
    case SkipRemove(name) =>
      if s.task.Removing? && name in s.task.pending then Some(s.(task := Removing(s.task.pending - {name}))) else None
    case Crash => Some(s.(task := Idle))
    case Open => OpenStep(base, s)
    case RetireOpened(name) => RetireOpenedStep(base, s, name)
    case RemoveLoose(name) => if name in s.loose then Some(s.(dir := s.dir - {name})) else None
    case Other(name, entry) =>
      if name == PointerName(base) || s.last == Some(name) || InUse(s, name) then None
      else Some(s.(dir := s.dir[name := entry]))
  }

  ghost function Run(base: string, s: State, events: seq<Event>): Option<State>
    decreases |events|
  {
    if events == [] then Some(s)
    else match Step(base, s, events[0])
      case Some(t) => Run(base, t, events[1..])
      case None => None
  }

  /** A promotion takes a name under which nothing was ever published, which the random revision in it stands for. */
  predicate Fresh(base: string, s: State, e: Event) {
    e.Promote? ==> GenerationName(base, e.number, e.token) !in s.published
  }

  ghost predicate FreshRun(base: string, s: State, events: seq<Event>)
    decreases |events|
  {
    events == [] ||
    (Fresh(base, s, events[0]) &&
     (Step(base, s, events[0]).Some? ==> FreshRun(base, Step(base, s, events[0]).value, events[1..])))
  }

  /** The name that readers must be led to. */
  function Target(base: string, s: State): string {
    match s.last
    case None => base
    case Some(name) => name
  }

  ghost predicate PointerOk(base: string, s: State) {
    match s.last
    case None => PointerName(base) !in s.dir
    case Some(name) =>
      && ValidName(base, name) && name in s.dir && !s.dir[name].NotAFile?
      && PointerName(base) in s.dir && s.dir[PointerName(base)] == Text(name + "\n")
  }

  ghost predicate TaskOk(base: string, s: State) {
    match s.task
    case Idle => true
    case Promoted(g) => GenerationReady(base, s, g)
    case Writing(g, t) => GenerationReady(base, s, g) && IsTemporary(base, t) && t in s.dir
    case Written(g, t) => GenerationReady(base, s, g) && IsTemporary(base, t) && t in s.dir && s.dir[t] == Text(g + "\n")
    case Removing(pending) => forall name :: name in pending ==> name != Target(base, s) && name != PointerName(base)
  }

  ghost predicate GenerationReady(base: string, s: State, g: string) {
    ValidName(base, g) && g in s.dir && s.dir[g] == Plain && g !in s.published
  }

  ghost predicate IsTemporary(base: string, t: string) {
    exists random :: t == TemporaryName(base, random)
  }

  /** A name that belongs to a database published once and no longer the target. */
  ghost predicate Outdated(base: string, s: State, name: string) {
    exists root, sidecar :: root in s.published && root != Target(base, s) && sidecar in Sidecars() && name == root + sidecar
  }

  ghost predicate ManagersOk(base: string, s: State) {
    && Target(base, s) in s.published && s.held <= s.published
    && (forall name :: name in s.published ==> name == base || ValidName(base, name))
    && (forall name :: name in s.loose ==> Outdated(base, s, name))
  }

  ghost predicate Inv(base: string, s: State) {
    PointerOk(base, s) && TaskOk(base, s) && ManagersOk(base, s)
  }

  /** No lock-free removal touches the target, the pointer, or the files of a publication under way. */
  lemma LooseSpares(base: string, s: State, name: string)
    requires Inv(base, s) && Outdated(base, s, name)
    ensures name != Target(base, s) && name != PointerName(base) && !InUse(s, name)
  {
    var root, sidecar :| root in s.published && root != Target(base, s) && sidecar in Sidecars() && name == root + sidecar;
    SidecarsSpare(base, root, sidecar, Target(base, s));
    if s.task.Promoted? || s.task.Writing? || s.task.Written? {
      SidecarsSpare(base, root, sidecar, s.task.generation);
      if !s.task.Promoted? {
        TemporarySpared(base, root, sidecar, s.task.temporary);
      }
    }
  }

  lemma TemporarySpared(base: string, root: string, sidecar: string, t: string)
    requires sidecar in Sidecars() && (root == base || ValidName(base, root)) && IsTemporary(base, t)
    ensures root + sidecar != t
  {
    var random :| t == TemporaryName(base, random);
    assert |t| > |base + sidecar| && t[|base| + 2] == 'c';
    if root != base {
      PrefixIsLong(base);
      assert |root| >= |GenerationPrefix(base)| > |base| + 2;
      GenerationMark(base, root);
      assert (root + sidecar)[|base| + 2] == root[|base| + 2];
    }
  }

  /** Nothing that a sweep or a retirement of `root` removes is another generation, the anchor or the pointer. */
  lemma SidecarsSpare(base: string, root: string, sidecar: string, other: string)
    requires sidecar in Sidecars() && (root == base || ValidName(base, root))
    requires other == base || ValidName(base, other)
    requires root != other
    ensures root + sidecar != other && root + sidecar != PointerName(base)
  {
    var name := root + sidecar;
    assert PointerName(base)[|PointerName(base)| - 1] == 't';
    if sidecar == "" {
      assert name == root;
      if root != base {
        EndsInE(root);
      }
    } else {
      assert name[|name| - 1] == sidecar[|sidecar| - 1];
      assert name[|name| - 1] != 't' && name[|name| - 1] != 'e';
      if other != base {
        EndsInE(other);
      } else {
        assert |root| >= |GenerationPrefix(base)| > |base|;
      }
    }
  }

  lemma EndsInE(name: string)
    requires HasSuffix(name, SUFFIX)
    ensures name != "" && name[|name| - 1] == 'e'
  {
    assert name[|name| - |SUFFIX|..][|SUFFIX| - 1] == 'e';
  }

  /** A temporary pointer file is neither the pointer nor a generation. */
  lemma TemporaryIsApart(base: string, t: string)
    requires IsTemporary(base, t)
    ensures t != PointerName(base) && !ValidName(base, t)
  {
    var random :| t == TemporaryName(base, random);
    assert |t| > |PointerName(base)|;
    assert t[|base| + 2] == 'c';
    GenerationMark(base, t);
  }

  lemma GenerationMark(base: string, name: string)
    requires |name| > |base| + 2
    ensures ValidName(base, name) ==> name[|base| + 2] == 'g'
  {
    if ValidName(base, name) {
      assert name[..|GenerationPrefix(base)|][|base| + 2] == 'g';
    }
  }

  /** The line written to the pointer is read back as the name. */
  lemma PointerRoundTrip(base: string, name: string)
    requires ValidName(base, name)
    ensures TrimSpace(name + "\n") == name
  {
    EndsInE(name);
    assert name[0] == GenerationPrefix(base)[0] == '.';
    var line := name + "\n";
    assert line[0] == '.' && line[..|line| - 1] == name;
    TrimmedStays(name);
    assert TrimLeft(name) == name;
    assert TrimRight(line) == TrimRight(name);
  }

  /** Readers are led to the generation published last, or to the anchor if there is none. */
  lemma ResolvesToTarget(base: string, s: State)
    requires PointerOk(base, s)
    ensures Resolve(base, s.dir) == Resolved(Target(base, s))
  {
    if s.last.Some? {
      PointerRoundTrip(base, s.last.value);
    }
  }

  lemma SweepKeeps(base: string, s: State, roots: set<string>)
    requires Inv(base, s) && SweepStep(base, s, roots).Some?
    ensures Inv(base, SweepStep(base, s, roots).value)
  {
    ResolvesToTarget(base, s);
    forall name | name in Families(roots)
      ensures name != Target(base, s) && name != PointerName(base)
    {
      var root, sidecar :| root in roots && sidecar in Sidecars() && name == root + sidecar;
      assert root in SweepRoots(base, s.dir, Target(base, s));
      var entry :| entry in s.dir && '/' !in entry && Globbed(base, entry) && RootName(entry) == Some(root);
      GlobbedRootIsValid(base, entry);
      SidecarsSpare(base, root, sidecar, Target(base, s));
    }
  }

  lemma RetireKeeps(base: string, s: State, root: string)
    requires Inv(base, s) && RetireStep(base, s, root).Some?
    ensures Inv(base, RetireStep(base, s, root).value)
  {
    ResolvesToTarget(base, s);
    forall name | name in Family(root)
      ensures name != Target(base, s) && name != PointerName(base)
    {
      var sidecar :| sidecar in Sidecars() && name == root + sidecar;
      SidecarsSpare(base, root, sidecar, Target(base, s));
    }
  }

  lemma OpenKeeps(base: string, s: State)
    requires Inv(base, s) && OpenStep(base, s).Some?
    ensures Inv(base, OpenStep(base, s).value)
  {
    hide ValidName, IsTemporary;
    ResolvesToTarget(base, s);
    SameOutdated(base, s, OpenStep(base, s).value);
  }

  lemma SameOutdated(base: string, s: State, t: State)
    requires s.published <= t.published && Target(base, t) == Target(base, s)
    ensures forall name :: Outdated(base, s, name) ==> Outdated(base, t, name)
  {
  }

  lemma RetireOpenedKeeps(base: string, s: State, name: string)
    requires Inv(base, s) && RetireOpenedStep(base, s, name).Some?
    ensures Inv(base, RetireOpenedStep(base, s, name).value)
  {
    hide ValidName, IsTemporary;
    ResolvesToTarget(base, s);
    var t := RetireOpenedStep(base, s, name).value;
    SameOutdated(base, s, t);
    forall x | x in Family(name)
      ensures Outdated(base, t, x)
    {
      var sidecar :| sidecar in Sidecars() && x == name + sidecar;
    }
  }

  lemma RemoveLooseKeeps(base: string, s: State, name: string)
    requires Inv(base, s) && name in s.loose
    ensures Inv(base, s.(dir := s.dir - {name}))
  {
    hide ValidName, IsTemporary;
    LooseSpares(base, s, name);
    SameOutdated(base, s, s.(dir := s.dir - {name}));
  }

  /** The rename makes the old target an outdated name and brings in a target that was never published. */
  lemma RenameKeeps(base: string, s: State)
    requires Inv(base, s) && s.task.Written?
    ensures var r := RenameStep(base, s, s.task.generation, s.task.temporary); r.Some? && Inv(base, r.value)
  {
    hide ValidName, PointerName, IsTemporary;
    var g := s.task.generation;
    TemporaryIsApart(base, s.task.temporary);
    var t := RenameStep(base, s, g, s.task.temporary).value;
    forall name | name in t.loose
      ensures Outdated(base, t, name)
    {
      var root, sidecar :| root in s.published && root != Target(base, s) && sidecar in Sidecars() && name == root + sidecar;
      assert root in t.published && root != g;
    }
    GenerationIsNotPointer(base, g);
  }

  lemma GenerationIsNotPointer(base: string, g: string)
    requires ValidName(base, g)
    ensures g != PointerName(base)
  {
    EndsInE(g);
    assert PointerName(base)[|PointerName(base)| - 1] == 't';
  }

  /** Every file operation, and a death between any two, leaves readers with the generation published last. */
  lemma StepKeeps(base: string, s: State, e: Event)
    requires '/' !in base && Inv(base, s) && Fresh(base, s, e) && Step(base, s, e).Some?
    ensures Inv(base, Step(base, s, e).value)
  {
    hide ValidName, PointerName, TemporaryName, GenerationName, IsTemporary, Families, Family, Sidecars;
    match e
    case Promote(number, token) => PromoteKeeps(base, s, number, token);
    case CreateTemporary(random) => CreateKeeps(base, s, random);
    case WriteTemporary => TemporaryIsApart(base, s.task.temporary);
    case RenameTemporary => RenameKeeps(base, s);
    case GiveUp => TemporaryIsApart(base, s.task.temporary);
    case Sweep(roots) => SweepKeeps(base, s, roots);
    case Retire(name) => RetireKeeps(base, s, name);
    case Remove(name) =>
    case SkipRemove(name) =>
    case Crash =>
    case Open => OpenKeeps(base, s);
    case RetireOpened(name) => RetireOpenedKeeps(base, s, name);
    case RemoveLoose(name) => RemoveLooseKeeps(base, s, name);
    case Other(name, entry) =>
  }

  lemma PromoteKeeps(base: string, s: State, number: int, token: string)
    requires '/' !in base && '/' !in token && Inv(base, s) && PromoteStep(base, s, GenerationName(base, number, token)).Some?
    requires GenerationName(base, number, token) !in s.published
    ensures Inv(base, PromoteStep(base, s, GenerationName(base, number, token)).value)
  {
    GeneratedNameIsValid(base, number, token);
    var name := GenerationName(base, number, token);
    GenerationIsNotPointer(base, name);
  }

  lemma CreateKeeps(base: string, s: State, random: string)
    requires Inv(base, s) && s.task.Promoted? && TemporaryName(base, random) !in s.dir
    ensures var t := TemporaryName(base, random);
            Inv(base, s.(dir := s.dir[t := Text("")], task := Writing(s.task.generation, t)))
  {
    assert IsTemporary(base, TemporaryName(base, random));
    TemporaryIsApart(base, TemporaryName(base, random));
  }

  lemma {:induction false} RunKeeps(base: string, s: State, events: seq<Event>)
    requires '/' !in base && Inv(base, s) && FreshRun(base, s, events) && Run(base, s, events).Some?
    ensures Inv(base, Run(base, s, events).value)
    decreases |events|
  {
    if events != [] {
      StepKeeps(base, s, events[0]);
      RunKeeps(base, Step(base, s, events[0]).value, events[1..]);
    }
  }

  /** A directory without a pointer, and no manager yet. */
  function Unpublished(base: string, dir: map<string, Entry>): State {
    State(dir, Idle, None, {base}, {}, {})
  }

  /** Over every run that starts without a pointer, the pointer resolves to the generation published last, which exists; no
      file removed on the way, with or without the lock, is the target of that moment. */
  lemma EveryRunResolves(base: string, dir: map<string, Entry>, events: seq<Event>)
    requires '/' !in base && PointerName(base) !in dir
    requires FreshRun(base, Unpublished(base, dir), events) && Run(base, Unpublished(base, dir), events).Some?
    ensures var s := Run(base, Unpublished(base, dir), events).value;
            && Resolve(base, s.dir) == Resolved(Target(base, s))
            && (s.last.Some? ==> s.last.value in s.dir && !s.dir[s.last.value].NotAFile?)
            && (forall name :: Step(base, s, Remove(name)).Some? ==> name != Target(base, s) && name != PointerName(base))
            && forall name :: Step(base, s, RemoveLoose(name)).Some? ==> name != Target(base, s) && name != PointerName(base) && !InUse(s, name)
  {
    var start := Unpublished(base, dir);
    RunKeeps(base, start, events);
    var s := Run(base, start, events).value;
    ResolvesToTarget(base, s);
    forall name | name in s.loose
      ensures name != Target(base, s) && name != PointerName(base) && !InUse(s, name)
    {
      LooseSpares(base, s, name);
    }
  }

  /** In every state in order a publication that is not interrupted succeeds, under any free name, and readers are led to it. */
  lemma PublicationSucceeds(base: string, s: State, number: int, token: string, random: string)
    requires '/' !in base && '/' !in token && Inv(base, s) && s.task.Idle?
    requires GenerationName(base, number, token) !in s.dir && TemporaryName(base, random) !in s.dir && Fresh(base, s, Promote(number, token))
    ensures var t := Run(base, s, [Promote(number, token), CreateTemporary(random), WriteTemporary, RenameTemporary]);
            t.Some? && Resolve(base, t.value.dir) == Resolved(GenerationName(base, number, token)) && t.value.task.Idle?
            && TemporaryName(base, random) !in t.value.dir
  {
    hide ValidName, PointerName, TemporaryName, GenerationName, ManagersOk, IsTemporary;
    var four := PublishedState(base, s, number, token, random);
    PointerRoundTrip(base, GenerationName(base, number, token));
  }

  lemma PublishedState(base: string, s: State, number: int, token: string, random: string) returns (four: State)
    requires '/' !in base && '/' !in token && Inv(base, s) && s.task.Idle?
    requires GenerationName(base, number, token) !in s.dir && TemporaryName(base, random) !in s.dir
    ensures var g, temporary := GenerationName(base, number, token), TemporaryName(base, random);
            && Run(base, s, [Promote(number, token), CreateTemporary(random), WriteTemporary, RenameTemporary]) == Some(four)
            && ValidName(base, g) && g != PointerName(base) && temporary != PointerName(base) && four.task == Idle && four.loose == s.loose
            && four.dir == s.dir[g := Plain][PointerName(base) := Text(g + "\n")]
  {
    hide ValidName, PointerName, TemporaryName, GenerationName, ManagersOk, IsTemporary;
    var g, temporary := GenerationName(base, number, token), TemporaryName(base, random);
    GeneratedNameIsValid(base, number, token);
    GenerationIsNotPointer(base, g);
    IsTemporaryName(base, random);
    TemporaryIsApart(base, temporary);
    ResolvesToTarget(base, s);
    var one := s.(dir := s.dir[g := Plain], task := Promoted(g));
    var two := one.(dir := one.dir[temporary := Text("")], task := Writing(g, temporary));
    var three := two.(dir := two.dir[temporary := Text(g + "\n")], task := Written(g, temporary));
    four := RenameStep(base, three, g, temporary).value;
    RunThrough(base, [s, one, two, three, four], [Promote(number, token), CreateTemporary(random), WriteTemporary, RenameTemporary]);
  }

  /** When a retirement may begin, with the lock and without, and what it is to remove: the four files of a database that is not
      the target. */
  lemma RetirementIff(base: string, s: State, name: string)
    requires Inv(base, s)
    ensures var four := {name, name + "-wal", name + "-shm", name + "-journal"};
            && (Step(base, s, Retire(name)) == if s.task.Idle? && name != Target(base, s) && (name == base || ValidName(base, name))
                                                then Some(s.(task := Removing(four))) else None)
            && (Step(base, s, RetireOpened(name)) == if name in s.held && name != Target(base, s) && (name == base || ValidName(base, name))
                                                      then Some(s.(loose := s.loose + four)) else None)
    ensures Step(base, s, Open) == Some(s.(held := s.held + {Target(base, s)}))
  {
    hide ValidName, Family, Sidecars;
    ResolvesToTarget(base, s);
    FamilyIs(name);
  }

  /** Were a name published a second time while a removal of it is still pending, readers would lose their database. */
  lemma ReusedNameLoses(base: string, s: State, number: int, token: string, random: string)
    requires '/' !in base && '/' !in token && Inv(base, s) && s.task.Idle?
    requires GenerationName(base, number, token) in s.loose - s.dir.Keys && TemporaryName(base, random) !in s.dir
    ensures var g := GenerationName(base, number, token);
            var t := Run(base, s, [Promote(number, token), CreateTemporary(random), WriteTemporary, RenameTemporary]);
            t.Some? && Step(base, t.value, RemoveLoose(g)).Some? && Resolve(base, Step(base, t.value, RemoveLoose(g)).value.dir).Invalid?
  {
    hide ValidName, PointerName, TemporaryName, GenerationName, ManagersOk, IsTemporary;
    var g := GenerationName(base, number, token);
    var four := PublishedState(base, s, number, token, random);
    PointsNowhere(base, four.dir - {g}, g);
  }

  lemma IsTemporaryName(base: string, random: string)
    ensures IsTemporary(base, TemporaryName(base, random))
  {
  }

  lemma PointsNowhere(base: string, dir: map<string, Entry>, g: string)
    requires ValidName(base, g) && g !in dir && PointerName(base) in dir && dir[PointerName(base)] == Text(g + "\n")
    ensures Resolve(base, dir).Invalid?
  {
    PointerRoundTrip(base, g);
  }

  lemma {:induction false} RunThrough(base: string, states: seq<State>, events: seq<Event>)
    requires |states| == |events| + 1 && Leads(base, states, events)
    ensures Run(base, states[0], events) == Some(states[|events|])
    decreases |events|
  {
    hide Step;
    if events != [] {
      assert Step(base, states[0], events[0]) == Some(states[0 + 1]);
      assert Leads(base, states[1..], events[1..]) by {
        assert forall i {:trigger events[1..][i]} :: 0 <= i < |events| - 1 ==> Step(base, states[i + 1], events[i + 1]) == Some(states[(i + 1) + 1]);
      }
      RunThrough(base, states[1..], events[1..]);
    }
  }

  ghost predicate Leads(base: string, states: seq<State>, events: seq<Event>)
    requires |states| == |events| + 1
  {
    forall i {:trigger events[i]} :: 0 <= i < |events| ==> Step(base, states[i], events[i]) == Some(states[i + 1])
  }

  /** A publication that is not interrupted makes its generation the target; one that is leaves the old target. */
  lemma PublicationIsTheRename(base: string, s: State, e: Event)
    requires '/' !in base && Inv(base, s) && Fresh(base, s, e) && Step(base, s, e).Some?
    ensures var t := Step(base, s, e).value;
            if e.RenameTemporary? then Resolve(base, t.dir) == Resolved(s.task.generation)
            else Resolve(base, t.dir) == Resolve(base, s.dir)
  {
    StepTarget(base, s, e);
    StepKeeps(base, s, e);
    hide Step, Inv, Resolve;
    ResolvesToTarget(base, s);
    ResolvesToTarget(base, Step(base, s, e).value);
  }

  lemma StepTarget(base: string, s: State, e: Event)
    requires Step(base, s, e).Some?
    ensures Target(base, Step(base, s, e).value) == if e.RenameTemporary? then s.task.generation else Target(base, s)
  {
    hide Resolve, Families, Family, SweepRoots, GenerationName, TemporaryName, ValidName;
  }
}
