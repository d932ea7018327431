/** Inheritance of coats of arms: the walk up the parents and the fold back down. */
module CoatOfArms {
  import opened Text

  const MAX_INHERITANCE_DEPTH: nat := 16

  datatype Color = Color(named: bool, name: string, hex: string)

  datatype Emblem = Emblem(texture: string, colors: seq<Color>, setColor: seq<bool>)

  datatype Warning =
    | NothingToDraw
    | FilledWithColor1
    | EmblemWithoutTexture
    | UnresolvedColors(names: set<string>)
    | TooDeep
    | Circular(parent: string)
    | NotDefined(parent: string)

  datatype Definition = Definition(id: string, pattern: string, colors: seq<Color>, setColor: seq<bool>, emblems: seq<Emblem>,
                                   parent: string, inherited: seq<string>, warnings: seq<Warning>)

  /** What the index and the file say about one id. */
  datatype Lookup = Missing | Failed | Withheld | Found(definition: Definition)

  /** Ids are looked up without regard to case. */
  type World = map<string, Lookup>

  predicate EmblemShaped(e: Emblem) {
    |e.colors| == 3 && |e.setColor| == 3
  }

  predicate Shaped(d: Definition) {
    |d.colors| == 3 && |d.setColor| == 3 && forall e :: e in d.emblems ==> EmblemShaped(e)
  }

  function Folding(id: string): string {
    ToLower(TrimSpace(id))
  }

  function Find(world: World, id: string): Lookup {
    if ToLower(id) in world then world[ToLower(id)] else Missing
  }

  /** Every definition is stored under its own id, as parsed: nothing inherited yet. */
  ghost predicate WellRead(world: World) {
    forall key {:trigger world[key]} :: key in world && world[key].Found? ==>
      Folding(world[key].definition.id) == key && Shaped(world[key].definition) && world[key].definition.inherited == []
  }

  function UnresolvedIn(colors: seq<Color>): set<string> {
    set c | c in colors && c.named && c.hex == "" && c.name != "" :: c.name
  }

  function Unresolved(d: Definition): set<string> {
    UnresolvedIn(d.colors) + set e, n | e in d.emblems && n in UnresolvedIn(e.colors) :: n
  }

  function DefinitionWarnings(d: Definition): seq<Warning> {
    (if d.pattern == "" && d.parent == "" then [NothingToDraw] else []) +
    (if d.pattern == "" && d.parent != "" && d.inherited != [] then [FilledWithColor1] else []) +
    (if exists e :: e in d.emblems && e.texture == "" then [EmblemWithoutTexture] else []) +
    (if Unresolved(d) != {} then [UnresolvedColors(Unresolved(d))] else [])
  }

  /** A colour given by a name that no palette resolves. */
  ghost predicate Dangling(d: Definition, n: string) {
    n != "" && exists c :: InUse(d, c) && c.named && c.hex == "" && c.name == n
  }

  ghost predicate InUse(d: Definition, c: Color) {
    c in d.colors || exists e :: e in d.emblems && c in e.colors
  }

  lemma UnresolvedIff(d: Definition, n: string)
    ensures n in Unresolved(d) <==> Dangling(d, n)
  {
    if n in Unresolved(d) {
      if n in UnresolvedIn(d.colors) {
        var c :| c in d.colors && c.named && c.hex == "" && c.name != "" && c.name == n;
        assert InUse(d, c);
      } else {
        var e :| e in d.emblems && n in UnresolvedIn(e.colors);
        var c :| c in e.colors && c.named && c.hex == "" && c.name != "" && c.name == n;
        assert InUse(d, c);
      }
    }
    if Dangling(d, n) {
      var c :| InUse(d, c) && c.named && c.hex == "" && c.name == n;
      if c !in d.colors {
        var e :| e in d.emblems && c in e.colors;
        assert n in UnresolvedIn(e.colors);
      }
    }
  }

  /** When a definition warns, and of what. */
  lemma WarningsTell(d: Definition, w: Warning)
    ensures w in DefinitionWarnings(d) <==>
            || (w == NothingToDraw && d.pattern == "" && d.parent == "")
            || (w == FilledWithColor1 && d.pattern == "" && d.parent != "" && d.inherited != [])
            || (w == EmblemWithoutTexture && exists e :: e in d.emblems && e.texture == "")
            || (w.UnresolvedColors? && w.names != {} && forall n :: n in w.names <==> Dangling(d, n))
  {
    hide Dangling, Unresolved;
    forall n
      ensures n in Unresolved(d) <==> Dangling(d, n)
    {
      UnresolvedIff(d, n);
    }
    if w.UnresolvedColors? && forall n :: n in w.names <==> Dangling(d, n) {
      assert w.names == Unresolved(d);
    }
  }

  /** The colour slots of a definition over those of its parent. */
  function Slot<T>(own: seq<T>, ownSet: seq<bool>, above: seq<T>): (r: seq<T>)
    requires |own| == |ownSet| == |above| == 3
    ensures |r| == 3
  {
    [if ownSet[0] then own[0] else above[0], if ownSet[1] then own[1] else above[1], if ownSet[2] then own[2] else above[2]]
  }

  function Drawn(d: Definition, parent: Definition): (r: Definition)
    requires Shaped(d) && Shaped(parent)
    ensures Shaped(r)
  {
    d.(pattern := if d.pattern == "" then parent.pattern else d.pattern,
       colors := Slot(d.colors, d.setColor, parent.colors),
       setColor := Slot(d.setColor, d.setColor, parent.setColor),
       emblems := parent.emblems + d.emblems,
       inherited := [parent.id] + parent.inherited)
  }

  function Inherit(d: Definition, parent: Definition): (r: Definition)
    requires Shaped(d) && Shaped(parent)
    ensures Shaped(r)
  {
    Drawn(d, parent).(warnings := DefinitionWarnings(Drawn(d, parent)))
  }

  method InheritFrom(d: Definition, parent: Definition) returns (out: Definition)
    requires Shaped(d) && Shaped(parent)
    ensures out == Inherit(d, parent)
  {
    hide DefinitionWarnings;
    out := d;
    if out.pattern == "" {
      out := out.(pattern := parent.pattern);
    }
    for slot := 0 to 3
      invariant Shaped(out) && out == d.(pattern := Drawn(d, parent).pattern, colors := out.colors, setColor := out.setColor)
      invariant forall i :: 0 <= i < slot ==> out.colors[i] == Drawn(d, parent).colors[i] && out.setColor[i] == Drawn(d, parent).setColor[i]
      invariant forall i :: slot <= i < 3 ==> out.colors[i] == d.colors[i] && out.setColor[i] == d.setColor[i]
    {
      if !out.setColor[slot] {
        out := out.(colors := out.colors[slot := parent.colors[slot]], setColor := out.setColor[slot := parent.setColor[slot]]);
      }
    }
    assert out.colors == Drawn(d, parent).colors && out.setColor == Drawn(d, parent).setColor;
    if parent.emblems != [] {
      out := out.(emblems := parent.emblems + out.emblems);
    }
    out := out.(inherited := [parent.id] + parent.inherited);
    assert out == Drawn(d, parent);
    out := out.(warnings := DefinitionWarnings(out));
  }

  ghost predicate AllShaped(chain: seq<Definition>) {
    forall i :: 0 <= i < |chain| ==> Shaped(chain[i])
  }

  /** The design of a chain that lists the definition first and its furthest ancestor last. */
  ghost function Folded(chain: seq<Definition>): (r: Definition)
    requires chain != [] && AllShaped(chain)
    ensures Shaped(r)
  {
    if |chain| == 1 then chain[0] else Inherit(chain[0], Folded(chain[1..]))
  }

  ghost predicate LinkAt(world: World, chain: seq<Definition>, i: nat)
    requires i + 1 < |chain|
  {
    TrimSpace(chain[i].parent) != "" && Find(world, TrimSpace(chain[i].parent)) == Found(chain[i + 1])
  }

  /** Each ancestor is what the world holds for the parent its child names. */
  ghost predicate Linked(world: World, chain: seq<Definition>) {
    forall i: nat :: i + 1 < |chain| ==> LinkAt(world, chain, i)
  }

  /** No two of them go by one id. */
  ghost predicate DistinctIds(chain: seq<Definition>) {
    forall i, j :: 0 <= i < j < |chain| ==> Folding(chain[i].id) != Folding(chain[j].id)
  }

  ghost function Ids(chain: seq<Definition>): set<string> {
    set d | d in chain :: Folding(d.id)
  }

  datatype Stop = Complete | DepthReached | Cut(parent: string) | Absent(parent: string) | Private(parent: string) | Error

  /** Why the walk ends at the last definition of the chain. */
  ghost predicate StopsFor(world: World, chain: seq<Definition>, stop: Stop)
    requires chain != []
  {
    var parent := TrimSpace(chain[|chain| - 1].parent);
    if parent == "" then stop == Complete
    else if |chain| > 16 then stop == DepthReached
    else if ToLower(parent) in Ids(chain) then stop == Cut(parent)
    else
      match Find(world, parent)
      case Missing => stop == Absent(parent)
      case Failed => stop == Error
      case Withheld => stop == Private(parent)
      case Found(_) => false
  }

  /** The chain was walked from its first definition and stops for this reason. */
  ghost predicate Walked(world: World, chain: seq<Definition>, stop: Stop) {
    chain != [] && |chain| <= 17 && Linked(world, chain) && DistinctIds(chain) && StopsFor(world, chain, stop)
  }

  /** The loop: one ancestor a turn, until there is no parent, or a warning, an error or a withheld parent ends it. */
  method WalkParents(world: World, definition: Definition) returns (ancestors: seq<Definition>, stop: Stop)
    requires WellRead(world)
    ensures Walked(world, [definition] + ancestors, stop)
    ensures Shaped(definition) ==> AllShaped([definition] + ancestors)
  {
    hide ToLower, TrimSpace, Shaped;
    var visited := {Folding(definition.id)};
    var current := definition;
    ancestors := [];
    var depth := 0;
    assert Ids([definition]) == visited;
    while TrimSpace(current.parent) != ""
      invariant depth == |ancestors| <= MAX_INHERITANCE_DEPTH
      invariant current == ([definition] + ancestors)[|ancestors|]
      invariant visited == Ids([definition] + ancestors)
      invariant Linked(world, [definition] + ancestors) && DistinctIds([definition] + ancestors)
      invariant Shaped(definition) ==> AllShaped([definition] + ancestors)
      decreases MAX_INHERITANCE_DEPTH - depth
    {
      hide Linked, DistinctIds, Ids, AllShaped, WellRead;
      var parentID := TrimSpace(current.parent);
      if depth >= MAX_INHERITANCE_DEPTH {
        return ancestors, DepthReached;
      }
      if ToLower(parentID) in visited {
        return ancestors, Cut(parentID);
      }
      match Find(world, parentID)
      case Missing => return ancestors, Absent(parentID);
      case Failed => return ancestors, Error;
      case Withheld => return ancestors, Private(parentID);
      case Found(parent) =>
        ClimbOne(world, [definition] + ancestors, parent);
        assert [definition] + (ancestors + [parent]) == [definition] + ancestors + [parent];
        visited := visited + {ToLower(parentID)};
        ancestors := ancestors + [parent];
        current := parent;
        depth := depth + 1;
    }
    stop := Complete;
  }

  /** One more ancestor, under an id not met before. */
  lemma ClimbOne(world: World, chain: seq<Definition>, parent: Definition)
    requires WellRead(world) && chain != [] && Linked(world, chain) && DistinctIds(chain)
    requires TrimSpace(chain[|chain| - 1].parent) != ""
    requires Find(world, TrimSpace(chain[|chain| - 1].parent)) == Found(parent)
    requires ToLower(TrimSpace(chain[|chain| - 1].parent)) !in Ids(chain)
    ensures Linked(world, chain + [parent]) && DistinctIds(chain + [parent])
    ensures Ids(chain + [parent]) == Ids(chain) + {ToLower(TrimSpace(chain[|chain| - 1].parent))}
    ensures AllShaped(chain) ==> AllShaped(chain + [parent])
  {
    hide ToLower, TrimSpace, Shaped;
    var more, key := chain + [parent], ToLower(TrimSpace(chain[|chain| - 1].parent));
    assert Folding(parent.id) == key;
    forall i: nat | i + 1 < |more|
      ensures LinkAt(world, more, i)
    {
      if i + 1 < |chain| {
        assert LinkAt(world, chain, i);
      }
    }
    forall k | k in Ids(chain) + {key}
      ensures k in Ids(more)
    {
      if k == key {
        assert more[|chain|] in more;
      } else {
        var d :| d in chain && Folding(d.id) == k;
        assert d in more;
      }
    }
    forall i, j | 0 <= i < j < |more|
      ensures Folding(more[i].id) != Folding(more[j].id)
    {
      if j == |chain| {
        assert chain[i] in chain;
        assert Folding(chain[i].id) in Ids(chain);
      }
    }
  }

  datatype Resolution = Resolution(definition: Definition, privateParent: string, failed: bool)

  function StopWarnings(stop: Stop): seq<Warning> {
    match stop
    case DepthReached => [TooDeep]
    case Cut(parent) => [Circular(parent)]
    case Absent(parent) => [NotDefined(parent)]
    case _ => []
  }

  /** Only a walk cut short is told of, and by what it was cut: no warning comes with a chain that ended. */
  lemma StopWarningsTell(stop: Stop, w: Warning)
    ensures w in StopWarnings(stop) <==>
            || (w == TooDeep && stop == DepthReached)
            || (w.Circular? && stop == Cut(w.parent))
            || (w.NotDefined? && stop == Absent(w.parent))
  {
  }

  function AppendWarnings(d: Definition, warnings: seq<Warning>): Definition {
    d.(warnings := d.warnings + warnings)
  }

  /** The resolved definition: untouched when a parent is withheld or unreadable, else the fold with the warnings of the walk. */
  ghost predicate Resolved(world: World, definition: Definition, ancestors: seq<Definition>, stop: Stop, r: Resolution)
    requires AllShaped([definition] + ancestors)
  {
    && Walked(world, [definition] + ancestors, stop)
    && r.failed == stop.Error?
    && r.privateParent == (if stop.Private? then stop.parent else "")
    && r.definition == if stop.Private? || stop.Error? then definition
                       else AppendWarnings(Folded([definition] + ancestors), StopWarnings(stop))
  }

  method ResolveCoatOfArmsParents(world: World, definition: Definition)
    returns (r: Resolution)
    requires WellRead(world) && Shaped(definition)
    ensures exists ancestors, stop :: AllShaped([definition] + ancestors) && Resolved(world, definition, ancestors, stop, r)
  {
    hide Shaped, Inherit, Walked, TrimSpace, WellRead;
    var above, why := WalkParents(world, definition);
    if why.Error? {
      r := Resolution(definition, "", true);
      assert Resolved(world, definition, above, why, r);
      return;
    }
    if why.Private? {
      r := Resolution(definition, why.parent, false);
      assert Resolved(world, definition, above, why, r);
      return;
    }
    var resolved := definition;
    if |above| > 0 {
      assert above == ([definition] + above)[1..];
      var i := |above| - 1;
      var folded := above[i];
      assert above[i..] == [above[i]];
      assert forall k :: 0 <= k < |above| ==> above[k] == ([definition] + above)[k + 1];
      while i > 0
        invariant 0 <= i < |above| && AllShaped(above[i..]) && AllShaped(above)
        invariant folded == Folded(above[i..])
      {
        i := i - 1;
        assert above[i..][1..] == above[i + 1..];
        folded := InheritFrom(above[i], folded);
      }
      assert above[0..] == above;
      resolved := InheritFrom(definition, folded);
    } else {
      assert [definition] + above == [definition];
    }
    r := Resolution(AppendWarnings(resolved, StopWarnings(why)), "", false);
    assert Resolved(world, definition, above, why, r);
  }

  // The walk.

  lemma SamePrefix(world: World, a: seq<Definition>, b: seq<Definition>, k: nat)
    requires Linked(world, a) && Linked(world, b) && k < |a| && k < |b| && a[0] == b[0]
    ensures a[k] == b[k]
  {
    hide TrimSpace, ToLower;
    if k > 0 {
      SamePrefix(world, a, b, k - 1);
      assert LinkAt(world, a, k - 1);
      assert LinkAt(world, b, k - 1);
    }
  }

  lemma NoLonger(world: World, a: seq<Definition>, b: seq<Definition>, stop: Stop)
    requires WellRead(world) && Walked(world, a, stop) && b != [] && |b| <= MAX_INHERITANCE_DEPTH + 1
    requires Linked(world, b) && DistinctIds(b) && a[0] == b[0]
    ensures |b| <= |a|
  {
    hide TrimSpace, ToLower, Shaped;
    if |a| < |b| {
      var k := |a| - 1;
      SamePrefix(world, a, b, k);
      assert LinkAt(world, b, k);
      assert Folding(b[k + 1].id) == ToLower(TrimSpace(b[k].parent));
      if ToLower(TrimSpace(a[k].parent)) in Ids(a) {
        var d :| d in a && Folding(d.id) == ToLower(TrimSpace(a[k].parent));
        var j :| 0 <= j < |a| && a[j] == d;
        SamePrefix(world, a, b, j);
      }
      assert false;
    }
  }

  /** The walk has one outcome. */
  lemma WalkedUnique(world: World, a: seq<Definition>, b: seq<Definition>, stopA: Stop, stopB: Stop)
    requires WellRead(world) && Walked(world, a, stopA) && Walked(world, b, stopB) && a[0] == b[0]
    ensures a == b && stopA == stopB
  {
    hide TrimSpace, ToLower, Linked, DistinctIds, Shaped;
    NoLonger(world, a, b, stopA);
    NoLonger(world, b, a, stopB);
    forall k | 0 <= k < |a|
      ensures a[k] == b[k]
    {
      SamePrefix(world, a, b, k);
    }
  }

  /** A chain of parents that ends in a definition without one. */
  ghost predicate FullChain(world: World, chain: seq<Definition>) {
    chain != [] && Linked(world, chain) && TrimSpace(chain[|chain| - 1].parent) == ""
  }

  /** The definition was itself read from the world. */
  ghost predicate ReadFrom(world: World, d: Definition) {
    Folding(d.id) in world && world[Folding(d.id)] == Found(d)
  }

  lemma FoundRead(world: World, id: string, d: Definition)
    requires WellRead(world) && Find(world, id) == Found(d)
    ensures ReadFrom(world, d) && Folding(d.id) == ToLower(id) && d.inherited == []
  {
    hide TrimSpace, ToLower, Shaped;
  }

  lemma LinkedRead(world: World, chain: seq<Definition>, k: nat)
    requires WellRead(world) && Linked(world, chain) && k < |chain| && ReadFrom(world, chain[0])
    ensures ReadFrom(world, chain[k])
    ensures k > 0 ==> Folding(chain[k].id) == ToLower(TrimSpace(chain[k - 1].parent))
  {
    hide TrimSpace, ToLower, WellRead, ReadFrom, Find, Folding;
    if k > 0 {
      assert LinkAt(world, chain, k - 1);
      FoundRead(world, TrimSpace(chain[k - 1].parent), chain[k]);
    }
  }

  /** A chain that returns to an id goes on as it did from there, so one that ends never returns. */
  lemma FullChainDistinct(world: World, chain: seq<Definition>, i: nat, j: nat)
    requires WellRead(world) && FullChain(world, chain) && ReadFrom(world, chain[0]) && i < j < |chain|
    ensures Folding(chain[i].id) != Folding(chain[j].id)
  {
    hide TrimSpace, ToLower, WellRead, Find, Folding, Linked;
    if Folding(chain[i].id) == Folding(chain[j].id) {
      var n := |chain| - 1 - j;
      LinkedRead(world, chain, i);
      LinkedRead(world, chain, j);
      LinkedSuffix(world, chain, i);
      LinkedSuffix(world, chain, j);
      SamePrefix(world, chain[i..], chain[j..], n);
      ParentNamed(world, chain, i + n);
    }
  }

  lemma LinkedSuffix(world: World, chain: seq<Definition>, i: nat)
    requires Linked(world, chain) && i < |chain|
    ensures Linked(world, chain[i..])
  {
    hide TrimSpace, Find;
    forall j: nat | j + 1 < |chain[i..]|
      ensures LinkAt(world, chain[i..], j)
    {
      assert LinkAt(world, chain, i + j);
    }
  }

  lemma ParentNamed(world: World, chain: seq<Definition>, i: nat)
    requires Linked(world, chain) && i < |chain| - 1
    ensures TrimSpace(chain[i].parent) != ""
  {
    assert LinkAt(world, chain, i);
  }

  /** The walk is complete exactly when the definition has a full chain within the bound: cutting cycles never cuts
      a chain that ends. */
  lemma CompleteIff(world: World, chain: seq<Definition>, stop: Stop)
    requires WellRead(world) && Walked(world, chain, stop) && ReadFrom(world, chain[0])
    ensures stop == Complete <==>
            exists full :: FullChain(world, full) && full[0] == chain[0] && |full| <= MAX_INHERITANCE_DEPTH + 1
    ensures stop == Complete ==> FullChain(world, chain)
  {
    hide TrimSpace, ToLower, Shaped, WellRead, ReadFrom, Linked;
    if stop == Complete {
      assert FullChain(world, chain);
    }
    if full: seq<Definition> :| FullChain(world, full) && full[0] == chain[0] && |full| <= MAX_INHERITANCE_DEPTH + 1 {
      forall i, j | 0 <= i < j < |full|
        ensures Folding(full[i].id) != Folding(full[j].id)
      {
        FullChainDistinct(world, full, i, j);
      }
      WalkedUnique(world, chain, full, stop, Complete);
    }
  }

  /** A walk that was cut has no end however far it is followed. */
  lemma CutMeansEndless(world: World, chain: seq<Definition>, stop: Stop, full: seq<Definition>)
    requires WellRead(world) && Walked(world, chain, stop) && ReadFrom(world, chain[0]) && stop.Cut?
    requires full != [] && full[0] == chain[0]
    ensures !FullChain(world, full)
  {
    hide TrimSpace, ToLower, Shaped;
    if FullChain(world, full) {
      var k := |chain| - 1;
      if |full| <= |chain| {
        SamePrefix(world, chain, full, |full| - 1);
        if |full| < |chain| {
          ParentNamed(world, chain, |full| - 1);
        }
      } else {
        SamePrefix(world, chain, full, k);
        LinkedRead(world, full, k + 1);
        var d :| d in chain && Folding(d.id) == ToLower(TrimSpace(chain[k].parent));
        var j :| 0 <= j < |chain| && chain[j] == d;
        SamePrefix(world, chain, full, j);
        FullChainDistinct(world, full, j, k + 1);
      }
    }
  }

  // The fold.

  /** The pattern is that of the nearest definition that has one. */
  lemma {:induction false} NearestPattern(chain: seq<Definition>, k: nat)
    requires chain != [] && AllShaped(chain) && k <= |chain| && forall j :: 0 <= j < k ==> chain[j].pattern == ""
    ensures k < |chain| && chain[k].pattern != "" ==> Folded(chain).pattern == chain[k].pattern
    ensures k == |chain| ==> Folded(chain).pattern == ""
  {
    if |chain| > 1 && k > 0 {
      NearestPattern(chain[1..], k - 1);
    }
  }

  /** Each colour slot is that of the nearest definition that sets it, or the furthest definition's default. */
  lemma {:induction false} NearestColor(chain: seq<Definition>, slot: nat, k: nat)
    requires chain != [] && AllShaped(chain) && slot < 3 && k <= |chain| && forall j :: 0 <= j < k ==> !chain[j].setColor[slot]
    ensures k < |chain| && chain[k].setColor[slot] ==>
              Folded(chain).colors[slot] == chain[k].colors[slot] && Folded(chain).setColor[slot]
    ensures k == |chain| ==> Folded(chain).colors[slot] == chain[|chain| - 1].colors[slot] && !Folded(chain).setColor[slot]
  {
    if |chain| > 1 && k > 0 {
      assert chain[0] in chain;
      NearestColor(chain[1..], slot, k - 1);
    }
  }

  ghost function EmblemCount(chain: seq<Definition>): nat {
    if chain == [] then 0 else |chain[0].emblems| + EmblemCount(chain[1..])
  }

  /** Above the emblems of all further definitions, those of each definition stand in their own order. */
  lemma {:induction false} EmblemsFurthestFirst(chain: seq<Definition>, k: nat, e: nat)
    requires chain != [] && AllShaped(chain) && k < |chain| && e < |chain[k].emblems|
    ensures |Folded(chain).emblems| == EmblemCount(chain) && EmblemCount(chain[k + 1..]) + e < EmblemCount(chain)
    ensures Folded(chain).emblems[EmblemCount(chain[k + 1..]) + e] == chain[k].emblems[e]
  {
    hide Folded, Shaped;
    FoldedEmblems(chain);
    FoldedEmblemCount(chain);
    if k > 0 {
      EmblemsFurthestFirst(chain[1..], k - 1, e);
      assert chain[1..][k..] == chain[k + 1..];
    } else if |chain| > 1 {
      FoldedEmblemCount(chain[1..]);
    }
  }

  lemma FoldedEmblems(chain: seq<Definition>)
    requires chain != [] && AllShaped(chain)
    ensures Folded(chain).emblems == (if |chain| == 1 then [] else Folded(chain[1..]).emblems) + chain[0].emblems
  {
    hide DefinitionWarnings;
  }

  lemma {:induction false} FoldedEmblemCount(chain: seq<Definition>)
    requires chain != [] && AllShaped(chain)
    ensures |Folded(chain).emblems| == EmblemCount(chain)
  {
    hide Folded, Shaped;
    FoldedEmblems(chain);
    if |chain| > 1 {
      FoldedEmblemCount(chain[1..]);
    }
  }

  /** The inherited ids are those of the ancestors, nearest first; id and parent stay the definition's own. */
  lemma {:induction false} InheritedNearestFirst(chain: seq<Definition>)
    requires chain != [] && AllShaped(chain) && chain[|chain| - 1].inherited == []
    ensures |Folded(chain).inherited| == |chain| - 1
    ensures forall i :: 0 <= i < |chain| - 1 ==> Folded(chain).inherited[i] == chain[i + 1].id
    ensures Folded(chain).id == chain[0].id && Folded(chain).parent == chain[0].parent
  {
    if |chain| > 1 {
      InheritedNearestFirst(chain[1..]);
    }
  }

  lemma LastAncestor(world: World, chain: seq<Definition>, stop: Stop)
    requires WellRead(world) && Walked(world, chain, stop) && |chain| > 1
    ensures chain[|chain| - 1].inherited == [] && TrimSpace(chain[0].parent) != ""
  {
    hide TrimSpace, ToLower, Shaped;
    var k := |chain| - 2;
    assert LinkAt(world, chain, k);
    assert LinkAt(world, chain, 0);
  }

  /** With at least one ancestor, the warning about a missing pattern says what draws: it is given exactly when no
      definition of the chain has a pattern, and the definition is never called one without a parent. */
  lemma PatternWarningIff(world: World, definition: Definition, ancestors: seq<Definition>, stop: Stop, r: Resolution)
    requires WellRead(world) && AllShaped([definition] + ancestors) && Resolved(world, definition, ancestors, stop, r)
    requires ancestors != [] && !stop.Private? && !stop.Error?
    ensures FilledWithColor1 in r.definition.warnings <==> forall d :: d in [definition] + ancestors ==> d.pattern == ""
    ensures NothingToDraw !in r.definition.warnings
  {
    hide Folded, TrimSpace, Walked, Unresolved, DefinitionWarnings, StopWarnings, WellRead;
    var chain := [definition] + ancestors;
    LastAncestor(world, chain, stop);
    PatternOrNone(chain);
    FoldedWarnings(chain);
    InheritedNearestFirst(chain);
    BlankParent(definition.parent);
    FilledIff(Folded(chain), stop);
  }

  lemma BlankParent(parent: string)
    requires TrimSpace(parent) != ""
    ensures parent != ""
  {
    TrimmedStays("");
  }

  lemma FilledIff(d: Definition, stop: Stop)
    requires d.warnings == DefinitionWarnings(d.(warnings := [])) && d.parent != "" && d.inherited != []
    ensures FilledWithColor1 in d.warnings + StopWarnings(stop) <==> d.pattern == ""
    ensures NothingToDraw !in d.warnings + StopWarnings(stop)
  {
    hide DefinitionWarnings, StopWarnings;
    StopWarnsOfWalk(stop);
    PatternWarned(d.(warnings := []));
    var w, s := d.warnings, StopWarnings(stop);
    assert forall x :: x in w + s <==> x in w || x in s;
  }

  lemma StopWarnsOfWalk(stop: Stop)
    ensures FilledWithColor1 !in StopWarnings(stop) && NothingToDraw !in StopWarnings(stop)
  {
  }

  lemma PatternWarned(d: Definition)
    requires d.parent != "" && d.inherited != []
    ensures FilledWithColor1 in DefinitionWarnings(d) <==> d.pattern == ""
    ensures NothingToDraw !in DefinitionWarnings(d)
  {
    hide Unresolved;
  }

  lemma PatternOrNone(chain: seq<Definition>)
    requires chain != [] && AllShaped(chain)
    ensures Folded(chain).pattern == "" <==> forall d :: d in chain ==> d.pattern == ""
  {
    hide Folded;
    if d :| d in chain && d.pattern != "" {
      var k := FirstPattern(chain, 0);
      NearestPattern(chain, k);
    } else {
      NearestPattern(chain, |chain|);
    }
  }

  ghost function FirstPattern(chain: seq<Definition>, k: nat): (r: nat)
    requires k <= |chain| && exists j :: k <= j < |chain| && chain[j].pattern != ""
    requires forall j :: 0 <= j < k ==> chain[j].pattern == ""
    ensures r < |chain| && chain[r].pattern != "" && forall j :: 0 <= j < r ==> chain[j].pattern == ""
    decreases |chain| - k
  {
    if chain[k].pattern != "" then k else FirstPattern(chain, k + 1)
  }

  lemma FoldedWarnings(chain: seq<Definition>)
    requires |chain| > 1 && AllShaped(chain)
    ensures Folded(chain).warnings == DefinitionWarnings(Folded(chain).(warnings := []))
  {
    var d := Drawn(chain[0], Folded(chain[1..]));
    assert Folded(chain) == d.(warnings := DefinitionWarnings(d));
    assert Unresolved(d) == Unresolved(d.(warnings := []));
  }

  /** The colours an emblem draws with: its own, and the definition's where it names none. */
  method EffectiveColors(d: Definition, e: Emblem) returns (out: seq<Color>)
    requires Shaped(d) && EmblemShaped(e)
    ensures |out| == 3 && forall slot :: 0 <= slot < 3 ==> out[slot] == if e.setColor[slot] then e.colors[slot] else d.colors[slot]
  {
    out := e.colors;
    for slot := 0 to 3
      invariant |out| == 3
      invariant forall i :: 0 <= i < slot ==> out[i] == if e.setColor[i] then e.colors[i] else d.colors[i]
      invariant forall i :: slot <= i < 3 ==> out[i] == e.colors[i]
    {
      if !e.setColor[slot] {
        out := out[slot := d.colors[slot]];
      }
    }
  }
}
