/**
 Typed call references between events and on-actions: the queries that select them, the steps a walk may take over them, and
 what of a table those queries and the keys of its calls can tell.
 */
module EventCalls {
  import opened Order
  import opened Text
  import TextLaws
  import opened Wrappers

  datatype Direction = Both | Callers | Callees

  /** `hidden` holds the sources that public mode withholds; it is empty otherwise. */
  datatype Options = Options(direction: Direction, includeOnActions: bool, hidden: set<string>)

  datatype RefHit = RefHit(fromType: string, fromName: string, kind: string, name: string, resolved: bool,
                           relation: string, phase: string, source: string, path: string, line: int, column: int)

  datatype RefQuery = RefQuery(incoming: seq<RefHit>, outgoing: seq<RefHit>, incomingTruncated: bool, outgoingTruncated: bool)

  const ROW_LIMIT := 500

  function TypedId(typ: string, name: string): string {
    typ + ":" + name
  }

  function From(h: RefHit): string {
    TypedId(h.fromType, h.fromName)
  }

  function To(h: RefHit): string {
    TypedId(h.kind, h.name)
  }

  /** Splits "type:name"; an empty part or a second colon makes the id untyped. */
  function SplitTypedId(id: string): Option<(string, string)> {
    var i := IndexOf(id, ':');
    if i == |id| || i == 0 || i + 1 == |id| || ':' in id[i + 1..] then None
    else Some((id[..i], id[i + 1..]))
  }

  predicate Matches(id: string, h: RefHit, incoming: bool) {
    match SplitTypedId(id)
    case Some((typ, name)) => if incoming then h.kind == typ && h.name == name else h.fromType == typ && h.fromName == name
    case None => if incoming then h.name == id else h.fromName == id
  }

  /** The rows of the reference table that a query selects, in table order. */
  function Selected(refs: seq<RefHit>, id: string, incoming: bool): (r: seq<RefHit>)
    ensures forall h :: h in r <==> h in refs && Matches(id, h, incoming)
  {
    if refs == [] then []
    else
      var rest := Selected(refs[1..], id, incoming);
      assert refs == [refs[0]] + refs[1..];
      if Matches(id, refs[0], incoming) then [refs[0]] + rest else rest
  }

  function Capped(hits: seq<RefHit>): seq<RefHit> {
    if |hits| > ROW_LIMIT then hits[..ROW_LIMIT] else hits
  }

  function QueryRefs(refs: seq<RefHit>, id: string): RefQuery {
    var incoming := Selected(refs, id, true);
    var outgoing := Selected(refs, id, false);
    RefQuery(Capped(incoming), Capped(outgoing), |incoming| > ROW_LIMIT, |outgoing| > ROW_LIMIT)
  }

  predicate EventType(typ: string) {
    typ == "event" || typ == "on_action"
  }

  predicate Eligible(o: Options, h: RefHit) {
    && h.fromName != "" && EventType(h.fromType) && EventType(h.kind)
    && (o.includeOnActions || (h.fromType != "on_action" && h.kind != "on_action"))
  }

  predicate Shown(o: Options, h: RefHit) {
    Eligible(o, h) && h.source !in o.hidden
  }

  function EdgeKey(h: RefHit): string {
    Joined([From(h), To(h), h.relation, h.phase, h.path, Itoa(h.line), Itoa(h.column)])
  }

  /** The end of edge h to go on to from `current`. */
  function Next(o: Options, h: RefHit, current: string): string {
    if o.direction.Callers? || (o.direction.Both? && current == To(h)) then From(h) else To(h)
  }

  /** An unresolved edge is never followed to its `to` end. */
  predicate Followed(o: Options, h: RefHit, current: string) {
    h.resolved || Next(o, h, current) != To(h)
  }

  /** The edge touches `current` at the end the direction looks from. */
  predicate Incident(o: Options, h: RefHit, current: string) {
    || (!o.direction.Callees? && To(h) == current)
    || (!o.direction.Callers? && From(h) == current)
  }

  ghost predicate StepBy(refs: seq<RefHit>, o: Options, a: string, b: string, h: RefHit) {
    h in refs && Shown(o, h) && Incident(o, h, a) && Followed(o, h, a) && b == Next(o, h, a)
  }

  /** One allowed step over the reference table, stated without the walk. */
  ghost predicate Step(refs: seq<RefHit>, o: Options, a: string, b: string) {
    exists h :: StepBy(refs, o, a, b, h)
  }

  /** A row that a chain may show, read off its columns: a named caller, events only unless on-actions are asked for, and no
      withheld source. */
  ghost predicate RowShown(o: Options, h: RefHit) {
    && h.fromName != "" && h.fromType in {"event", "on_action"} && h.kind in {"event", "on_action"} && h.source !in o.hidden
    && (!o.includeOnActions ==> h.fromType == "event" && h.kind == "event")
  }

  /** A row leads from a to b: callers backwards, callees forwards and only when resolved, both from either end. */
  ghost predicate RowLeads(o: Options, h: RefHit, a: string, b: string) {
    var from, to := h.fromType + ":" + h.fromName, h.kind + ":" + h.name;
    var back, forth := a == to && b == from && (h.resolved || from != to), a == from && b == to && h.resolved;
    RowShown(o, h) &&
    match o.direction
    case Callers => back
    case Callees => forth
    case Both => back || forth
  }

  /** The steps of a walk are those of the columns. */
  lemma StepIsRow(refs: seq<RefHit>, o: Options, a: string, b: string)
    ensures forall h :: Shown(o, h) <==> RowShown(o, h)
    ensures Step(refs, o, a, b) <==> exists h :: h in refs && RowLeads(o, h, a, b)
  {
    forall h
      ensures Shown(o, h) <==> RowShown(o, h)
      ensures StepBy(refs, o, a, b, h) <==> h in refs && RowLeads(o, h, a, b)
    {
    }
  }

  /** n is reachable from the center in at most k allowed steps. */
  ghost predicate Within(refs: seq<RefHit>, o: Options, center: string, n: string, k: nat)
    decreases k
  {
    if k == 0 then n == center
    else Within(refs, o, center, n, k - 1) || exists c :: Within(refs, o, center, c, k - 1) && Step(refs, o, c, n)
  }

  predicate PlainName(name: string) {
    name != "" && ':' !in name
  }

  /** An id that a query reads as a type and a name. */
  predicate Typed(id: string) {
    SplitTypedId(id).Some?
  }

  /** The query of an id, as far as the direction asks it, selects h. */
  predicate Sees(o: Options, h: RefHit, id: string) {
    (!o.direction.Callees? && Matches(id, h, true)) || (!o.direction.Callers? && Matches(id, h, false))
  }

  /** n is reachable from the center in at most k allowed steps, all of them taken from typed nodes. */
  ghost predicate TypedWithin(refs: seq<RefHit>, o: Options, center: string, n: string, k: nat)
    decreases k
  {
    if k == 0 then n == center
    else TypedWithin(refs, o, center, n, k - 1) ||
         exists c :: TypedWithin(refs, o, center, c, k - 1) && Typed(c) && Step(refs, o, c, n)
  }

  datatype Limits = Limits(depth: int, nodes: int, edges: int)

  /** h touches, at the end the direction looks from, a node nearer than the depth. */
  ghost predicate InReach(refs: seq<RefHit>, o: Options, center: string, l: Limits, h: RefHit) {
    exists n, k: nat :: k < l.depth && Within(refs, o, center, n, k) && Incident(o, h, n)
  }

  /** h so touches a typed node that typed nodes lead to. */
  ghost predicate InTypedReach(refs: seq<RefHit>, o: Options, center: string, l: Limits, h: RefHit) {
    exists n, k: nat :: k < l.depth && TypedWithin(refs, o, center, n, k) && Typed(n) && Incident(o, h, n)
  }

  /** What the walk can tell of a call: its key, its ends and whether it is resolved. */
  predicate SameCall(h: RefHit, k: RefHit) {
    EdgeKey(h) == EdgeKey(k) && From(h) == From(k) && To(h) == To(k) && h.resolved == k.resolved
  }

  /** A shown call in typed reach. */
  ghost predicate InView(refs: seq<RefHit>, o: Options, center: string, l: Limits, h: RefHit) {
    h in refs && Shown(o, h) && InTypedReach(refs, o, center, l, h)
  }

  /** A withheld call in typed reach. */
  ghost predicate Withheld(refs: seq<RefHit>, o: Options, center: string, l: Limits, h: RefHit) {
    h in refs && Eligible(o, h) && h.source in o.hidden && InTypedReach(refs, o, center, l, h)
  }

  /** One key, one call, for the calls in view. */
  ghost predicate KeysTell(refs: seq<RefHit>, o: Options, center: string, l: Limits) {
    forall h, k :: InView(refs, o, center, l, h) && InView(refs, o, center, l, k) && EdgeKey(h) == EdgeKey(k) ==> SameCall(h, k)
  }

  /** No call in view has the key of a withheld one. Nothing is asked where nothing is withheld. */
  ghost predicate NoneMasked(refs: seq<RefHit>, o: Options, center: string, l: Limits) {
    forall h, k :: InView(refs, o, center, l, h) && Withheld(refs, o, center, l, k) ==> EdgeKey(h) != EdgeKey(k)
  }

  /** No call is selected by the query of an untyped node, which compares bare names with the whole id. */
  ghost predicate Quiet(refs: seq<RefHit>, o: Options, center: string, l: Limits) {
    forall n, k: nat, h :: k < l.depth && TypedWithin(refs, o, center, n, k) && !Typed(n) && h in refs && Eligible(o, h) ==> !Sees(o, h, n)
  }

  /** Nothing is lost at untyped nodes: their calls touch typed nodes in reach as well, and their steps lead nowhere that
      typed nodes do not lead to as fast. */
  ghost predicate Harmless(refs: seq<RefHit>, o: Options, center: string, l: Limits) {
    forall n, k: nat, h :: k < l.depth && Within(refs, o, center, n, k) && !Typed(n) && h in refs && Shown(o, h) && Incident(o, h, n) ==>
      HarmlessAt(refs, o, center, l, n, k, h)
  }

  ghost predicate HarmlessAt(refs: seq<RefHit>, o: Options, center: string, l: Limits, n: string, k: nat, h: RefHit) {
    && InTypedReach(refs, o, center, l, h)
    && (Followed(o, h, n) ==> TypedWithin(refs, o, center, Next(o, h, n), k + 1))
  }

  lemma SplitPlain(typ: string, name: string)
    requires typ != "" && ':' !in typ
    ensures SplitTypedId(TypedId(typ, name)) == if PlainName(name) then Some((typ, name)) else None
  {
    var id := TypedId(typ, name);
    assert id[..|typ|] == typ && id[|typ| + 1..] == name;
    IndexOfFirst(id, ':', |typ|);
  }

  /** An id query finds an edge that starts at that very node iff the name is plain. */
  lemma OwnEdgesSeen(typ: string, name: string, h: RefHit)
    requires EventType(typ) && h.fromType == typ && h.fromName == name
    ensures Matches(TypedId(typ, name), h, false) <==> PlainName(name)
  {
    SplitPlain(typ, name);
    assert |TypedId(typ, name)| > |name|;
  }

  lemma TypedIdInjective(t1: string, n1: string, t2: string, n2: string)
    requires EventType(t1) && EventType(t2) && TypedId(t1, n1) == TypedId(t2, n2)
    ensures t1 == t2 && n1 == n2
  {
    var id := TypedId(t1, n1);
    assert id[0] == t1[0] == t2[0];
    assert id[|t1| + 1..] == n1 && id[|t2| + 1..] == n2;
  }

  /** For plain names an id query selects exactly the references that touch the node. */
  lemma MatchesEnd(typ: string, name: string, h: RefHit)
    requires EventType(typ) && PlainName(name) && EventType(h.fromType) && EventType(h.kind)
    ensures Matches(TypedId(typ, name), h, true) <==> To(h) == TypedId(typ, name)
    ensures Matches(TypedId(typ, name), h, false) <==> From(h) == TypedId(typ, name)
  {
    SplitPlain(typ, name);
    if To(h) == TypedId(typ, name) {
      TypedIdInjective(h.kind, h.name, typ, name);
    }
    if From(h) == TypedId(typ, name) {
      TypedIdInjective(h.fromType, h.fromName, typ, name);
    }
  }

  /** The query of a typed node selects exactly the calls at it. */
  lemma TypedSees(o: Options, h: RefHit, id: string)
    requires Typed(id) && Eligible(o, h)
    ensures Sees(o, h, id) <==> Incident(o, h, id)
  {
    var (typ, name) := SplitTypedId(id).value;
    assert id == typ + ([':'] + name);
    SameId(h.kind, h.name, typ, name);
    SameId(h.fromType, h.fromName, typ, name);
  }

  lemma SameId(t1: string, n1: string, t2: string, n2: string)
    requires ':' !in t1 && ':' !in t2
    ensures TypedId(t1, n1) == t2 + ([':'] + n2) <==> t1 == t2 && n1 == n2
  {
    assert TypedId(t1, n1) == t1 + ([':'] + n1);
    if TypedId(t1, n1) == t2 + ([':'] + n2) {
      SplitAtFirst(':', t1, t2, n1, n2);
    }
  }

  function KeyTail(h: RefHit): string {
    Joined([h.phase, h.path, Itoa(h.line), Itoa(h.column)])
  }

  lemma KeyShape(h: RefHit)
    ensures EdgeKey(h) == From(h) + ("|" + (To(h) + ("|" + (h.relation + ("|" + KeyTail(h))))))
  {
    var tail := [h.phase, h.path, Itoa(h.line), Itoa(h.column)];
    JoinedHead(h.relation, tail);
    JoinedHead(To(h), [h.relation] + tail);
    JoinedHead(From(h), [To(h)] + ([h.relation] + tail));
    assert [From(h)] + ([To(h)] + ([h.relation] + tail)) == [From(h), To(h), h.relation, h.phase, h.path, Itoa(h.line), Itoa(h.column)];
  }

  /** A bar moved from a name into the relation leaves the edge key as it was: two different calls, one key. */
  lemma KeysCollide(h: RefHit, part: string)
    ensures var a, b := h.(name := h.name + ("|" + part)), h.(relation := part + ("|" + h.relation));
            EdgeKey(a) == EdgeKey(b) && To(a) != To(b)
  {
    var a, b := h.(name := h.name + ("|" + part)), h.(relation := part + ("|" + h.relation));
    KeyShape(a);
    KeyShape(b);
    var rest := "|" + KeyTail(h);
    assert To(a) == To(b) + ("|" + part);
    assert To(a) + ("|" + (h.relation + rest)) == To(b) + ("|" + ((part + ("|" + h.relation)) + rest));
    assert |To(a)| > |To(b)|;
  }

  /** Names without a bar leave one way to read the ends off an edge key. */
  lemma EndsFromKey(h: RefHit, k: RefHit)
    requires EventType(h.fromType) && EventType(h.kind) && EventType(k.fromType) && EventType(k.kind)
    requires '|' !in h.fromName && '|' !in h.name && '|' !in k.fromName && '|' !in k.name && EdgeKey(h) == EdgeKey(k)
    ensures From(h) == From(k) && To(h) == To(k)
  {
    hide EdgeKey, KeyTail;
    KeyShape(h);
    KeyShape(k);
    var x, y := h.relation + ("|" + KeyTail(h)), k.relation + ("|" + KeyTail(k));
    SplitAtFirst('|', From(h), From(k), To(h) + ("|" + x), To(k) + ("|" + y));
    SplitAtFirst('|', To(h), To(k), x, y);
  }

  /** No string of the row holds a bar. */
  predicate BarFree(h: RefHit) {
    '|' !in h.fromName && '|' !in h.name && '|' !in h.relation && '|' !in h.phase && '|' !in h.path
  }

  /** Then a key is nine columns of the row: what is called from where, how, and in which place of which file. */
  lemma KeyIsColumns(h: RefHit, k: RefHit)
    requires EventType(h.fromType) && EventType(h.kind) && EventType(k.fromType) && EventType(k.kind) && BarFree(h) && BarFree(k)
    ensures EdgeKey(h) == EdgeKey(k) <==>
            && h.fromType == k.fromType && h.fromName == k.fromName && h.kind == k.kind && h.name == k.name
            && h.relation == k.relation && h.phase == k.phase && h.path == k.path && h.line == k.line && h.column == k.column
  {
    hide EdgeKey, KeyTail;
    if EdgeKey(h) == EdgeKey(k) {
      EndsFromKey(h, k);
      TypedIdInjective(h.fromType, h.fromName, k.fromType, k.fromName);
      TypedIdInjective(h.kind, h.name, k.kind, k.name);
      RelationFromKey(h, k);
      TailColumns(h, k);
    } else {
      KeyShape(h);
      KeyShape(k);
      SameTail(h, k);
    }
  }

  lemma RelationFromKey(h: RefHit, k: RefHit)
    requires From(h) == From(k) && To(h) == To(k) && EdgeKey(h) == EdgeKey(k) && BarFree(h) && BarFree(k)
    ensures h.relation == k.relation && KeyTail(h) == KeyTail(k)
  {
    hide EdgeKey, KeyTail, From, To;
    KeyShape(h);
    KeyShape(k);
    var x, y := h.relation + ("|" + KeyTail(h)), k.relation + ("|" + KeyTail(k));
    SameSuffix(From(h), "|" + (To(h) + ("|" + x)), "|" + (To(k) + ("|" + y)));
    SameSuffix("|", To(h) + ("|" + x), To(k) + ("|" + y));
    SameSuffix(To(h), "|" + x, "|" + y);
    SameSuffix("|", x, y);
    SplitAtFirst('|', h.relation, k.relation, KeyTail(h), KeyTail(k));
  }

  lemma SameSuffix(a: string, x: string, y: string)
    requires a + x == a + y
    ensures x == y
  {
    assert x == (a + x)[|a|..] && y == (a + y)[|a|..];
  }

  lemma TailShape(h: RefHit)
    ensures KeyTail(h) == h.phase + ("|" + (h.path + ("|" + (Itoa(h.line) + ("|" + Itoa(h.column))))))
  {
    JoinedHead(Itoa(h.line), [Itoa(h.column)]);
    JoinedHead(h.path, [Itoa(h.line)] + [Itoa(h.column)]);
    JoinedHead(h.phase, [h.path] + ([Itoa(h.line)] + [Itoa(h.column)]));
    assert [h.phase] + ([h.path] + ([Itoa(h.line)] + [Itoa(h.column)])) == [h.phase, h.path, Itoa(h.line), Itoa(h.column)];
  }

  lemma SameTail(h: RefHit, k: RefHit)
    ensures h.phase == k.phase && h.path == k.path && h.line == k.line && h.column == k.column ==> KeyTail(h) == KeyTail(k)
  {
  }

  lemma TailColumns(h: RefHit, k: RefHit)
    requires KeyTail(h) == KeyTail(k) && BarFree(h) && BarFree(k)
    ensures h.phase == k.phase && h.path == k.path && h.line == k.line && h.column == k.column
  {
    hide KeyTail, Itoa;
    TailShape(h);
    TailShape(k);
    var l, m := Itoa(h.line) + ("|" + Itoa(h.column)), Itoa(k.line) + ("|" + Itoa(k.column));
    SplitAtFirst('|', h.phase, k.phase, h.path + ("|" + l), k.path + ("|" + m));
    SplitAtFirst('|', h.path, k.path, l, m);
    assert '|' !in Itoa(h.line) && '|' !in Itoa(k.line);
    SplitAtFirst('|', Itoa(h.line), Itoa(k.line), Itoa(h.column), Itoa(k.column));
    TextLaws.ItoaTells(h.line, k.line);
    TextLaws.ItoaTells(h.column, k.column);
  }

  /** So where no name holds a bar, keys tell the calls in reach apart exactly when those of one key agree on resolution. */
  lemma KeysTellIff(refs: seq<RefHit>, o: Options, center: string, l: Limits)
    requires forall h :: h in refs && Shown(o, h) ==> '|' !in h.fromName && '|' !in h.name
    ensures KeysTell(refs, o, center, l) <==>
            forall h, k :: InView(refs, o, center, l, h) && InView(refs, o, center, l, k) && EdgeKey(h) == EdgeKey(k) ==>
              h.resolved == k.resolved
  {
    hide EdgeKey, From, To, InTypedReach;
    forall h, k | h in refs && k in refs && Shown(o, h) && Shown(o, k) && EdgeKey(h) == EdgeKey(k)
      ensures From(h) == From(k) && To(h) == To(k)
    {
      EndsFromKey(h, k);
    }
  }

  /** The references the walk looks at from a node: incoming ones unless it goes to callees, then outgoing ones unless it goes to callers. */
  function Hits(o: Options, q: RefQuery): seq<RefHit> {
    (if o.direction.Callees? then [] else q.incoming) + (if o.direction.Callers? then [] else q.outgoing)
  }

  predicate Cut(q: RefQuery) {
    q.incomingTruncated || q.outgoingTruncated
  }

  /** The references looked at are selected by the query; unless the query was cut, they are all of those. */
  lemma HitsAreSeen(refs: seq<RefHit>, o: Options, id: string, h: RefHit)
    ensures h in Hits(o, QueryRefs(refs, id)) ==> h in refs && Sees(o, h, id)
    ensures !Cut(QueryRefs(refs, id)) && h in refs && Sees(o, h, id) ==> h in Hits(o, QueryRefs(refs, id))
  {
  }

  /** A query is cut exactly if more than 500 rows match it on one side; then it gives the first 500 of them. */
  lemma CutIff(refs: seq<RefHit>, id: string)
    ensures var q, incoming, outgoing := QueryRefs(refs, id), Selected(refs, id, true), Selected(refs, id, false);
            && (Cut(q) <==> |incoming| > 500 || |outgoing| > 500)
            && q.incoming <= incoming && q.outgoing <= outgoing
            && |q.incoming| == (if |incoming| > 500 then 500 else |incoming|) && |q.outgoing| == (if |outgoing| > 500 then 500 else |outgoing|)
  {
  }

  lemma {:induction false} TypedWithinMore(refs: seq<RefHit>, o: Options, center: string, n: string, j: nat, k: nat)
    requires TypedWithin(refs, o, center, n, j) && j <= k
    ensures TypedWithin(refs, o, center, n, k)
    decreases k
  {
    if j < k {
      TypedWithinMore(refs, o, center, n, j, k - 1);
    }
  }

  /** In a quiet table whatever the walk was given at a node touches the node, and the node is typed. */
  lemma QuietHit(refs: seq<RefHit>, o: Options, center: string, l: Limits, n: string, k: nat, h: RefHit)
    requires Quiet(refs, o, center, l) && k < l.depth && TypedWithin(refs, o, center, n, k)
    requires h in refs && Eligible(o, h) && Sees(o, h, n)
    ensures Typed(n) && Incident(o, h, n)
  {
    hide Sees, Incident, Eligible, TypedWithin;
    if Typed(n) {
      TypedSees(o, h, n);
    }
  }

  lemma OneTypedStep(refs: seq<RefHit>, o: Options, center: string, c: string, k: nat, n: string)
    requires TypedWithin(refs, o, center, c, k) && Typed(c) && Step(refs, o, c, n)
    ensures TypedWithin(refs, o, center, n, k + 1)
  {
    hide Step, Typed;
  }

  /** A table in which the walk is not misled: nothing misread, masked or confused. */
  ghost predicate Clear(refs: seq<RefHit>, o: Options, center: string, l: Limits) {
    Quiet(refs, o, center, l) && NoneMasked(refs, o, center, l) && KeysTell(refs, o, center, l)
  }

  lemma NoStep(refs: seq<RefHit>, o: Options, center: string, n: string)
    ensures Within(refs, o, center, n, 0) <==> n == center
    ensures TypedWithin(refs, o, center, n, 0) <==> n == center
  {
  }

  lemma LastStep(refs: seq<RefHit>, o: Options, center: string, n: string, k: nat) returns (c: string, h: RefHit)
    requires k > 0 && Within(refs, o, center, n, k) && !Within(refs, o, center, n, k - 1)
    ensures Within(refs, o, center, c, k - 1) && StepBy(refs, o, c, n, h)
  {
    hide StepBy;
    c :| Within(refs, o, center, c, k - 1) && Step(refs, o, c, n);
    h :| StepBy(refs, o, c, n, h);
  }

  lemma LastTypedStep(refs: seq<RefHit>, o: Options, center: string, n: string, k: nat) returns (c: string, h: RefHit)
    requires k > 0 && TypedWithin(refs, o, center, n, k) && !TypedWithin(refs, o, center, n, k - 1)
    ensures TypedWithin(refs, o, center, c, k - 1) && Typed(c) && StepBy(refs, o, c, n, h)
  {
    hide StepBy;
    c :| TypedWithin(refs, o, center, c, k - 1) && Typed(c) && Step(refs, o, c, n);
    h :| StepBy(refs, o, c, n, h);
  }

  lemma {:induction false} TypedIsWithin(refs: seq<RefHit>, o: Options, center: string, n: string, k: nat)
    requires TypedWithin(refs, o, center, n, k)
    ensures Within(refs, o, center, n, k)
    decreases k
  {
    hide Step;
    if k > 0 {
      if TypedWithin(refs, o, center, n, k - 1) {
        TypedIsWithin(refs, o, center, n, k - 1);
      } else {
        var c :| TypedWithin(refs, o, center, c, k - 1) && Typed(c) && Step(refs, o, c, n);
        TypedIsWithin(refs, o, center, c, k - 1);
      }
    }
  }

  lemma TypedReachIsReach(refs: seq<RefHit>, o: Options, center: string, l: Limits, h: RefHit)
    requires InTypedReach(refs, o, center, l, h)
    ensures InReach(refs, o, center, l, h)
  {
    hide Within, TypedWithin, Incident;
    var n, k: nat :| k < l.depth && TypedWithin(refs, o, center, n, k) && Typed(n) && Incident(o, h, n);
    TypedIsWithin(refs, o, center, n, k);
  }

  /** Where untyped nodes do no harm, typed nodes lead everywhere, and as fast. */
  lemma {:induction false} HarmlessWithin(refs: seq<RefHit>, o: Options, center: string, l: Limits, n: string, k: nat)
    requires Harmless(refs, o, center, l) && Within(refs, o, center, n, k) && k <= Max(0, l.depth)
    ensures TypedWithin(refs, o, center, n, k)
    decreases k
  {
    hide Harmless, StepBy, Typed, Within;
    if k == 0 {
      NoStep(refs, o, center, n);
    } else if Within(refs, o, center, n, k - 1) {
      HarmlessWithin(refs, o, center, l, n, k - 1);
    } else {
      var c, h := LastStep(refs, o, center, n, k);
      HarmlessWithin(refs, o, center, l, c, k - 1);
      if Typed(c) {
        assert Step(refs, o, c, n);
      } else {
        HarmlessStep(refs, o, center, l, c, k - 1, n, h);
      }
    }
  }

  lemma HarmlessStep(refs: seq<RefHit>, o: Options, center: string, l: Limits, c: string, k: nat, n: string, h: RefHit)
    requires Harmless(refs, o, center, l) && k < l.depth && Within(refs, o, center, c, k) && !Typed(c) && StepBy(refs, o, c, n, h)
    ensures TypedWithin(refs, o, center, n, k + 1) && InTypedReach(refs, o, center, l, h)
  {
    hide Within, TypedWithin, Typed, Shown, Incident, Followed, Next, InTypedReach;
    assert HarmlessAt(refs, o, center, l, c, k, h);
  }

  lemma HarmlessReach(refs: seq<RefHit>, o: Options, center: string, l: Limits, h: RefHit)
    requires Harmless(refs, o, center, l) && h in refs && Shown(o, h) && InReach(refs, o, center, l, h)
    ensures InTypedReach(refs, o, center, l, h)
  {
    hide Harmless, Within, TypedWithin, Typed, Shown, Incident;
    var n, k: nat :| k < l.depth && Within(refs, o, center, n, k) && Incident(o, h, n);
    HarmlessWithin(refs, o, center, l, n, k);
    if !Typed(n) {
      HarmlessCall(refs, o, center, l, n, k, h);
    }
  }

  lemma HarmlessCall(refs: seq<RefHit>, o: Options, center: string, l: Limits, n: string, k: nat, h: RefHit)
    requires Harmless(refs, o, center, l) && k < l.depth && Within(refs, o, center, n, k) && !Typed(n)
    requires h in refs && Shown(o, h) && Incident(o, h, n)
    ensures InTypedReach(refs, o, center, l, h)
  {
    hide Within, TypedWithin, Typed, Shown, Incident, InTypedReach;
    assert HarmlessAt(refs, o, center, l, n, k, h);
  }

  lemma OneStep(refs: seq<RefHit>, o: Options, center: string, n: string, k: nat, h: RefHit)
    requires Within(refs, o, center, n, k) && h in refs && Shown(o, h) && Incident(o, h, n) && Followed(o, h, n)
    ensures Within(refs, o, center, Next(o, h, n), k + 1)
  {
    assert StepBy(refs, o, n, Next(o, h, n), h);
    assert Step(refs, o, n, Next(o, h, n));
  }

  /** Every end that a step may lead to has a plain name. */
  ghost predicate PlainEnds(refs: seq<RefHit>, o: Options) {
    forall h :: h in refs && Shown(o, h) ==>
      (!o.direction.Callees? ==> PlainName(h.fromName)) && (!o.direction.Callers? && h.resolved ==> PlainName(h.name))
  }

  lemma {:induction false} PlainEndsTyped(refs: seq<RefHit>, o: Options, centerType: string, centerName: string, n: string, k: nat)
    requires PlainEnds(refs, o) && EventType(centerType) && PlainName(centerName)
    requires Within(refs, o, TypedId(centerType, centerName), n, k)
    ensures Typed(n)
  {
    hide Within, Typed, StepBy;
    var center := TypedId(centerType, centerName);
    if k == 0 {
      NoStep(refs, o, center, n);
      TypedIff(centerType, centerName);
    } else if Within(refs, o, center, n, k - 1) {
      PlainEndsTyped(refs, o, centerType, centerName, n, k - 1);
    } else {
      var c, h := LastStep(refs, o, center, n, k);
      PlainEndTyped(refs, o, c, n, h);
    }
  }

  lemma TypedIff(typ: string, name: string)
    requires EventType(typ)
    ensures Typed(TypedId(typ, name)) <==> PlainName(name)
  {
    SplitPlain(typ, name);
  }

  lemma PlainEndTyped(refs: seq<RefHit>, o: Options, c: string, n: string, h: RefHit)
    requires PlainEnds(refs, o) && StepBy(refs, o, c, n, h)
    ensures Typed(n)
  {
    hide Typed, TypedId, PlainName;
    TypedIff(h.fromType, h.fromName);
    TypedIff(h.kind, h.name);
  }

  /** Such a table, looked at from a plainly named center, is quiet, and untyped nodes do no harm in it: there are none in reach. */
  lemma PlainEndsSuffice(refs: seq<RefHit>, o: Options, centerType: string, centerName: string, l: Limits)
    requires PlainEnds(refs, o) && EventType(centerType) && PlainName(centerName)
    ensures Quiet(refs, o, TypedId(centerType, centerName), l) && Harmless(refs, o, TypedId(centerType, centerName), l)
  {
    hide Within, TypedWithin, Typed, PlainEnds, TypedId;
    var center := TypedId(centerType, centerName);
    forall n, k: nat | Within(refs, o, center, n, k)
      ensures Typed(n)
    {
      PlainEndsTyped(refs, o, centerType, centerName, n, k);
    }
    forall n, k: nat | TypedWithin(refs, o, center, n, k)
      ensures Typed(n)
    {
      TypedIsWithin(refs, o, center, n, k);
    }
  }

  /** A name that is itself the id of an untyped node. */
  predicate NestedName(name: string) {
    !Typed(name) && (HasPrefix(name, "event:") || HasPrefix(name, "on_action:"))
  }

  predicate NodeId(id: string) {
    HasPrefix(id, "event:") || HasPrefix(id, "on_action:")
  }

  lemma NodeIds(typ: string, name: string)
    requires EventType(typ)
    ensures NodeId(TypedId(typ, name))
  {
    var id := TypedId(typ, name);
    assert id[..|typ| + 1] == typ + ":";
  }

  lemma {:induction false} ReachedIsNode(refs: seq<RefHit>, o: Options, centerType: string, centerName: string, n: string, k: nat)
    requires EventType(centerType) && TypedWithin(refs, o, TypedId(centerType, centerName), n, k)
    ensures NodeId(n)
  {
    hide TypedWithin, Typed, NodeId, TypedId;
    var center := TypedId(centerType, centerName);
    if k == 0 {
      NoStep(refs, o, center, n);
      NodeIds(centerType, centerName);
    } else if TypedWithin(refs, o, center, n, k - 1) {
      ReachedIsNode(refs, o, centerType, centerName, n, k - 1);
    } else {
      var c, h := LastTypedStep(refs, o, center, n, k);
      NodeIds(h.fromType, h.fromName);
      NodeIds(h.kind, h.name);
    }
  }

  /** Without such names a table is quiet from every center, whatever else the names hold. */
  lemma UnnestedIsQuiet(refs: seq<RefHit>, o: Options, centerType: string, centerName: string, l: Limits)
    requires forall h :: h in refs && Eligible(o, h) ==> !NestedName(h.fromName) && !NestedName(h.name)
    requires EventType(centerType)
    ensures Quiet(refs, o, TypedId(centerType, centerName), l)
  {
    hide TypedWithin, TypedId, Eligible;
    forall n, k: nat, h | k < l.depth && TypedWithin(refs, o, TypedId(centerType, centerName), n, k) && !Typed(n) && h in refs && Eligible(o, h)
      ensures !Sees(o, h, n)
    {
      ReachedIsNode(refs, o, centerType, centerName, n, k);
      assert NestedName(n);
    }
  }

  /** Every node nearer than the depth with a call at it is typed. */
  ghost predicate CallsTyped(refs: seq<RefHit>, o: Options, center: string, l: Limits) {
    forall n, k: nat, h :: k < l.depth && Within(refs, o, center, n, k) && h in refs && Shown(o, h) && Incident(o, h, n) ==> Typed(n)
  }

  /** For a walk one way untyped nodes do no harm exactly when there are none with a call that way. */
  lemma OneWayHarmlessIff(refs: seq<RefHit>, o: Options, center: string, l: Limits)
    requires !o.direction.Both?
    ensures Harmless(refs, o, center, l) <==> CallsTyped(refs, o, center, l)
  {
    hide Within, TypedWithin, Typed, Shown, Incident, HarmlessAt;
    if Harmless(refs, o, center, l) {
      forall n, k: nat, h | k < l.depth && Within(refs, o, center, n, k) && h in refs && Shown(o, h) && Incident(o, h, n)
        ensures Typed(n)
      {
        if !Typed(n) {
          assert HarmlessAt(refs, o, center, l, n, k, h);
          OneWayEnd(refs, o, center, l, n, k, h);
        }
      }
    }
  }

  lemma OneWayEnd(refs: seq<RefHit>, o: Options, center: string, l: Limits, n: string, k: nat, h: RefHit)
    requires !o.direction.Both? && HarmlessAt(refs, o, center, l, n, k, h) && Incident(o, h, n)
    ensures Typed(n)
  {
    hide TypedWithin, Typed, Followed, Next;
  }

  lemma OwnCallUnseen(o: Options, centerType: string, centerName: string, h: RefHit, e: RefHit)
    requires EventType(centerType) && !PlainName(centerName) && !o.direction.Both?
    requires Incident(o, h, TypedId(centerType, centerName)) && From(e) == From(h) && To(e) == To(h)
    ensures !Sees(o, e, TypedId(centerType, centerName))
  {
    TypedIff(centerType, centerName);
    assert |From(e)| > |e.fromName| && |To(e)| > |e.name|;
  }

  /** The table of the two calls of `KeysCollide`, resolved and with plain names: it is quiet and harmless, nothing is
      withheld, and its keys do not tell. */
  lemma CollisionTable(h: RefHit, part: string, includeOnActions: bool, l: Limits)
    requires EventType(h.fromType) && PlainName(h.fromName) && EventType(h.kind) && PlainName(h.name) && ':' !in part
    requires h.resolved && (includeOnActions || (h.fromType == h.kind == "event")) && l.depth >= 1
    requires From(h) != To(h) && From(h) != To(h) + ("|" + part)
    ensures var a, b := h.(name := h.name + ("|" + part)), h.(relation := part + ("|" + h.relation));
            var refs, o, center := [a, b], Options(Callees, includeOnActions, {}), From(h);
            && Quiet(refs, o, center, l) && NoneMasked(refs, o, center, l) && Harmless(refs, o, center, l) && !KeysTell(refs, o, center, l)
            && EdgeKey(a) == EdgeKey(b) && To(a) != To(b) && center != To(a) && center != To(b)
            && (forall e :: e in refs && To(e) == To(a) ==> e == a) && forall e :: e in refs && To(e) == To(b) ==> e == b
  {
    var a, b := h.(name := h.name + ("|" + part)), h.(relation := part + ("|" + h.relation));
    var refs, o, center := [a, b], Options(Callees, includeOnActions, {}), From(h);
    KeysCollide(h, part);
    hide EdgeKey, Within, TypedWithin, Typed, Harmless, Quiet;
    PlainEndsSuffice(refs, o, h.fromType, h.fromName, l);
    NoStep(refs, o, center, center);
    TypedIff(h.fromType, h.fromName);
    assert To(a) == To(h) + ("|" + part);
    assert a in refs && b in refs && Incident(o, a, center) && Incident(o, b, center);
    assert InTypedReach(refs, o, center, l, a) && InTypedReach(refs, o, center, l, b);
    assert InView(refs, o, center, l, a) && InView(refs, o, center, l, b);
  }
}
