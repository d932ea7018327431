/** The bounded walk over typed call references behind an event chain. */
module EventTopology {
  import opened EventCalls
  import opened Order

  datatype Item = Item(typ: string, name: string, distance: nat)

  /** The variables of the walk: the distance of every node met so far, the queue, how each node was met, the edge keys
      seen, the edges kept, and the three counters. */
  datatype Walk = Walk(states: map<string, nat>, queue: seq<Item>, predecessor: map<string, string>, seen: set<string>,
                       edges: seq<RefHit>, truncated: bool, redacted: nat, unresolved: nat)

  function Id(item: Item): string {
    TypedId(item.typ, item.name)
  }

  ghost function CountUnresolved(edges: seq<RefHit>): nat {
    if edges == [] then 0
    else CountUnresolved(edges[..|edges| - 1]) + if edges[|edges| - 1].resolved then 0 else 1
  }

  ghost predicate KeptEdges(refs: seq<RefHit>, o: Options, edges: seq<RefHit>, seen: set<string>) {
    && (forall e :: e in edges ==> e in refs && Shown(o, e) && EdgeKey(e) in seen)
    && (forall i, j :: 0 <= i < j < |edges| ==> EdgeKey(edges[i]) != EdgeKey(edges[j]))
  }

  /** Every node but the center was met from a node one step nearer. */
  ghost predicate Chained(center: string, states: map<string, nat>, predecessor: map<string, string>) {
    && center in states && states[center] == 0
    && predecessor.Keys == states.Keys - {center}
    && forall n :: n in predecessor ==> predecessor[n] in states && states[n] == states[predecessor[n]] + 1
  }

  ghost predicate Bounded(l: Limits, w: Walk) {
    && |w.edges| <= Max(0, l.edges)
    && |w.states| <= Max(1, l.nodes)
    && forall n :: n in w.states ==> w.states[n] <= Max(0, l.depth)
  }

  /** What every walk keeps, whatever the references. */
  ghost predicate Sound(refs: seq<RefHit>, o: Options, center: string, l: Limits, w: Walk) {
    && Chained(center, w.states, w.predecessor)
    && KeptEdges(refs, o, w.edges, w.seen)
    && Bounded(l, w)
    && (forall i :: 0 <= i < |w.queue| ==> Id(w.queue[i]) in w.states && w.states[Id(w.queue[i])] == w.queue[i].distance)
    && |w.seen| == |w.edges| + w.redacted
    && w.unresolved == CountUnresolved(w.edges)
  }

  /** Node b was met from a over a kept edge that the query of a selects. */
  ghost predicate MetBy(o: Options, edges: seq<RefHit>, a: string, b: string) {
    exists e :: e in edges && Sees(o, e, a) && Followed(o, e, a) && b == Next(o, e, a)
  }

  /** h was selected by the query of a node nearer than the depth. */
  ghost predicate Drawn(o: Options, l: Limits, states: map<string, nat>, h: RefHit) {
    exists n :: n in states && states[n] < l.depth && Sees(o, h, n)
  }

  /** A seen key is that of a call which was drawn and then kept or withheld. */
  ghost predicate Traced(refs: seq<RefHit>, o: Options, l: Limits, w: Walk, key: string) {
    exists k :: k in refs && Eligible(o, k) && EdgeKey(k) == key && Drawn(o, l, w.states, k) && (k.source in o.hidden || k in w.edges)
  }

  /** Where everything came from, in every walk: edges and keys from queries, nodes over kept edges. */
  ghost predicate Linked(refs: seq<RefHit>, o: Options, l: Limits, w: Walk) {
    && (forall e {:trigger Drawn(o, l, w.states, e)} :: e in w.edges ==> Drawn(o, l, w.states, e))
    && (forall n {:trigger w.predecessor[n]} :: n in w.predecessor ==> MetBy(o, w.edges, w.predecessor[n], n))
    && (forall key {:trigger Traced(refs, o, l, w, key)} :: key in w.seen ==> Traced(refs, o, l, w, key))
  }

  /** Both ends of h that a step may lead to have been met. */
  ghost predicate EndsMet(o: Options, states: map<string, nat>, h: RefHit) {
    && (!o.direction.Callees? ==> From(h) in states)
    && (!o.direction.Callers? && h.resolved ==> To(h) in states)
  }

  ghost predicate EdgesMet(o: Options, w: Walk) {
    forall e :: e in w.edges ==> EndsMet(o, w.states, e)
  }

  ghost predicate Kept(edges: seq<RefHit>, h: RefHit) {
    exists e :: e in edges && SameCall(e, h)
  }

  /** The walk went on from w to v while looking at a node at distance d. */
  ghost predicate Grew(w: Walk, v: Walk, d: nat) {
    && w.queue <= v.queue
    && (forall n {:trigger w.states[n]} {:trigger v.states[n]} :: n in w.states ==> n in v.states && v.states[n] == w.states[n])
    && (forall i {:trigger v.queue[i]} :: |w.queue| <= i < |v.queue| ==> v.queue[i].distance == d + 1)
    && (forall n {:trigger v.states[n]} :: n in v.states && n !in w.states ==> v.states[n] == d + 1 && Queued(v.queue, n))
    && w.seen <= v.seen && w.edges <= v.edges
    && (w.truncated ==> v.truncated)
    && |v.queue| - |w.queue| == |v.states| - |w.states|
  }

  ghost predicate Queued(queue: seq<Item>, n: string) {
    exists i :: 0 <= i < |queue| && Id(queue[i]) == n
  }

  lemma GrewSelf(w: Walk, d: nat)
    ensures Grew(w, w, d)
  {
  }

  lemma GrewTrans(u: Walk, v: Walk, w: Walk, d: nat)
    requires Grew(u, v, d) && Grew(v, w, d)
    ensures Grew(u, w, d)
  {
    forall n | n in w.states && n !in u.states
      ensures w.states[n] == d + 1 && Queued(w.queue, n)
    {
      if n in v.states {
        assert v.states[n] == w.states[n];
        var i :| 0 <= i < |v.queue| && Id(v.queue[i]) == n;
        assert w.queue[i] == v.queue[i];
      }
    }
    forall i | |u.queue| <= i < |w.queue|
      ensures w.queue[i].distance == d + 1
    {
      if i < |v.queue| {
        assert w.queue[i] == v.queue[i];
      }
    }
    forall n | n in u.states
      ensures n in w.states && w.states[n] == u.states[n]
    {
      assert u.states[n] == v.states[n];
    }
  }

  ghost predicate InHand(l: Limits, item: Item, w: Walk) {
    item.distance < l.depth && Id(item) in w.states && w.states[Id(item)] == item.distance
  }

  function WithHidden(w: Walk, h: RefHit): Walk {
    w.(seen := w.seen + {EdgeKey(h)}, redacted := w.redacted + 1)
  }

  function WithEdge(w: Walk, h: RefHit): Walk {
    w.(seen := w.seen + {EdgeKey(h)}, edges := w.edges + [h], unresolved := w.unresolved + if h.resolved then 0 else 1)
  }

  function WithNode(w: Walk, from: string, next: Item): Walk {
    w.(states := w.states[Id(next) := next.distance], predecessor := w.predecessor[Id(next) := from], queue := w.queue + [next])
  }

  lemma HideEdge(refs: seq<RefHit>, o: Options, center: string, l: Limits, item: Item, w: Walk, h: RefHit)
    requires Sound(refs, o, center, l, w) && Linked(refs, o, l, w) && h in refs && EdgeKey(h) !in w.seen && h.source in o.hidden && Eligible(o, h)
    requires InHand(l, item, w) && Sees(o, h, Id(item))
    ensures Sound(refs, o, center, l, WithHidden(w, h)) && Grew(w, WithHidden(w, h), item.distance)
    ensures Linked(refs, o, l, WithHidden(w, h))
  {
    hide EdgeKey, Sound, Linked, Sees, WithHidden;
    HideSound(refs, o, center, l, w, h);
    HideGrew(w, h, item.distance);
    HideLinked(refs, o, l, item, w, h);
  }

  lemma HideSound(refs: seq<RefHit>, o: Options, center: string, l: Limits, w: Walk, h: RefHit)
    requires Sound(refs, o, center, l, w) && EdgeKey(h) !in w.seen
    ensures Sound(refs, o, center, l, WithHidden(w, h))
  {
    hide EdgeKey, Shown, Chained;
  }

  lemma HideGrew(w: Walk, h: RefHit, d: nat)
    ensures Grew(w, WithHidden(w, h), d)
  {
    hide EdgeKey;
  }

  lemma HideLinked(refs: seq<RefHit>, o: Options, l: Limits, item: Item, w: Walk, h: RefHit)
    requires Linked(refs, o, l, w) && h in refs && h.source in o.hidden && Eligible(o, h) && InHand(l, item, w) && Sees(o, h, Id(item))
    ensures Linked(refs, o, l, WithHidden(w, h))
  {
    hide EdgeKey, Sees, MetBy, Eligible;
    var v := WithHidden(w, h);
    forall key {:trigger Traced(refs, o, l, v, key)} | key in v.seen
      ensures Traced(refs, o, l, v, key)
    {
      if key in w.seen {
        assert Traced(refs, o, l, w, key);
      } else {
        assert Drawn(o, l, v.states, h);
      }
    }
    assert forall e :: e in v.edges ==> Drawn(o, l, w.states, e);
  }

  lemma KeepEdge(refs: seq<RefHit>, o: Options, center: string, l: Limits, item: Item, w: Walk, h: RefHit)
    requires Sound(refs, o, center, l, w) && Linked(refs, o, l, w) && h in refs && EdgeKey(h) !in w.seen && Shown(o, h) && |w.edges| < l.edges
    requires InHand(l, item, w) && Sees(o, h, Id(item))
    ensures Sound(refs, o, center, l, WithEdge(w, h)) && Grew(w, WithEdge(w, h), item.distance)
    ensures Linked(refs, o, l, WithEdge(w, h))
  {
    hide EdgeKey, Sound, Linked, Grew, Sees, WithEdge, Shown;
    KeepSound(refs, o, center, l, w, h);
    KeepGrew(w, h, item.distance);
    KeepLinked(refs, o, l, item, w, h);
  }

  lemma KeepSound(refs: seq<RefHit>, o: Options, center: string, l: Limits, w: Walk, h: RefHit)
    requires Sound(refs, o, center, l, w) && h in refs && EdgeKey(h) !in w.seen && Shown(o, h) && |w.edges| < l.edges
    ensures Sound(refs, o, center, l, WithEdge(w, h))
  {
    hide EdgeKey, Shown, Chained;
    assert WithEdge(w, h).edges[..|w.edges|] == w.edges;
  }

  lemma KeepGrew(w: Walk, h: RefHit, d: nat)
    ensures Grew(w, WithEdge(w, h), d)
  {
    hide EdgeKey;
  }

  lemma KeepLinked(refs: seq<RefHit>, o: Options, l: Limits, item: Item, w: Walk, h: RefHit)
    requires Linked(refs, o, l, w) && h in refs && Shown(o, h) && InHand(l, item, w) && Sees(o, h, Id(item))
    ensures Linked(refs, o, l, WithEdge(w, h))
  {
    hide EdgeKey, Sees, Eligible, Followed, Next;
    var v := WithEdge(w, h);
    assert Drawn(o, l, v.states, h);
    forall e {:trigger Drawn(o, l, v.states, e)} | e in v.edges
      ensures Drawn(o, l, v.states, e)
    {
      assert e in w.edges || e == h;
    }
    forall n {:trigger v.predecessor[n]} | n in v.predecessor
      ensures MetBy(o, v.edges, v.predecessor[n], n)
    {
      assert MetBy(o, w.edges, w.predecessor[n], n);
      var e :| e in w.edges && Sees(o, e, w.predecessor[n]) && Followed(o, e, w.predecessor[n]) && n == Next(o, e, w.predecessor[n]);
      assert e in v.edges;
    }
    forall key {:trigger Traced(refs, o, l, v, key)} | key in v.seen
      ensures Traced(refs, o, l, v, key)
    {
      if key in w.seen {
        TracedMore(refs, o, l, w, v, key);
      } else {
        assert h in v.edges;
      }
    }
  }

  lemma TracedMore(refs: seq<RefHit>, o: Options, l: Limits, w: Walk, v: Walk, key: string)
    requires Traced(refs, o, l, w, key) && w.edges <= v.edges && forall n :: n in w.states ==> n in v.states && v.states[n] == w.states[n]
    ensures Traced(refs, o, l, v, key)
  {
    hide EdgeKey, Sees, Eligible;
    var k :| k in refs && Eligible(o, k) && EdgeKey(k) == key && Drawn(o, l, w.states, k) && (k.source in o.hidden || k in w.edges);
    assert k in w.edges ==> k in v.edges;
    var n :| n in w.states && w.states[n] < l.depth && Sees(o, k, n);
    assert n in v.states && v.states[n] < l.depth;
  }

  lemma NextMet(o: Options, h: RefHit, current: string, states: map<string, nat>)
    requires Incident(o, h, current) && current in states
    requires Followed(o, h, current) ==> Next(o, h, current) in states
    ensures EndsMet(o, states, h)
  {
  }

  lemma MoreEdgesMet(o: Options, w: Walk, v: Walk, h: RefHit)
    requires EdgesMet(o, w) && v.edges == w.edges + [h] && (forall n :: n in w.states ==> n in v.states) && EndsMet(o, v.states, h)
    ensures EdgesMet(o, v)
  {
    forall e | e in v.edges
      ensures EndsMet(o, v.states, e)
    {
      assert e in w.edges || e == h;
    }
  }

  lemma AddNode(refs: seq<RefHit>, o: Options, center: string, l: Limits, item: Item, w: Walk, next: Item)
    requires Sound(refs, o, center, l, w) && InHand(l, item, w)
    requires Id(next) !in w.states && |w.states| < l.nodes && next.distance == item.distance + 1
    ensures Sound(refs, o, center, l, WithNode(w, Id(item), next)) && Grew(w, WithNode(w, Id(item), next), item.distance)
  {
    var v := WithNode(w, Id(item), next);
    assert Id(v.queue[|w.queue|]) == Id(next);
    assert Queued(v.queue, Id(next));
    assert |v.states| == |w.states| + 1;
  }

  lemma AddLinked(refs: seq<RefHit>, o: Options, l: Limits, item: Item, w: Walk, h: RefHit, next: Item)
    requires Linked(refs, o, l, w) && h in w.edges && Sees(o, h, Id(item)) && Followed(o, h, Id(item)) && Id(next) == Next(o, h, Id(item))
    requires Id(next) !in w.states
    ensures Linked(refs, o, l, WithNode(w, Id(item), next))
  {
    hide EdgeKey, Sees, Eligible, Followed, Next, Traced;
    var v := WithNode(w, Id(item), next);
    forall e {:trigger Drawn(o, l, v.states, e)} | e in v.edges
      ensures Drawn(o, l, v.states, e)
    {
      assert Drawn(o, l, w.states, e);
      var n :| n in w.states && w.states[n] < l.depth && Sees(o, e, n);
      assert n in v.states && v.states[n] == w.states[n];
    }
    forall n {:trigger v.predecessor[n]} | n in v.predecessor
      ensures MetBy(o, v.edges, v.predecessor[n], n)
    {
      if n != Id(next) {
        assert v.predecessor[n] == w.predecessor[n];
      }
    }
    forall key {:trigger Traced(refs, o, l, v, key)} | key in v.seen
      ensures Traced(refs, o, l, v, key)
    {
      assert Traced(refs, o, l, w, key);
      TracedMore(refs, o, l, w, v, key);
    }
  }

  /** A node nearer than the depth was met whose query was cut. */
  ghost predicate CutMet(refs: seq<RefHit>, l: Limits, states: map<string, nat>) {
    exists n :: n in states && CutNear(refs, l, states, n)
  }

  predicate CutNear(refs: seq<RefHit>, l: Limits, states: map<string, nat>, n: string)
    requires n in states
  {
    states[n] < l.depth && Cut(QueryRefs(refs, n))
  }

  /** The step over e from n was not taken. */
  predicate Untaken(o: Options, l: Limits, states: map<string, nat>, e: RefHit, n: string) {
    n in states && states[n] < l.depth && Sees(o, e, n) && Followed(o, e, n) && Next(o, e, n) !in states
  }

  /** The node limit is reached and a step over a kept edge was not taken. */
  ghost predicate Refused(o: Options, l: Limits, w: Walk) {
    |w.states| >= l.nodes && exists e, n {:trigger Untaken(o, l, w.states, e, n)} :: e in w.edges && Untaken(o, l, w.states, e, n)
  }

  /** Something was cut off: the edge limit is reached, a query was cut, or the node limit refused a step. */
  ghost predicate Curtailed(refs: seq<RefHit>, o: Options, l: Limits, w: Walk) {
    |w.edges| >= l.edges || CutMet(refs, l, w.states) || Refused(o, l, w)
  }

  ghost predicate Honest(refs: seq<RefHit>, o: Options, l: Limits, w: Walk) {
    w.truncated ==> Curtailed(refs, o, l, w)
  }

  /** What was cut off stays cut off: once the node limit refuses a step, no node is added any more. */
  lemma CurtailedStill(refs: seq<RefHit>, o: Options, center: string, l: Limits, w: Walk, v: Walk, d: nat)
    requires Sound(refs, o, center, l, w) && Sound(refs, o, center, l, v) && Grew(w, v, d)
    requires Curtailed(refs, o, l, w)
    ensures Curtailed(refs, o, l, v)
  {
    hide KeptEdges, CountUnresolved, TypedId, Sees, Followed, Next, QueryRefs, Cut;
    if CutMet(refs, l, w.states) {
      var n :| n in w.states && CutNear(refs, l, w.states, n);
      assert v.states[n] == w.states[n];
      assert CutNear(refs, l, v.states, n);
    } else if Refused(o, l, w) {
      SameNodes(w.states, v.states);
      var e, n :| e in w.edges && Untaken(o, l, w.states, e, n);
      assert v.states[n] == w.states[n];
      assert e in v.edges && Untaken(o, l, v.states, e, n);
    }
  }

  lemma SameNodes(a: map<string, nat>, b: map<string, nat>)
    requires (forall n :: n in a ==> n in b) && |b| <= |a|
    ensures a.Keys == b.Keys
  {
    if n :| n in b && n !in a {
      assert a.Keys <= b.Keys - {n};
      SubsetSize(a.Keys, b.Keys - {n});
    }
  }

  lemma {:induction false} SubsetSize<T>(a: set<T>, b: set<T>)
    requires a <= b
    ensures |a| <= |b|
  {
    if x :| x in a {
      SubsetSize(a - {x}, b - {x});
    }
  }

  lemma HonestStill(refs: seq<RefHit>, o: Options, center: string, l: Limits, w: Walk, v: Walk, d: nat)
    requires Sound(refs, o, center, l, w) && Sound(refs, o, center, l, v) && Grew(w, v, d)
    requires Honest(refs, o, l, w) && (v.truncated ==> w.truncated)
    ensures Honest(refs, o, l, v)
  {
    hide Sound, Grew, Curtailed;
    if v.truncated {
      CurtailedStill(refs, o, center, l, w, v, d);
    }
  }

  /** Where both ends of every kept edge have been met, no step was refused. */
  lemma NothingRefused(o: Options, l: Limits, w: Walk)
    requires EdgesMet(o, w)
    ensures !Refused(o, l, w)
  {
    hide Sees, TypedId;
    forall e, n | e in w.edges
      ensures !Untaken(o, l, w.states, e, n)
    {
      assert EndsMet(o, w.states, e);
    }
  }

  /** One reference of the node in hand: drop, skip, keep, and perhaps go on to its other end. */
  method TakeHit(refs: seq<RefHit>, o: Options, ghost center: string, l: Limits, item: Item, w: Walk, h: RefHit)
      returns (v: Walk, stop: bool)
    requires Sound(refs, o, center, l, w) && Linked(refs, o, l, w) && h in refs && InHand(l, item, w) && |w.edges| < l.edges
    requires Sees(o, h, Id(item)) && Honest(refs, o, l, w)
    ensures Sound(refs, o, center, l, v) && Linked(refs, o, l, v) && Grew(w, v, item.distance) && InHand(l, item, v)
    ensures Honest(refs, o, l, v) && if stop then v.truncated else |v.edges| < l.edges
    ensures Eligible(o, h) ==> EdgeKey(h) in v.seen
    ensures EdgesMet(o, w) && (Eligible(o, h) ==> Incident(o, h, Id(item))) && !v.truncated ==> EdgesMet(o, v)
  {
    hide Sound, Grew, Linked, EdgesMet, EdgeKey, Incident, EndsMet, TypedId, Sees, Honest;
    v, stop := w, false;
    GrewSelf(w, item.distance);
    if !Eligible(o, h) || EdgeKey(h) in v.seen {
      return;
    }
    if h.source in o.hidden {
      HideEdge(refs, o, center, l, item, w, h);
      v := v.(seen := v.seen + {EdgeKey(h)}, redacted := v.redacted + 1);
      SameEdgesMet(o, w, v);
      HonestStill(refs, o, center, l, w, v, item.distance);
      return;
    }
    KeepEdge(refs, o, center, l, item, w, h);
    v := v.(seen := v.seen + {EdgeKey(h)}, edges := v.edges + [h]);
    if !h.resolved {
      v := v.(unresolved := v.unresolved + 1);
    }
    assert v == WithEdge(w, h);
    if |v.edges| >= l.edges {
      Truncate(refs, o, center, l, item.distance, w, v);
      v := v.(truncated := true);
      stop := true;
      FullIsHonest(refs, o, l, v);
      return;
    }
    HonestStill(refs, o, center, l, w, v, item.distance);
    v := GoOn(refs, o, center, l, item, w, v, h);
  }

  lemma FullIsHonest(refs: seq<RefHit>, o: Options, l: Limits, w: Walk)
    requires |w.edges| >= l.edges
    ensures Honest(refs, o, l, w)
  {
  }

  lemma RefusedIsHonest(refs: seq<RefHit>, o: Options, l: Limits, item: Item, w: Walk, h: RefHit)
    requires InHand(l, item, w) && |w.states| >= l.nodes && h in w.edges && Sees(o, h, Id(item)) && Followed(o, h, Id(item))
    requires Next(o, h, Id(item)) !in w.states
    ensures Honest(refs, o, l, w)
  {
    hide Sees, Followed, Next, TypedId;
    assert Untaken(o, l, w.states, h, Id(item));
  }

  lemma CutIsHonest(refs: seq<RefHit>, o: Options, l: Limits, item: Item, w: Walk)
    requires InHand(l, item, w) && Cut(QueryRefs(refs, Id(item)))
    ensures Honest(refs, o, l, w)
  {
    hide QueryRefs, Cut, TypedId;
    assert CutNear(refs, l, w.states, Id(item));
  }

  lemma SameEdgesMet(o: Options, w: Walk, v: Walk)
    requires v.edges == w.edges && v.states == w.states
    ensures EdgesMet(o, w) ==> EdgesMet(o, v)
  {
  }

  /** Goes on to the other end of an edge just kept, unless it is unresolved, already met or over the node limit. */
  method GoOn(refs: seq<RefHit>, o: Options, ghost center: string, l: Limits, item: Item, ghost w: Walk, kept: Walk, h: RefHit)
      returns (v: Walk)
    requires Sound(refs, o, center, l, w) && InHand(l, item, w) && Sees(o, h, Id(item))
    requires kept == WithEdge(w, h) && Sound(refs, o, center, l, kept) && Linked(refs, o, l, kept) && Grew(w, kept, item.distance)
    requires Honest(refs, o, l, kept)
    ensures Sound(refs, o, center, l, v) && Linked(refs, o, l, v) && Grew(w, v, item.distance) && InHand(l, item, v)
    ensures Honest(refs, o, l, v)
    ensures v.edges == kept.edges && v.seen == kept.seen
    ensures Followed(o, h, Id(item)) && !v.truncated ==> Next(o, h, Id(item)) in v.states
    ensures EdgesMet(o, w) && Incident(o, h, Id(item)) && !v.truncated ==> EdgesMet(o, v)
  {
    hide Sound, Grew, Linked, EdgesMet, EdgeKey, Incident, EndsMet, TypedId, Sees, Honest;
    v := kept;
    var current := Id(item);
    var next, nextItem := To(h), Item(h.kind, h.name, item.distance + 1);
    if o.direction.Callers? || (o.direction.Both? && current == To(h)) {
      next, nextItem := From(h), Item(h.fromType, h.fromName, item.distance + 1);
    }
    assert next == Id(nextItem) == Next(o, h, current);
    if !h.resolved && next == To(h) {
    } else if next in v.states {
    } else if |v.states| >= l.nodes {
      Truncate(refs, o, center, l, item.distance, w, v);
      v := v.(truncated := true);
      RefusedIsHonest(refs, o, l, item, v, h);
    } else {
      AddNode(refs, o, center, l, item, v, nextItem);
      GrewTrans(w, v, WithNode(v, current, nextItem), item.distance);
      assert h in v.edges;
      AddLinked(refs, o, l, item, v, h, nextItem);
      v := v.(states := v.states[next := item.distance + 1], predecessor := v.predecessor[next := current],
              queue := v.queue + [nextItem]);
      HonestStill(refs, o, center, l, kept, v, item.distance);
    }
    if EdgesMet(o, w) && Incident(o, h, current) && !v.truncated {
      NextMet(o, h, current, v.states);
      MoreEdgesMet(o, w, v, h);
    }
  }

  lemma Truncate(refs: seq<RefHit>, o: Options, center: string, l: Limits, d: nat, w: Walk, v: Walk)
    requires Sound(refs, o, center, l, v) && Linked(refs, o, l, v) && Grew(w, v, d)
    ensures Sound(refs, o, center, l, v.(truncated := true)) && Grew(w, v.(truncated := true), d)
    ensures Linked(refs, o, l, v.(truncated := true))
  {
    hide Sound, Linked, Grew;
    SoundCut(refs, o, center, l, v);
    GrewCut(w, v, d);
    LinkedSame(refs, o, l, v, v.(truncated := true));
  }

  lemma SoundCut(refs: seq<RefHit>, o: Options, center: string, l: Limits, v: Walk)
    requires Sound(refs, o, center, l, v)
    ensures Sound(refs, o, center, l, v.(truncated := true))
  {
    hide Chained, KeptEdges, CountUnresolved, TypedId;
  }

  lemma GrewCut(w: Walk, v: Walk, d: nat)
    requires Grew(w, v, d)
    ensures Grew(w, v.(truncated := true), d)
  {
    hide TypedId;
  }

  lemma LinkedSame(refs: seq<RefHit>, o: Options, l: Limits, w: Walk, v: Walk)
    requires Linked(refs, o, l, w)
    requires v.edges == w.edges && v.states == w.states && v.seen == w.seen && v.predecessor == w.predecessor
    ensures Linked(refs, o, l, v)
  {
    hide EdgeKey, Drawn, MetBy, Eligible;
    forall key {:trigger Traced(refs, o, l, v, key)} | key in v.seen
      ensures Traced(refs, o, l, v, key)
    {
      assert Traced(refs, o, l, w, key);
    }
  }

  /** Every node is as near as the walk says, by steps from typed nodes. */
  lemma {:induction false} MetTyped(refs: seq<RefHit>, o: Options, center: string, l: Limits, w: Walk, n: string)
    requires Sound(refs, o, center, l, w) && Linked(refs, o, l, w) && Quiet(refs, o, center, l) && n in w.states
    ensures TypedWithin(refs, o, center, n, w.states[n])
    decreases w.states[n]
  {
    hide Sees, Incident, Followed, Next, EdgeKey, Quiet, TypedWithin, Step, Linked;
    if n == center {
      NoStep(refs, o, center, n);
    } else {
      var c := w.predecessor[n];
      MetTyped(refs, o, center, l, w, c);
      MetStep(refs, o, center, l, w, n);
      OneTypedStep(refs, o, center, c, w.states[c], n);
    }
  }

  lemma MetStep(refs: seq<RefHit>, o: Options, center: string, l: Limits, w: Walk, n: string)
    requires Sound(refs, o, center, l, w) && Linked(refs, o, l, w) && Quiet(refs, o, center, l) && n in w.predecessor
    requires TypedWithin(refs, o, center, w.predecessor[n], w.states[w.predecessor[n]])
    ensures Typed(w.predecessor[n]) && Step(refs, o, w.predecessor[n], n)
  {
    hide Sees, Incident, Followed, Next, EdgeKey, Quiet, TypedWithin, Drawn, Traced;
    var c := w.predecessor[n];
    assert MetBy(o, w.edges, c, n);
    var e :| e in w.edges && Sees(o, e, c) && Followed(o, e, c) && n == Next(o, e, c);
    assert w.states[n] == w.states[c] + 1 <= Max(0, l.depth);
    QuietHit(refs, o, center, l, c, w.states[c], e);
    assert StepBy(refs, o, c, n, e);
  }

  lemma DrawnInReach(refs: seq<RefHit>, o: Options, center: string, l: Limits, w: Walk, h: RefHit)
    requires Sound(refs, o, center, l, w) && Linked(refs, o, l, w) && Quiet(refs, o, center, l)
    requires h in refs && Eligible(o, h) && Drawn(o, l, w.states, h)
    ensures InTypedReach(refs, o, center, l, h)
  {
    hide Sound, Linked, Quiet, Sees, Incident, Eligible;
    var n :| n in w.states && w.states[n] < l.depth && Sees(o, h, n);
    MetTyped(refs, o, center, l, w, n);
    QuietHit(refs, o, center, l, n, w.states[n], h);
  }

  /** Where the keys tell calls apart, a shown call in reach whose key has been seen is kept. */
  lemma SeenIsKept(refs: seq<RefHit>, o: Options, center: string, l: Limits, w: Walk, h: RefHit) returns (e: RefHit)
    requires Sound(refs, o, center, l, w) && Linked(refs, o, l, w) && Clear(refs, o, center, l)
    requires InView(refs, o, center, l, h) && EdgeKey(h) in w.seen
    ensures e in w.edges && SameCall(e, h)
  {
    hide EdgeKey, Sound, Quiet, InTypedReach, Drawn, From, To;
    assert Traced(refs, o, l, w, EdgeKey(h));
    e :| e in refs && Eligible(o, e) && EdgeKey(e) == EdgeKey(h) && Drawn(o, l, w.states, e) && (e.source in o.hidden || e in w.edges);
    DrawnInReach(refs, o, center, l, w, e);
  }

  /** Every call at a typed node is kept and, if followed, leads to a node met within one step more. */
  ghost predicate Explored(refs: seq<RefHit>, o: Options, w: Walk, current: string)
    requires current in w.states
  {
    Typed(current) ==> forall h {:trigger Kept(w.edges, h)} :: h in refs && Shown(o, h) && Incident(o, h, current) ==>
      Kept(w.edges, h) && (Followed(o, h, current) ==> NearBy(w.states, Next(o, h, current), w.states[current] + 1))
  }

  ghost predicate NearBy(states: map<string, nat>, n: string, k: nat) {
    n in states && states[n] <= k
  }

  lemma AllSeen(refs: seq<RefHit>, o: Options, center: string, l: Limits, w: Walk, item: Item)
    requires Sound(refs, o, center, l, w) && Linked(refs, o, l, w) && Clear(refs, o, center, l) && EdgesMet(o, w)
    requires InHand(l, item, w) && !Cut(QueryRefs(refs, Id(item)))
    requires forall h :: h in Hits(o, QueryRefs(refs, Id(item))) && Eligible(o, h) ==> EdgeKey(h) in w.seen
    requires forall n :: n in w.states ==> w.states[n] <= item.distance + 1
    ensures Explored(refs, o, w, Id(item))
  {
    hide EdgeKey, Sound, Linked, Clear, QueryRefs, Hits, Sees, TypedId, TypedWithin;
    var current := Id(item);
    if Typed(current) {
      MetTypedIn(refs, o, center, l, w, current);
      forall h {:trigger Kept(w.edges, h)} | h in refs && Shown(o, h) && Incident(o, h, current)
        ensures Kept(w.edges, h) && (Followed(o, h, current) ==> NearBy(w.states, Next(o, h, current), w.states[current] + 1))
      {
        TypedSees(o, h, current);
        HitsAreSeen(refs, o, current, h);
        assert InView(refs, o, center, l, h);
        var e := SeenIsKept(refs, o, center, l, w, h);
        EndsOfSame(o, w.states, e, h, current);
      }
    }
  }

  lemma MetTypedIn(refs: seq<RefHit>, o: Options, center: string, l: Limits, w: Walk, n: string)
    requires Sound(refs, o, center, l, w) && Linked(refs, o, l, w) && Clear(refs, o, center, l) && n in w.states
    ensures TypedWithin(refs, o, center, n, w.states[n])
  {
    MetTyped(refs, o, center, l, w, n);
  }

  lemma EndsOfSame(o: Options, states: map<string, nat>, e: RefHit, h: RefHit, current: string)
    requires SameCall(e, h) && EndsMet(o, states, e) && Incident(o, h, current)
    ensures Followed(o, h, current) ==> Next(o, h, current) in states
  {
    hide EdgeKey;
  }

  lemma Near(w: Walk, v: Walk, d: nat)
    requires Grew(w, v, d) && forall n :: n in w.states ==> w.states[n] <= d + 1
    ensures forall n :: n in v.states ==> v.states[n] <= d + 1
  {
    forall n | n in v.states
      ensures v.states[n] <= d + 1
    {
      if n in w.states {
        assert v.states[n] == w.states[n];
      }
    }
  }

  /** The node in hand: query its references and take them one by one until an edge limit stops the loop. */
  method Expand(refs: seq<RefHit>, o: Options, ghost center: string, l: Limits, item: Item, w: Walk) returns (v: Walk)
    requires Sound(refs, o, center, l, w) && Linked(refs, o, l, w) && InHand(l, item, w) && |w.edges| < l.edges
    requires Honest(refs, o, l, w) && forall n :: n in w.states ==> w.states[n] <= item.distance + 1
    ensures Sound(refs, o, center, l, v) && Linked(refs, o, l, v) && Grew(w, v, item.distance) && InHand(l, item, v)
    ensures Honest(refs, o, l, v) && (|v.edges| >= l.edges || Cut(QueryRefs(refs, Id(item))) ==> v.truncated)
    ensures forall n :: n in v.states ==> v.states[n] <= item.distance + 1
    ensures !v.truncated && Quiet(refs, o, center, l) && EdgesMet(o, w) ==> EdgesMet(o, v)
    ensures !v.truncated && Clear(refs, o, center, l) && EdgesMet(o, w) ==> Explored(refs, o, v, Id(item))
  {
    hide Sound, Grew, Linked, EdgesMet, Quiet, NoneMasked, KeysTell, Explored, EdgeKey, Incident, QueryRefs, Hits, Sees, TypedId, Honest;
    var q := QueryRefs(refs, Id(item));
    ghost var quiet := Quiet(refs, o, center, l) && EdgesMet(o, w);
    v := w;
    GrewSelf(w, item.distance);
    if Cut(q) {
      Truncate(refs, o, center, l, item.distance, w, v);
      v := v.(truncated := true);
      CutIsHonest(refs, o, l, item, v);
    }
    var hits := Hits(o, q);
    var stop := false;
    SameEdgesMet(o, w, v);
    for i := 0 to |hits|
      invariant Sound(refs, o, center, l, v) && Linked(refs, o, l, v) && Grew(w, v, item.distance) && InHand(l, item, v)
      invariant !stop && |v.edges| < l.edges && Honest(refs, o, l, v)
      invariant !v.truncated && quiet ==> EdgesMet(o, v)
      invariant forall k :: 0 <= k < i && Eligible(o, hits[k]) ==> EdgeKey(hits[k]) in v.seen
      invariant Cut(q) ==> v.truncated
    {
      ghost var u := v;
      HitsAreSeen(refs, o, Id(item), hits[i]);
      if quiet && Eligible(o, hits[i]) {
        QuietAtItem(refs, o, center, l, item, v, hits[i]);
      }
      v, stop := TakeHit(refs, o, center, l, item, v, hits[i]);
      GrewMore(u, v, item.distance);
      GrewTrans(w, u, v, item.distance);
      if stop {
        break;
      }
    }
    Near(w, v, item.distance);
    if !v.truncated && quiet && Clear(refs, o, center, l) {
      AllSeen(refs, o, center, l, v, item);
    }
  }

  lemma QuietAtItem(refs: seq<RefHit>, o: Options, center: string, l: Limits, item: Item, w: Walk, h: RefHit)
    requires Sound(refs, o, center, l, w) && Linked(refs, o, l, w) && Quiet(refs, o, center, l) && InHand(l, item, w)
    requires h in refs && Eligible(o, h) && Sees(o, h, Id(item))
    ensures Incident(o, h, Id(item))
  {
    hide Sound, Linked, Sees, Incident, Eligible, TypedId;
    MetTyped(refs, o, center, l, w, Id(item));
    QuietHit(refs, o, center, l, Id(item), item.distance, h);
  }

  lemma GrewMore(w: Walk, v: Walk, d: nat)
    requires Grew(w, v, d)
    ensures w.seen <= v.seen && (w.truncated ==> v.truncated)
    ensures |v.queue| - |w.queue| == |v.states| - |w.states|
  {
  }

  /** What remains to be done: nodes still queued, in order of their distances. */
  ghost predicate QueueOrdered(w: Walk) {
    && (forall i, j :: 0 <= i < j < |w.queue| ==> w.queue[i].distance <= w.queue[j].distance)
    && (w.queue != [] ==> forall n :: n in w.states ==> w.states[n] <= w.queue[0].distance + 1)
  }

  /** A node not queued is as far as the walk goes or has been explored. */
  ghost predicate Frontier(refs: seq<RefHit>, o: Options, l: Limits, w: Walk, queue: seq<Item>) {
    forall n {:trigger w.states[n]} :: n in w.states ==> Queued(queue, n) || w.states[n] >= l.depth || Explored(refs, o, w, n)
  }

  /** A query of a node met was cut only if the flag says so or the node is still queued. */
  ghost predicate CutsTold(refs: seq<RefHit>, l: Limits, w: Walk, queue: seq<Item>) {
    forall n {:trigger w.states[n]} :: n in w.states && CutNear(refs, l, w.states, n) ==> w.truncated || Queued(queue, n)
  }

  lemma CutsMove(refs: seq<RefHit>, l: Limits, item: Item, rest: seq<Item>, w: Walk, v: Walk)
    requires CutsTold(refs, l, w, [item] + rest) && w.queue == rest && Grew(w, v, item.distance) && Id(item) in v.states
    requires CutNear(refs, l, v.states, Id(item)) ==> v.truncated
    ensures CutsTold(refs, l, v, v.queue)
  {
    hide QueryRefs, Cut, TypedId;
    forall n {:trigger v.states[n]} | n in v.states && CutNear(refs, l, v.states, n) && !v.truncated
      ensures Queued(v.queue, n)
    {
      if n in w.states {
        assert w.states[n] == v.states[n];
        var i :| 0 <= i < |[item] + rest| && Id(([item] + rest)[i]) == n;
        assert Id(v.queue[i - 1]) == n;
      }
    }
  }

  lemma StillExplored(refs: seq<RefHit>, o: Options, w: Walk, v: Walk, d: nat, n: string)
    requires Grew(w, v, d) && n in w.states && n in v.states && Explored(refs, o, w, n)
    ensures Explored(refs, o, v, n)
  {
    hide SameCall, Incident, Followed, Next, Shown;
    assert v.states[n] == w.states[n];
    if Typed(n) {
      forall h {:trigger Kept(v.edges, h)} | h in refs && Shown(o, h) && Incident(o, h, n)
        ensures Kept(v.edges, h) && (Followed(o, h, n) ==> NearBy(v.states, Next(o, h, n), v.states[n] + 1))
      {
        assert Kept(w.edges, h);
        var e :| e in w.edges && SameCall(e, h);
        assert e in v.edges;
        if Followed(o, h, n) {
          assert NearBy(w.states, Next(o, h, n), w.states[n] + 1);
          assert v.states[Next(o, h, n)] == w.states[Next(o, h, n)];
        }
      }
    }
  }

  lemma FrontierMoves(refs: seq<RefHit>, o: Options, l: Limits, item: Item, rest: seq<Item>, w: Walk, v: Walk)
    requires Frontier(refs, o, l, w, [item] + rest) && w.queue == rest && Grew(w, v, item.distance)
    requires Id(item) in w.states && Id(item) in v.states
    requires v.states[Id(item)] >= l.depth || Explored(refs, o, v, Id(item))
    ensures Frontier(refs, o, l, v, v.queue)
  {
    forall n {:trigger v.states[n]} | n in v.states
      ensures Queued(v.queue, n) || v.states[n] >= l.depth || Explored(refs, o, v, n)
    {
      if n in w.states && n != Id(item) {
        assert w.states[n] == v.states[n];
        if Queued([item] + rest, n) {
          var i :| 0 <= i < |[item] + rest| && Id(([item] + rest)[i]) == n;
          assert Id(v.queue[i - 1]) == n;
        } else if w.states[n] < l.depth {
          StillExplored(refs, o, w, v, item.distance, n);
        }
      }
    }
  }

  lemma QueueMoves(w: Walk, v: Walk, item: Item, rest: seq<Item>)
    requires QueueOrdered(w.(queue := [item] + rest)) && w.queue == rest && Grew(w, v, item.distance)
    requires forall i :: 0 <= i < |rest| ==> Id(rest[i]) in w.states && w.states[Id(rest[i])] == rest[i].distance
    ensures QueueOrdered(v)
  {
    var q := [item] + rest;
    assert q[0] == item;
    assert forall i :: 0 <= i < |rest| ==> rest[i] == q[i + 1] && item.distance <= rest[i].distance <= item.distance + 1;
    Near(w, v, item.distance);
    forall i, j | 0 <= i < j < |v.queue|
      ensures v.queue[i].distance <= v.queue[j].distance
    {
      if i < |rest| {
        assert v.queue[i] == q[i + 1];
      }
      if j < |rest| {
        assert v.queue[j] == q[j + 1];
      }
    }
    if v.queue != [] {
      assert v.queue[0].distance >= item.distance by {
        if |rest| > 0 {
          assert v.queue[0] == rest[0];
        }
      }
    }
  }

  function Start(centerType: string, centerName: string): Walk {
    var center := TypedId(centerType, centerName);
    Walk(map[center := 0], [Item(centerType, centerName, 0)], map[], {}, [], false, 0, 0)
  }

  lemma StartSound(refs: seq<RefHit>, o: Options, l: Limits, centerType: string, centerName: string)
    ensures var w := Start(centerType, centerName);
            && Sound(refs, o, TypedId(centerType, centerName), l, w) && QueueOrdered(w) && Frontier(refs, o, l, w, w.queue)
            && EdgesMet(o, w) && Linked(refs, o, l, w) && Honest(refs, o, l, w) && CutsTold(refs, l, w, w.queue) && w.queue != []
  {
    var w := Start(centerType, centerName);
    assert Id(w.queue[0]) == TypedId(centerType, centerName);
    assert |w.states| == 1;
  }

  lemma PopFacts(refs: seq<RefHit>, o: Options, center: string, l: Limits, w: Walk)
    requires Sound(refs, o, center, l, w) && Linked(refs, o, l, w) && QueueOrdered(w) && w.queue != []
    ensures var item, v := w.queue[0], w.(queue := w.queue[1..]);
            && Sound(refs, o, center, l, v) && Linked(refs, o, l, v) && w.queue == [item] + v.queue
            && Id(item) in v.states && v.states[Id(item)] == item.distance
            && (forall n :: n in v.states ==> v.states[n] <= item.distance + 1)
            && (forall i :: 0 <= i < |v.queue| ==> Id(v.queue[i]) in v.states && v.states[Id(v.queue[i])] == v.queue[i].distance)
            && (EdgesMet(o, w) ==> EdgesMet(o, v))
            && (Frontier(refs, o, l, w, w.queue) ==> Frontier(refs, o, l, v, [item] + v.queue))
            && (Honest(refs, o, l, w) ==> Honest(refs, o, l, v))
            && (CutsTold(refs, l, w, w.queue) ==> CutsTold(refs, l, v, [item] + v.queue))
  {
    hide EdgeKey, Linked, Shown, Eligible, EndsMet, Typed, Honest, CutsTold;
    var item, v := w.queue[0], w.(queue := w.queue[1..]);
    assert w.queue == [item] + v.queue;
    LinkedSame(refs, o, l, w, v);
    CutsSame(refs, o, l, w, v, w.queue);
    if Frontier(refs, o, l, w, w.queue) {
      forall n {:trigger v.states[n]} | n in v.states
        ensures Queued(w.queue, n) || v.states[n] >= l.depth || Explored(refs, o, v, n)
      {
        assert w.states[n] == v.states[n];
        if w.states[n] < l.depth && Explored(refs, o, w, n) {
          SameExplored(refs, o, w, v, n);
        }
      }
    }
  }

  lemma CutsSame(refs: seq<RefHit>, o: Options, l: Limits, w: Walk, v: Walk, queue: seq<Item>)
    requires v.states == w.states && v.edges == w.edges && v.truncated == w.truncated
    ensures Honest(refs, o, l, w) ==> Honest(refs, o, l, v)
    ensures CutsTold(refs, l, w, queue) ==> CutsTold(refs, l, v, queue)
  {
    hide CutNear, Untaken, Queued;
    forall n {:trigger v.states[n]} | CutsTold(refs, l, w, queue) && n in v.states && CutNear(refs, l, v.states, n)
      ensures v.truncated || Queued(queue, n)
    {
      assert w.states[n] == v.states[n];
    }
  }

  lemma SameExplored(refs: seq<RefHit>, o: Options, w: Walk, v: Walk, n: string)
    requires n in w.states && v.states == w.states && v.edges == w.edges && Explored(refs, o, w, n)
    ensures Explored(refs, o, v, n)
  {
  }

  /** The nodes met are exactly those within the depth, each at its shortest distance; the edges kept are exactly the shown
      calls at nodes nearer than the depth, call by call. */
  ghost predicate Exact(refs: seq<RefHit>, o: Options, center: string, l: Limits, w: Walk) {
    && (forall n :: n in w.states ==> Within(refs, o, center, n, w.states[n]))
    && (forall n, k: nat {:trigger Within(refs, o, center, n, k)} :: k <= Max(0, l.depth) && Within(refs, o, center, n, k) ==> NearBy(w.states, n, k))
    && (forall h {:trigger Kept(w.edges, h)} :: h in refs && Shown(o, h) && InReach(refs, o, center, l, h) ==> Kept(w.edges, h))
    && (forall e {:trigger InReach(refs, o, center, l, e)} :: e in w.edges ==> InReach(refs, o, center, l, e))
  }

  /** The same for what typed nodes lead to. */
  ghost predicate TypedExact(refs: seq<RefHit>, o: Options, center: string, l: Limits, w: Walk) {
    && (forall n :: n in w.states ==> TypedWithin(refs, o, center, n, w.states[n]))
    && (forall n, k: nat {:trigger TypedWithin(refs, o, center, n, k)} :: k <= Max(0, l.depth) && TypedWithin(refs, o, center, n, k) ==> NearBy(w.states, n, k))
    && (forall h {:trigger Kept(w.edges, h)} :: InView(refs, o, center, l, h) ==> Kept(w.edges, h))
    && (forall e {:trigger InTypedReach(refs, o, center, l, e)} :: e in w.edges ==> InTypedReach(refs, o, center, l, e))
  }

  /** Every node within k steps from typed nodes has been met at distance at most k. */
  lemma {:induction false} WithinMet(refs: seq<RefHit>, o: Options, center: string, l: Limits, w: Walk, n: string, k: nat)
    requires Chained(center, w.states, w.predecessor) && k <= Max(0, l.depth)
    requires forall c {:trigger Explored(refs, o, w, c)} :: c in w.states && w.states[c] < l.depth ==> Explored(refs, o, w, c)
    requires TypedWithin(refs, o, center, n, k)
    ensures n in w.states && w.states[n] <= k
    decreases k
  {
    hide Explored, TypedWithin, StepBy, Typed;
    if k == 0 {
      NoStep(refs, o, center, n);
    } else if TypedWithin(refs, o, center, n, k - 1) {
      WithinMet(refs, o, center, l, w, n, k - 1);
    } else {
      var c, h := LastTypedStep(refs, o, center, n, k);
      WithinMet(refs, o, center, l, w, c, k - 1);
      assert Explored(refs, o, w, c);
      StepMet(refs, o, w, c, n, h);
    }
  }

  lemma StepMet(refs: seq<RefHit>, o: Options, w: Walk, c: string, n: string, h: RefHit)
    requires c in w.states && Typed(c) && Explored(refs, o, w, c) && StepBy(refs, o, c, n, h)
    ensures n in w.states && w.states[n] <= w.states[c] + 1
  {
    hide SameCall, Incident, Followed, Next, Shown;
    assert Kept(w.edges, h);
  }

  lemma ExploredExact(refs: seq<RefHit>, o: Options, center: string, l: Limits, w: Walk)
    requires Sound(refs, o, center, l, w) && Linked(refs, o, l, w) && Quiet(refs, o, center, l)
    requires forall c {:trigger Explored(refs, o, w, c)} :: c in w.states && w.states[c] < l.depth ==> Explored(refs, o, w, c)
    ensures TypedExact(refs, o, center, l, w)
  {
    hide Quiet, Linked, Explored, TypedWithin, Shown, Drawn, EdgeKey, InTypedReach;
    forall n | n in w.states
      ensures TypedWithin(refs, o, center, n, w.states[n])
    {
      MetTyped(refs, o, center, l, w, n);
    }
    forall n, k: nat {:trigger TypedWithin(refs, o, center, n, k)} | k <= Max(0, l.depth) && TypedWithin(refs, o, center, n, k)
      ensures NearBy(w.states, n, k)
    {
      WithinMet(refs, o, center, l, w, n, k);
    }
    forall h {:trigger Kept(w.edges, h)} | InView(refs, o, center, l, h)
      ensures Kept(w.edges, h)
    {
      ReachKept(refs, o, center, l, w, h);
    }
    forall e {:trigger InTypedReach(refs, o, center, l, e)} | e in w.edges
      ensures InTypedReach(refs, o, center, l, e)
    {
      EdgeInReach(refs, o, center, l, w, e);
    }
  }

  lemma ReachKept(refs: seq<RefHit>, o: Options, center: string, l: Limits, w: Walk, h: RefHit)
    requires Chained(center, w.states, w.predecessor) && InView(refs, o, center, l, h)
    requires forall c {:trigger Explored(refs, o, w, c)} :: c in w.states && w.states[c] < l.depth ==> Explored(refs, o, w, c)
    ensures Kept(w.edges, h)
  {
    hide TypedWithin, Incident, SameCall, Shown;
    var n, k: nat :| k < l.depth && TypedWithin(refs, o, center, n, k) && Typed(n) && Incident(o, h, n);
    WithinMet(refs, o, center, l, w, n, k);
    assert Explored(refs, o, w, n);
  }

  lemma EdgeInReach(refs: seq<RefHit>, o: Options, center: string, l: Limits, w: Walk, e: RefHit)
    requires Sound(refs, o, center, l, w) && Linked(refs, o, l, w) && Quiet(refs, o, center, l) && e in w.edges
    ensures e in refs && Shown(o, e) && InTypedReach(refs, o, center, l, e)
  {
    hide Quiet, EdgeKey, InTypedReach;
    assert Drawn(o, l, w.states, e);
    DrawnInReach(refs, o, center, l, w, e);
  }

  // What exactness asks of a table.

  /** Two kept edges with one key are one edge. */
  lemma KeptOnce(refs: seq<RefHit>, o: Options, center: string, l: Limits, w: Walk, a: RefHit, b: RefHit)
    requires Sound(refs, o, center, l, w) && a in w.edges && b in w.edges && EdgeKey(a) == EdgeKey(b)
    ensures a == b
  {
    hide EdgeKey, Bounded, Chained;
    var i :| 0 <= i < |w.edges| && w.edges[i] == a;
    var j :| 0 <= j < |w.edges| && w.edges[j] == b;
  }

  /** An exact walk shows that the keys tell the calls in reach apart. */
  lemma ExactKeysTell(refs: seq<RefHit>, o: Options, center: string, l: Limits, w: Walk)
    requires Sound(refs, o, center, l, w) && Exact(refs, o, center, l, w)
    ensures KeysTell(refs, o, center, l)
  {
    hide Sound, InReach, InTypedReach, Shown, EdgeKey, From, To, Within;
    forall h, k | InView(refs, o, center, l, h) && InView(refs, o, center, l, k) && EdgeKey(h) == EdgeKey(k)
      ensures SameCall(h, k)
    {
      TypedReachIsReach(refs, o, center, l, h);
      TypedReachIsReach(refs, o, center, l, k);
      assert Kept(w.edges, h) && Kept(w.edges, k);
      var d :| d in w.edges && SameCall(d, h);
      var e :| e in w.edges && SameCall(e, k);
      KeptOnce(refs, o, center, l, w, d, e);
    }
  }

  lemma HarmlessExact(refs: seq<RefHit>, o: Options, center: string, l: Limits, w: Walk)
    requires TypedExact(refs, o, center, l, w) && Harmless(refs, o, center, l)
    ensures Exact(refs, o, center, l, w)
  {
    hide Harmless, Within, TypedWithin, InReach, InTypedReach, Shown, Kept, NearBy;
    forall n | n in w.states
      ensures Within(refs, o, center, n, w.states[n])
    {
      TypedIsWithin(refs, o, center, n, w.states[n]);
    }
    forall n, k: nat {:trigger Within(refs, o, center, n, k)} | k <= Max(0, l.depth) && Within(refs, o, center, n, k)
      ensures NearBy(w.states, n, k)
    {
      HarmlessWithin(refs, o, center, l, n, k);
    }
    forall h {:trigger Kept(w.edges, h)} | h in refs && Shown(o, h) && InReach(refs, o, center, l, h)
      ensures Kept(w.edges, h)
    {
      HarmlessReach(refs, o, center, l, h);
    }
    forall e {:trigger InReach(refs, o, center, l, e)} | e in w.edges
      ensures InReach(refs, o, center, l, e)
    {
      assert InTypedReach(refs, o, center, l, e);
      TypedReachIsReach(refs, o, center, l, e);
    }
  }

  lemma ExactHarmless(refs: seq<RefHit>, o: Options, center: string, l: Limits, w: Walk)
    requires TypedExact(refs, o, center, l, w) && Exact(refs, o, center, l, w)
    ensures Harmless(refs, o, center, l)
  {
    hide Within, TypedWithin, InReach, InTypedReach, Shown, Typed, Incident, Followed, Next, Kept, TypedExact, Exact;
    forall n, k: nat, h | k < l.depth && Within(refs, o, center, n, k) && !Typed(n) && h in refs && Shown(o, h) && Incident(o, h, n)
      ensures HarmlessAt(refs, o, center, l, n, k, h)
    {
      ExactCall(refs, o, center, l, w, n, k, h);
      if Followed(o, h, n) {
        ExactStep(refs, o, center, l, w, n, k, h);
      }
    }
  }

  lemma ExactCall(refs: seq<RefHit>, o: Options, center: string, l: Limits, w: Walk, n: string, k: nat, h: RefHit)
    requires TypedExact(refs, o, center, l, w) && Exact(refs, o, center, l, w)
    requires k < l.depth && Within(refs, o, center, n, k) && h in refs && Shown(o, h) && Incident(o, h, n)
    ensures InTypedReach(refs, o, center, l, h)
  {
    hide Within, TypedWithin, Shown, EdgeKey;
    assert InReach(refs, o, center, l, h);
    assert Kept(w.edges, h);
    var e :| e in w.edges && SameCall(e, h);
    assert InTypedReach(refs, o, center, l, e);
  }

  lemma ExactStep(refs: seq<RefHit>, o: Options, center: string, l: Limits, w: Walk, n: string, k: nat, h: RefHit)
    requires TypedExact(refs, o, center, l, w) && Exact(refs, o, center, l, w)
    requires k < l.depth && Within(refs, o, center, n, k) && h in refs && Shown(o, h) && Incident(o, h, n) && Followed(o, h, n)
    ensures TypedWithin(refs, o, center, Next(o, h, n), k + 1)
  {
    hide Within, TypedWithin, Shown, Incident, Followed, Next, InReach, InTypedReach, Kept;
    var x := Next(o, h, n);
    OneStep(refs, o, center, n, k, h);
    assert NearBy(w.states, x, k + 1);
    TypedWithinMore(refs, o, center, x, w.states[x], k + 1);
  }

  /** A walk one way and one step deep from an untyped center with a call that way is never exact, whatever the table. */
  lemma UntypedCenterNeverExact(refs: seq<RefHit>, o: Options, centerType: string, centerName: string, l: Limits, w: Walk, h: RefHit)
    requires EventType(centerType) && !PlainName(centerName) && !o.direction.Both? && l.depth == 1
    requires Sound(refs, o, TypedId(centerType, centerName), l, w) && Linked(refs, o, l, w)
    requires h in refs && Shown(o, h) && Incident(o, h, TypedId(centerType, centerName))
    ensures !Exact(refs, o, TypedId(centerType, centerName), l, w)
  {
    hide EdgeKey, Shown, TypedId, Sees, Incident;
    var center := TypedId(centerType, centerName);
    if Exact(refs, o, center, l, w) {
      CenterCallKept(refs, o, center, l, w, h);
      var e :| e in w.edges && SameCall(e, h);
      assert Drawn(o, l, w.states, e);
      var n :| n in w.states && w.states[n] < l.depth && Sees(o, e, n);
      assert n == center;
      OwnCallUnseen(o, centerType, centerName, h, e);
    }
  }

  lemma CenterCallKept(refs: seq<RefHit>, o: Options, center: string, l: Limits, w: Walk, h: RefHit)
    requires Exact(refs, o, center, l, w) && l.depth >= 1 && h in refs && Shown(o, h) && Incident(o, h, center)
    ensures Kept(w.edges, h)
  {
    hide Kept, Shown, Incident;
    NoStep(refs, o, center, center);
    assert InReach(refs, o, center, l, h);
  }

  /** Two calls of the center share a key, and each is the only way to its target: at least one target is never met. */
  lemma CollisionLosesNode(refs: seq<RefHit>, o: Options, center: string, l: Limits, w: Walk, a: RefHit, b: RefHit)
    requires Sound(refs, o, center, l, w) && Linked(refs, o, l, w) && o.direction.Callees?
    requires EdgeKey(a) == EdgeKey(b) && To(a) != To(b) && center != To(a) && center != To(b)
    requires (forall e :: e in refs && To(e) == To(a) ==> e == a) && forall e :: e in refs && To(e) == To(b) ==> e == b
    ensures To(a) !in w.states || To(b) !in w.states
  {
    hide EdgeKey, From, To, Sound, Linked;
    if To(a) in w.states && To(b) in w.states {
      KeptForTarget(refs, o, center, l, w, a);
      KeptForTarget(refs, o, center, l, w, b);
      KeptOnce(refs, o, center, l, w, a, b);
    }
  }

  lemma KeptForTarget(refs: seq<RefHit>, o: Options, center: string, l: Limits, w: Walk, a: RefHit)
    requires Sound(refs, o, center, l, w) && Linked(refs, o, l, w) && o.direction.Callees?
    requires To(a) in w.states && To(a) != center && forall e :: e in refs && To(e) == To(a) ==> e == a
    ensures a in w.edges
  {
    hide EdgeKey, From, To, Bounded, Drawn, Traced, Sees;
    assert MetBy(o, w.edges, w.predecessor[To(a)], To(a));
  }

  /** The flag is raised only where something was cut off, always at the edge limit or a cut query, and in a quiet table
      whenever the node limit refused a step. */
  ghost predicate TruncationTold(refs: seq<RefHit>, o: Options, center: string, l: Limits, w: Walk) {
    && (w.truncated ==> Curtailed(refs, o, l, w))
    && (|w.edges| >= l.edges || CutMet(refs, l, w.states) ==> w.truncated)
    && (Quiet(refs, o, center, l) && Curtailed(refs, o, l, w) ==> w.truncated)
  }

  lemma TruncationMeans(refs: seq<RefHit>, o: Options, center: string, l: Limits, w: Walk)
    requires Honest(refs, o, l, w) && CutsTold(refs, l, w, w.queue) && |w.queue| == 0
    requires |w.edges| >= l.edges ==> w.truncated
    requires Quiet(refs, o, center, l) && !w.truncated ==> EdgesMet(o, w)
    ensures TruncationTold(refs, o, center, l, w)
  {
    hide Quiet, CutNear, EdgesMet, Refused;
    if CutMet(refs, l, w.states) {
      var n :| n in w.states && CutNear(refs, l, w.states, n);
      assert !Queued(w.queue, n);
      assert w.truncated;
    }
    if EdgesMet(o, w) {
      NothingRefused(o, l, w);
    }
  }

  /** The columns of the rows kept: a named caller, events only unless on-actions are asked for, and no withheld source. */
  ghost predicate RowsAllowed(o: Options, edges: seq<RefHit>) {
    forall e :: e in edges ==>
      && e.fromName != "" && e.fromType in {"event", "on_action"} && e.kind in {"event", "on_action"} && e.source !in o.hidden
      && (!o.includeOnActions ==> e.fromType == "event" && e.kind == "event")
  }

  /** Unless on-actions are asked for, every node but the center is an event. */
  ghost predicate NodesAllowed(o: Options, center: string, states: map<string, nat>) {
    !o.includeOnActions ==> forall n :: n in states && n != center ==> "event:" <= n
  }

  /** A row that a chain may show touches, at the end the direction looks from, a plainly named node nearer than the depth. */
  ghost predicate RowAt(o: Options, l: Limits, states: map<string, nat>, h: RefHit, typ: string, name: string) {
    var n := typ + ":" + name;
    && RowShown(o, h) && typ in {"event", "on_action"} && name != "" && ':' !in name && n in states && states[n] < l.depth
    && ((!o.direction.Callees? && h.kind == typ && h.name == name) || (!o.direction.Callers? && h.fromType == typ && h.fromName == name))
  }

  /** The row is kept, column for column as far as a walk tells rows apart, and the node at its other end, if it may lead
      there, was met one step further at most. */
  ghost predicate RowTaken(o: Options, w: Walk, h: RefHit, n: string)
    requires n in w.states
  {
    && (exists e :: e in w.edges && SameColumns(e, h))
    && var from, to := h.fromType + ":" + h.fromName, h.kind + ":" + h.name;
    && (!o.direction.Callees? && n == to ==> from in w.states && w.states[from] <= w.states[n] + 1)
    && (!o.direction.Callers? && n == from && h.resolved ==> to in w.states && w.states[to] <= w.states[n] + 1)
  }

  /** Two rows agree on ends and resolution and, where no string of them holds a bar, on relation, phase and place. */
  ghost predicate SameColumns(e: RefHit, h: RefHit) {
    && (e.fromType, e.fromName, e.kind, e.name, e.resolved) == (h.fromType, h.fromName, h.kind, h.name, h.resolved)
    && (BarFree(e) && BarFree(h) ==> (e.relation, e.phase, e.path, e.line, e.column) == (h.relation, h.phase, h.path, h.line, h.column))
  }

  ghost predicate AllRowsTaken(refs: seq<RefHit>, o: Options, l: Limits, w: Walk) {
    forall h, typ, name {:trigger RowAt(o, l, w.states, h, typ, name)} :: h in refs && RowAt(o, l, w.states, h, typ, name) ==>
      RowTaken(o, w, h, typ + ":" + name)
  }

  lemma RowsAreAllowed(refs: seq<RefHit>, o: Options, center: string, l: Limits, w: Walk)
    requires Sound(refs, o, center, l, w) && Linked(refs, o, l, w)
    ensures RowsAllowed(o, w.edges) && NodesAllowed(o, center, w.states)
  {
    hide EdgeKey, Bounded, Drawn, Traced, Sees, CountUnresolved;
    if !o.includeOnActions {
      forall n | n in w.states && n != center
        ensures "event:" <= n
      {
        assert MetBy(o, w.edges, w.predecessor[n], n);
        var e :| e in w.edges && Sees(o, e, w.predecessor[n]) && Followed(o, e, w.predecessor[n]) && n == Next(o, e, w.predecessor[n]);
        assert Shown(o, e) && e.fromType == "event" && e.kind == "event";
        assert "event:" <= From(e) && "event:" <= To(e);
      }
    }
  }

  lemma RowsAreTaken(refs: seq<RefHit>, o: Options, l: Limits, w: Walk)
    requires forall c {:trigger Explored(refs, o, w, c)} :: c in w.states && w.states[c] < l.depth ==> Explored(refs, o, w, c)
    requires forall e :: e in w.edges ==> Shown(o, e)
    ensures AllRowsTaken(refs, o, l, w)
  {
    hide EdgeKey, Explored, RowTaken;
    forall h, typ, name {:trigger RowAt(o, l, w.states, h, typ, name)} | h in refs && RowAt(o, l, w.states, h, typ, name)
      ensures RowTaken(o, w, h, typ + ":" + name)
    {
      RowIsTaken(refs, o, l, w, h, typ, name);
    }
  }

  lemma RowIsTaken(refs: seq<RefHit>, o: Options, l: Limits, w: Walk, h: RefHit, typ: string, name: string)
    requires h in refs && RowAt(o, l, w.states, h, typ, name) && Explored(refs, o, w, typ + ":" + name)
    requires forall e :: e in w.edges ==> Shown(o, e)
    ensures RowTaken(o, w, h, typ + ":" + name)
  {
    hide EdgeKey;
    var n := typ + ":" + name;
    SplitPlain(typ, name);
    assert n == TypedId(typ, name) && Typed(n) && Incident(o, h, n);
    assert Kept(w.edges, h);
    var e :| e in w.edges && SameCall(e, h);
    TypedIdInjective(e.fromType, e.fromName, h.fromType, h.fromName);
    TypedIdInjective(e.kind, e.name, h.kind, h.name);
    if BarFree(e) && BarFree(h) {
      KeyIsColumns(e, h);
    }
    assert SameColumns(e, h);
    assert Followed(o, h, n) ==> NearBy(w.states, Next(o, h, n), w.states[n] + 1);
  }

  /** The whole walk: distances of the nodes met, the edges kept and how each node was met. Unless something was cut off, it
      is exact if and only if the keys tell the calls in reach apart and untyped nodes do no harm, for every table in which
      no call is misread or shares its key with a withheld one; and read off the columns, it keeps no row that a chain may
      not show and, where the table is clear, every such row of a plainly named node met nearer than the depth. */
  method BuildWalk(refs: seq<RefHit>, o: Options, centerType: string, centerName: string, l: Limits) returns (w: Walk)
    ensures var center := TypedId(centerType, centerName);
            && Sound(refs, o, center, l, w) && Linked(refs, o, l, w) && TruncationTold(refs, o, center, l, w)
            && (Quiet(refs, o, center, l) ==> forall n :: n in w.states ==> TypedWithin(refs, o, center, n, w.states[n]))
            && (!w.truncated && Quiet(refs, o, center, l) && NoneMasked(refs, o, center, l) ==>
                  (Exact(refs, o, center, l, w) <==> KeysTell(refs, o, center, l) && Harmless(refs, o, center, l)))
            && RowsAllowed(o, w.edges) && NodesAllowed(o, center, w.states)
            && (!w.truncated && Clear(refs, o, center, l) ==> AllRowsTaken(refs, o, l, w))
  {
    hide Sound, Grew, Linked, EdgesMet, Quiet, NoneMasked, KeysTell, Explored, QueueOrdered, Frontier, TypedId, Honest, CutsTold,
      TruncationTold, RowsAllowed, NodesAllowed, AllRowsTaken;
    ghost var center := TypedId(centerType, centerName);
    w := Start(centerType, centerName);
    StartSound(refs, o, l, centerType, centerName);
    while |w.queue| > 0
      invariant Sound(refs, o, center, l, w) && Linked(refs, o, l, w) && QueueOrdered(w)
      invariant Honest(refs, o, l, w) && CutsTold(refs, l, w, w.queue)
      invariant |w.edges| >= l.edges ==> w.truncated || w.queue != []
      invariant Quiet(refs, o, center, l) && !w.truncated ==> EdgesMet(o, w)
      invariant Clear(refs, o, center, l) && !w.truncated ==> Frontier(refs, o, l, w, w.queue)
      decreases |w.queue| + Max(1, l.nodes) - |w.states|
    {
      var item := w.queue[0];
      PopFacts(refs, o, center, l, w);
      CountFacts(refs, o, center, l, w);
      w := w.(queue := w.queue[1..]);
      ghost var popped := w;
      GrewSelf(w, item.distance);
      if item.distance >= l.depth || |w.edges| >= l.edges {
        if |w.edges| >= l.edges {
          Truncate(refs, o, center, l, item.distance, w, w);
          w := w.(truncated := true);
          FullIsHonest(refs, o, l, w);
        }
      } else {
        w := Expand(refs, o, center, l, item, w);
        CountFacts(refs, o, center, l, w);
      }
      GrewMore(popped, w, item.distance);
      QueueMoves(popped, w, item, popped.queue);
      CutsMove(refs, l, item, popped.queue, popped, w);
      if Clear(refs, o, center, l) && !w.truncated {
        FrontierMoves(refs, o, l, item, popped.queue, popped, w);
      }
    }
    TruncationMeans(refs, o, center, l, w);
    WalkMeans(refs, o, center, l, w);
    RowsAreAllowed(refs, o, center, l, w);
  }

  /** What the end of the walk comes to. */
  lemma WalkMeans(refs: seq<RefHit>, o: Options, center: string, l: Limits, w: Walk)
    requires Sound(refs, o, center, l, w) && Linked(refs, o, l, w) && |w.queue| == 0
    requires Clear(refs, o, center, l) && !w.truncated ==> Frontier(refs, o, l, w, w.queue)
    ensures Quiet(refs, o, center, l) ==> forall n :: n in w.states ==> TypedWithin(refs, o, center, n, w.states[n])
    ensures !w.truncated && Quiet(refs, o, center, l) && NoneMasked(refs, o, center, l) ==>
              (Exact(refs, o, center, l, w) <==> KeysTell(refs, o, center, l) && Harmless(refs, o, center, l))
    ensures !w.truncated && Clear(refs, o, center, l) ==> AllRowsTaken(refs, o, l, w)
  {
    hide Sound, Linked, Quiet, NoneMasked, KeysTell, Harmless, Exact, TypedExact, Frontier, TypedWithin, Explored, AllRowsTaken, Shown;
    if Quiet(refs, o, center, l) {
      forall n | n in w.states
        ensures TypedWithin(refs, o, center, n, w.states[n])
      {
        MetTyped(refs, o, center, l, w, n);
      }
    }
    if Exact(refs, o, center, l, w) {
      ExactKeysTell(refs, o, center, l, w);
    }
    if Clear(refs, o, center, l) && !w.truncated {
      NothingQueued(refs, o, l, w);
      EdgesAreShown(refs, o, center, l, w);
      RowsAreTaken(refs, o, l, w);
      ExploredExact(refs, o, center, l, w);
      if Harmless(refs, o, center, l) {
        HarmlessExact(refs, o, center, l, w);
      }
      if Exact(refs, o, center, l, w) {
        ExactHarmless(refs, o, center, l, w);
      }
    }
  }

  lemma EdgesAreShown(refs: seq<RefHit>, o: Options, center: string, l: Limits, w: Walk)
    requires Sound(refs, o, center, l, w)
    ensures forall e :: e in w.edges ==> Shown(o, e)
  {
    hide EdgeKey, Shown, Bounded, Chained, CountUnresolved;
  }

  lemma CountFacts(refs: seq<RefHit>, o: Options, center: string, l: Limits, w: Walk)
    requires Sound(refs, o, center, l, w)
    ensures |w.states| <= Max(1, l.nodes)
  {
  }

  lemma NothingQueued(refs: seq<RefHit>, o: Options, l: Limits, w: Walk)
    requires Frontier(refs, o, l, w, []) && |w.queue| == 0
    ensures forall n {:trigger Explored(refs, o, w, n)} :: n in w.states && w.states[n] < l.depth ==> Explored(refs, o, w, n)
  {
    forall n | n in w.states && w.states[n] < l.depth
      ensures Explored(refs, o, w, n)
    {
      assert !Queued([], n);
    }
  }
}
