/** What the memo protocol promises over every run: who shares an inspection, where answers come from, and that they come. */
module GisAnswers {
  import opened GisMemo
  import opened Wrappers

  /** Every state of every run is in order. */
  lemma {:induction false} RunKeeps(s: State, events: seq<Event>)
    requires Inv(s) && Run(s, events).Some?
    ensures Inv(Run(s, events).value)
    decreases |events|
  {
    if events != [] {
      StepKeeps(s, events[0]);
      RunKeeps(Step(s, events[0]).value, events[1..]);
    }
  }

  ghost predicate Reachable(s: State) {
    exists events :: Run(INIT, events) == Some(s)
  }

  lemma ReachableInv(s: State)
    requires Reachable(s)
    ensures Inv(s)
  {
    var events :| Run(INIT, events) == Some(s);
    InitHolds();
    RunKeeps(INIT, events);
  }

  /** At most one entry of a key is pending, and it is the one in the memo; its channel is never closed twice; a completed
      entry in the memo is available; an owner always finds its own entry in the memo when it completes it. */
  lemma SingleFlight(s: State)
    requires Reachable(s)
    ensures forall m, n :: m in s.entries && n in s.entries && !s.entries[m].Ready() && !s.entries[n].Ready() && s.entries[m].key == s.entries[n].key ==> m == n
    ensures forall n :: n in s.entries ==> |s.entries[n].closedAt| <= 1
    ensures forall k :: k in s.memo ==> s.memo[k] in s.entries && (s.entries[s.memo[k]].Ready() ==> s.entries[s.memo[k]].result.Available?)
    ensures forall c, n :: c in s.places && Owns(s.places[c], n) ==>
              n in s.entries && !s.entries[n].Ready() && s.entries[n].key in s.memo && s.memo[s.entries[n].key] == n
  {
    ReachableInv(s);
    forall n | n in s.entries
      ensures |s.entries[n].closedAt| <= 1
      ensures !s.entries[n].Ready() ==> s.entries[n].key in s.memo && s.memo[s.entries[n].key] == n
    {
      assert EntryOk(s, n);
    }
    forall k | k in s.memo
      ensures s.memo[k] in s.entries && (s.entries[s.memo[k]].Ready() ==> s.entries[s.memo[k]].result.Available?)
    {
      assert MemoOk(s, k);
    }
    forall c, n | c in s.places && Owns(s.places[c], n)
      ensures n in s.entries && !s.entries[n].Ready() && s.entries[n].key in s.memo && s.memo[s.entries[n].key] == n
    {
      OwnerKey(s, c, n);
    }
  }

  /** Entry n is complete, was pending at some time during the call of c, and gave c its result; an available result
      names the inspection of that entry, which lies between its creation and its completion. */
  ghost predicate AnsweredBy(s: State, c: Caller, n: EntryId)
    requires c in s.places && s.places[c].Returned? && c in s.started
  {
    && n in s.entries && s.entries[n].Ready() && s.places[c].answer == s.entries[n].result
    && s.entries[n].created < s.now && s.started[c] < s.entries[n].closedAt[0] < s.now
    && (s.places[c].answer.Available? ==>
          s.entries[n].created == s.places[c].answer.began < s.places[c].answer.ended < s.entries[n].closedAt[0])
  }

  /** Every answer: either the caller's own cancellation, or the result of one completed entry, whose flight from its
      creation to its completion overlaps the call. */
  lemma AnswersAreFlights(s: State, c: Caller)
    requires Reachable(s) && c in s.places && s.places[c].Returned?
    ensures c in s.started
    ensures s.places[c].source.None? ==> c in s.cancelled && s.places[c].answer.Unavailable?
    ensures s.places[c].source.Some? ==> AnsweredBy(s, c, s.places[c].source.value)
  {
    ReachableInv(s);
    assert CallerOk(s, c);
    if n :| s.places[c].source == Some(n) {
      assert EntryOk(s, n);
    }
  }

  // What the events of a run say of its answers. Times count events, so an event at time i is events[i].

  /** A cancellation of c came before event i. */
  ghost predicate CancelledBefore(events: seq<Event>, c: Caller, i: nat)
    requires i <= |events|
  {
    exists k :: 0 <= k < i && events[k] == Cancel(c)
  }

  /** Caller d began to inspect at its lookup, event j, and its inspection returned at event i: the result is what was found
      unless d itself had been cancelled by then. */
  ghost predicate FoundBy(events: seq<Event>, d: Caller, j: nat, i: nat, result: Answer) {
    && j < i < |events| && events[j] == Lookup(d)
    && exists finds :: events[i] == Inspect(d, finds) && result == if finds && !CancelledBefore(events, d, i) then Available(j, i) else Unavailable
  }

  ghost predicate CalledAt(events: seq<Event>, c: Caller, k: Key, i: nat) {
    i < |events| && events[i] == Call(c, k)
  }

  ghost predicate Calls(events: seq<Event>, c: Caller, k: Key) {
    exists b :: CalledAt(events, c, k, b)
  }

  lemma StillCalls(events: seq<Event>, e: Event, c: Caller, k: Key)
    requires Calls(events, c, k)
    ensures Calls(events + [e], c, k)
  {
    var b :| CalledAt(events, c, k, b);
    assert CalledAt(events + [e], c, k, b);
  }

  /** An entry was completed by the caller that inspected it, who called for its key. */
  ghost predicate CompletedBy(events: seq<Event>, e: Entry, d: Caller) {
    && e.Ready() && e.inspected.Some? && e.inspected.value < e.closedAt[0] < |events| && events[e.closedAt[0]] == Complete(d)
    && FoundBy(events, d, e.created, e.inspected.value, e.result) && Calls(events, d, e.key)
  }

  ghost predicate EntryExplained(events: seq<Event>, e: Entry) {
    e.Ready() ==> exists d :: CompletedBy(events, e, d)
  }

  /** Where a caller of key k is, told by events. */
  ghost predicate PlaceFits(events: seq<Event>, s: State, c: Caller, k: Key)
    requires c in s.places
  {
    match s.places[c]
    case Called(j) => j == k
    case Inspecting(n) => n in s.entries && s.entries[n].key == k && s.entries[n].created < |events| && events[s.entries[n].created] == Lookup(c)
    case Inspected(n, r) =>
      && n in s.entries && s.entries[n].key == k && s.entries[n].inspected.Some?
      && FoundBy(events, c, s.entries[n].created, s.entries[n].inspected.value, r)
    case Waiting(n) => n in s.entries && s.entries[n].key == k
    case Returned(a, Some(n)) => n in s.entries && s.entries[n].key == k
    case Returned(a, None) => a.Unavailable? && Refused(events, c)
  }

  /** c was cancelled before an event that answered it without a result. */
  ghost predicate Refused(events: seq<Event>, c: Caller) {
    exists r :: 0 <= r < |events| && RefusedAt(events, c, r)
  }

  ghost predicate RefusedAt(events: seq<Event>, c: Caller, r: nat)
    requires r < |events|
  {
    events[r] in {Lookup(c), WakeReady(c), WakeCancelled(c)} && CancelledBefore(events, c, r)
  }

  lemma StillRefused(events: seq<Event>, e: Event, c: Caller)
    ensures Refused(events, c) ==> Refused(events + [e], c)
    ensures e in {Lookup(c), WakeReady(c), WakeCancelled(c)} && CancelledBefore(events, c, |events|) ==> Refused(events + [e], c)
  {
    hide CancelledBefore;
    var more := events + [e];
    assert more[|events|] == e;
    StillCancelled(events, e, c, |events|);
    if CancelledBefore(events, c, |events|) && e in {Lookup(c), WakeReady(c), WakeCancelled(c)} {
      assert RefusedAt(more, c, |events|);
    }
    if Refused(events, c) {
      var r :| 0 <= r < |events| && RefusedAt(events, c, r);
      StillCancelled(events, e, c, r);
      assert more[r] == events[r] && RefusedAt(more, c, r);
    }
  }

  ghost predicate PlaceExplained(events: seq<Event>, s: State, c: Caller)
    requires c in s.places && c in s.started
  {
    exists k :: CalledAt(events, c, k, s.started[c]) && PlaceFits(events, s, c, k)
  }

  ghost predicate Explained(events: seq<Event>, s: State) {
    && s.now == |events| && s.started.Keys == s.places.Keys
    && (forall c :: c in s.cancelled <==> CancelledBefore(events, c, |events|))
    && (forall n {:trigger s.entries[n]} :: n in s.entries ==> EntryExplained(events, s.entries[n]))
    && (forall c {:trigger s.places[c]} :: c in s.places ==> PlaceExplained(events, s, c))
  }

  lemma StillCancelled(events: seq<Event>, e: Event, c: Caller, i: nat)
    requires i <= |events|
    ensures CancelledBefore(events + [e], c, i) <==> CancelledBefore(events, c, i)
    ensures CancelledBefore(events + [e], c, |events| + 1) <==> CancelledBefore(events, c, |events|) || e == Cancel(c)
  {
    assert forall k :: 0 <= k < |events| ==> (events + [e])[k] == events[k];
    assert (events + [e])[|events|] == e;
    if CancelledBefore(events, c, i) {
      var k :| 0 <= k < i && events[k] == Cancel(c);
      assert (events + [e])[k] == Cancel(c);
    }
    if CancelledBefore(events, c, |events|) {
      var k :| 0 <= k < |events| && events[k] == Cancel(c);
      assert (events + [e])[k] == Cancel(c);
    }
  }

  lemma StillFound(events: seq<Event>, e: Event, d: Caller, j: nat, i: nat, r: Answer)
    requires FoundBy(events, d, j, i, r)
    ensures FoundBy(events + [e], d, j, i, r)
  {
    StillCancelled(events, e, d, i);
    assert (events + [e])[i] == events[i] && (events + [e])[j] == events[j];
  }

  lemma StillExplained(events: seq<Event>, e: Event, x: Entry)
    requires EntryExplained(events, x)
    ensures EntryExplained(events + [e], x)
  {
    hide FoundBy;
    if x.Ready() {
      var d :| CompletedBy(events, x, d);
      StillCalls(events, e, d, x.key);
      StillFound(events, e, d, x.created, x.inspected.value, x.result);
      assert (events + [e])[x.closedAt[0]] == events[x.closedAt[0]];
      assert CompletedBy(events + [e], x, d);
    }
  }

  /** A caller that a step leaves where it is stays explained, if its entry keeps its key and times. */
  lemma StillPlaced(events: seq<Event>, s: State, e: Event, t: State, c: Caller)
    requires c in s.places && c in s.started && PlaceExplained(events, s, c)
    requires c in t.places && c in t.started && t.places[c] == s.places[c] && t.started[c] == s.started[c]
    requires forall n :: n in s.entries ==> n in t.entries && t.entries[n].key == s.entries[n].key && t.entries[n].created == s.entries[n].created
    requires s.places[c].Inspected? && s.places[c].entry in s.entries ==> t.entries[s.places[c].entry].inspected == s.entries[s.places[c].entry].inspected
    ensures PlaceExplained(events + [e], t, c)
  {
    hide FoundBy, CancelledBefore, Refused;
    var more := events + [e];
    var k :| CalledAt(events, c, k, s.started[c]) && PlaceFits(events, s, c, k);
    assert CalledAt(more, c, k, t.started[c]);
    match s.places[c]
    case Called(_) =>
    case Inspecting(n) => assert more[s.entries[n].created] == events[s.entries[n].created];
    case Inspected(n, r) => StillFound(events, e, c, s.entries[n].created, s.entries[n].inspected.value, r);
    case Waiting(_) =>
    case Returned(_, _) => StillRefused(events, e, c);
  }

  lemma OthersExplained(events: seq<Event>, s: State, e: Event, t: State, c: Caller)
    requires Inv(s) && Explained(events, s) && t.started.Keys == t.places.Keys
    requires forall d :: d in s.places && d != c ==> d in t.places && t.places[d] == s.places[d] && t.started[d] == s.started[d]
    requires forall n :: n in s.entries ==> n in t.entries && t.entries[n].key == s.entries[n].key && t.entries[n].created == s.entries[n].created
    requires forall n :: n in s.entries && t.entries[n].inspected != s.entries[n].inspected ==> c in s.places && Owns(s.places[c], n)
    ensures forall d :: d in s.places && d != c ==> PlaceExplained(events + [e], t, d)
  {
    hide EntryOk, CallerOk, MemoOk, PlaceExplained, EntryExplained, CancelledBefore;
    forall d | d in s.places && d != c
      ensures PlaceExplained(events + [e], t, d)
    {
      assert PlaceExplained(events, s, d);
      assert s.places[d].Inspected? ==> Owns(s.places[d], s.places[d].entry);
      StillPlaced(events, s, e, t, d);
    }
  }

  lemma EntriesExplained(events: seq<Event>, s: State, e: Event, t: State)
    requires Explained(events, s)
    ensures forall n {:trigger t.entries[n]} :: n in t.entries && n in s.entries && t.entries[n] == s.entries[n] ==> EntryExplained(events + [e], t.entries[n])
  {
    hide EntryExplained, PlaceExplained, CancelledBefore;
    forall n {:trigger t.entries[n]} | n in t.entries && n in s.entries && t.entries[n] == s.entries[n]
      ensures EntryExplained(events + [e], t.entries[n])
    {
      assert EntryExplained(events, s.entries[n]);
      StillExplained(events, e, s.entries[n]);
    }
  }

  lemma CancelsExplained(events: seq<Event>, s: State, e: Event, t: State)
    requires Explained(events, s) && t.cancelled == s.cancelled + if e.Cancel? then {e.caller} else {}
    ensures forall c :: c in t.cancelled <==> CancelledBefore(events + [e], c, |events| + 1)
  {
    hide EntryExplained, PlaceExplained, CancelledBefore;
    forall c
      ensures c in t.cancelled <==> CancelledBefore(events + [e], c, |events| + 1)
    {
      StillCancelled(events, e, c, |events|);
    }
  }

  /** What a step changes: the place of its caller, an entry that caller owns, and perhaps one new pending entry. */
  ghost predicate Shaped(s: State, e: Event, t: State) {
    && t.now == s.now + 1 && s.started.Keys == s.places.Keys && t.started.Keys == t.places.Keys == s.places.Keys + {e.caller}
    && t.cancelled == s.cancelled + (if e.Cancel? then {e.caller} else {})
    && (forall d :: d in s.places ==> d in t.places && t.started[d] == s.started[d] && (d != e.caller ==> t.places[d] == s.places[d]))
    && (forall n :: n in s.entries ==> n in t.entries && t.entries[n].key == s.entries[n].key && t.entries[n].created == s.entries[n].created)
    && (forall n :: n in s.entries && t.entries[n] != s.entries[n] ==> e.caller in s.places && Owns(s.places[e.caller], n))
    && (forall n :: n in t.entries && n !in s.entries ==> !t.entries[n].Ready())
  }

  lemma StepShape(s: State, e: Event)
    requires Inv(s) && Step(s, e).Some?
    ensures Shaped(s, e, Step(s, e).value)
  {
    hide EntryOk, CallerOk, MemoOk, OneOwner, Shaped, LookUp, Finish, Store;
    match e
    case Call(c, k) => ArriveShape(s, c, k);
    case Lookup(c) => LookupShape(s, c, s.places[c].key);
    case Inspect(c, finds) => FinishShape(s, c, s.places[c].entry, finds);
    case Complete(c) => StoreShape(s, c, s.places[c].entry, s.places[c].result);
    case _ => PlainShape(s, e);
  }

  lemma ArriveShape(s: State, c: Caller, k: Key)
    requires s.started.Keys == s.places.Keys && c !in s.places
    ensures Shaped(s, Call(c, k), Arrive(s, c, k))
  {
  }

  lemma LookupShape(s: State, c: Caller, k: Key)
    requires Inv(s) && c in s.places && s.places[c] == Called(k)
    ensures Shaped(s, Lookup(c), LookUp(s, c, k))
  {
    hide EntryOk, CallerOk, MemoOk, OneOwner;
    NextIsFresh(s);
  }

  lemma FinishShape(s: State, c: Caller, n: EntryId, finds: bool)
    requires s.started.Keys == s.places.Keys && c in s.places && s.places[c] == Inspecting(n) && n in s.entries
    ensures Shaped(s, Inspect(c, finds), Finish(s, c, n, finds))
  {
  }

  lemma StoreShape(s: State, c: Caller, n: EntryId, r: Answer)
    requires s.started.Keys == s.places.Keys && c in s.places && s.places[c] == Inspected(n, r) && n in s.entries
    ensures Shaped(s, Complete(c), Store(s, c, n, r))
  {
  }

  lemma PlainShape(s: State, e: Event)
    requires s.started.Keys == s.places.Keys && Step(s, e).Some? && (e.Cancel? || e.WakeReady? || e.WakeCancelled?)
    ensures Shaped(s, e, Step(s, e).value)
  {
  }

  lemma MoverExplained(events: seq<Event>, s: State, e: Event)
    requires Inv(s) && Explained(events, s) && Step(s, e).Some? && Shaped(s, e, Step(s, e).value)
    ensures PlaceExplained(events + [e], Step(s, e).value, e.caller)
  {
    hide EntryOk, CallerOk, EntryExplained, CancelledBefore, FoundBy, Refused, Inv;
    var c, t, more := e.caller, Step(s, e).value, events + [e];
    assert more[|events|] == e;
    StillCancelled(events, e, c, |events|);
    if e.Call? {
      assert CalledAt(more, c, e.key, t.started[c]) && PlaceFits(more, t, c, e.key);
    } else {
      assert PlaceExplained(events, s, c);
      var k :| CalledAt(events, c, k, s.started[c]) && PlaceFits(events, s, c, k);
      assert CalledAt(more, c, k, t.started[c]);
      MoverFits(events, s, e, k);
      assert PlaceFits(more, t, c, k);
    }
  }

  lemma MoverFits(events: seq<Event>, s: State, e: Event, k: Key)
    requires Inv(s) && Explained(events, s) && Step(s, e).Some? && Shaped(s, e, Step(s, e).value) && !e.Call?
    requires e.caller in s.places && PlaceFits(events, s, e.caller, k)
    ensures PlaceFits(events + [e], Step(s, e).value, e.caller, k)
  {
    hide EntryOk, CallerOk, EntryExplained, PlaceExplained, CancelledBefore, FoundBy, Refused;
    var c, t, more := e.caller, Step(s, e).value, events + [e];
    assert more[|events|] == e;
    StillRefused(events, e, c);
    match e
    case Cancel(_) => CancelledFits(events, s, e, t, k);
    case Lookup(_) => LookupFits(events, s, c, k);
    case Inspect(_, finds) =>
      var n := s.places[c].entry;
      assert more[s.entries[n].created] == events[s.entries[n].created];
      InspectFound(events, s, c, finds);
    case Complete(_) =>
    case WakeReady(_) =>
    case WakeCancelled(_) =>
  }

  lemma LookupFits(events: seq<Event>, s: State, c: Caller, k: Key)
    requires Inv(s) && s.now == |events| && (forall d :: d in s.cancelled <==> CancelledBefore(events, d, |events|))
    requires c in s.places && s.places[c] == Called(k)
    ensures PlaceFits(events + [Lookup(c)], LookUp(s, c, k), c, k)
  {
    hide EntryOk, CallerOk, OneOwner, CancelledBefore, FoundBy, Refused;
    assert (events + [Lookup(c)])[|events|] == Lookup(c);
    StillRefused(events, Lookup(c), c);
    NextIsFresh(s);
    assert k in s.memo ==> MemoOk(s, k);
  }

  lemma CancelledFits(events: seq<Event>, s: State, e: Event, t: State, k: Key)
    requires e.caller in s.places && PlaceFits(events, s, e.caller, k) && e.Cancel? && t == Tick(s).(cancelled := s.cancelled + {e.caller})
    ensures PlaceFits(events + [e], t, e.caller, k)
  {
    hide FoundBy, CancelledBefore, Refused;
    var c, more := e.caller, events + [e];
    StillRefused(events, e, c);
    match s.places[c]
    case Inspecting(n) => assert more[s.entries[n].created] == events[s.entries[n].created];
    case Inspected(n, r) => StillFound(events, e, c, s.entries[n].created, s.entries[n].inspected.value, r);
    case _ =>
  }

  lemma InspectFound(events: seq<Event>, s: State, c: Caller, finds: bool)
    requires Inv(s) && Explained(events, s) && c in s.places && s.places[c].Inspecting? && s.places[c].entry in s.entries
    requires s.entries[s.places[c].entry].created < |events| && events[s.entries[s.places[c].entry].created] == Lookup(c)
    ensures FoundBy(events + [Inspect(c, finds)], c, s.entries[s.places[c].entry].created, |events|,
                    if finds && c !in s.cancelled then Available(s.entries[s.places[c].entry].created, s.now) else Unavailable)
  {
    hide EntryOk, CallerOk, EntryExplained, PlaceExplained, CancelledBefore, MemoOk;
    var e := Inspect(c, finds);
    var more := events + [e];
    assert more[|events|] == e && more[s.entries[s.places[c].entry].created] == events[s.entries[s.places[c].entry].created];
    StillCancelled(events, e, c, |events|);
  }

  /** An entry that a step completes is explained by its owner. */
  lemma ChangedExplained(events: seq<Event>, s: State, e: Event, n: EntryId)
    requires Inv(s) && Explained(events, s) && Step(s, e).Some? && n in s.entries && Step(s, e).value.entries[n] != s.entries[n]
    requires Shaped(s, e, Step(s, e).value)
    ensures EntryExplained(events + [e], Step(s, e).value.entries[n])
  {
    hide EntryOk, CallerOk, MemoOk, CancelledBefore, FoundBy, EntryExplained, OneOwner;
    var c, more := e.caller, events + [e];
    assert more[|events|] == e;
    OwnerKey(s, c, n);
    assert PlaceExplained(events, s, c);
    CompletionExplained(events, s, e, n);
  }

  lemma CompletionExplained(events: seq<Event>, s: State, e: Event, n: EntryId)
    requires Step(s, e).Some? && n in s.entries && n in Step(s, e).value.entries && Step(s, e).value.entries[n] != s.entries[n]
    requires s.now == |events| && s.entries[n].closedAt == [] && e.caller in s.places && e.caller in s.started
    requires Owns(s.places[e.caller], n) && PlaceExplained(events, s, e.caller)
    ensures EntryExplained(events + [e], Step(s, e).value.entries[n])
  {
    hide FoundBy;
    var c, more := e.caller, events + [e];
    assert more[|events|] == e;
    if e.Complete? {
      var r := s.places[c].result;
      StillCalls(events, e, c, s.entries[n].key);
      InspectedInTime(events, c, s.entries[n].created, s.entries[n].inspected.value, r);
      StillFound(events, e, c, s.entries[n].created, s.entries[n].inspected.value, r);
      assert CompletedBy(more, Step(s, e).value.entries[n], c);
    }
  }

  lemma InspectedInTime(events: seq<Event>, d: Caller, j: nat, i: nat, r: Answer)
    requires FoundBy(events, d, j, i, r)
    ensures i < |events|
  {
  }

  /** What the events say of a run they say of the run with one event more. */
  lemma ExplainedStep(events: seq<Event>, s: State, e: Event)
    requires Inv(s) && Explained(events, s) && Step(s, e).Some?
    ensures Explained(events + [e], Step(s, e).value)
  {
    hide Inv, EntryExplained, PlaceExplained, CancelledBefore, Step;
    var t, more := Step(s, e).value, events + [e];
    StepShape(s, e);
    CancelsExplained(events, s, e, t);
    EntriesExplained(events, s, e, t);
    OthersExplained(events, s, e, t, e.caller);
    MoverExplained(events, s, e);
    forall n {:trigger t.entries[n]} | n in t.entries
      ensures EntryExplained(more, t.entries[n])
    {
      if n !in s.entries {
        PendingExplained(more, t.entries[n]);
      } else if t.entries[n] != s.entries[n] {
        ChangedExplained(events, s, e, n);
      }
    }
    forall c {:trigger t.places[c]} | c in t.places
      ensures PlaceExplained(more, t, c)
    {
    }
  }

  lemma PendingExplained(events: seq<Event>, x: Entry)
    requires !x.Ready()
    ensures EntryExplained(events, x)
  {
  }

  lemma {:induction false} RunExplained(events: seq<Event>)
    requires Run(INIT, events).Some?
    ensures Explained(events, Run(INIT, events).value)
    decreases |events|
  {
    hide Explained, Inv, Step;
    if events == [] {
      InitExplained();
    } else {
      var before, e := events[..|events| - 1], events[|events| - 1];
      assert events == before + [e];
      RunPrefix(INIT, before, e);
      RunExplained(before);
      InitHolds();
      RunKeeps(INIT, before);
      ExplainedStep(before, Run(INIT, before).value, e);
    }
  }

  lemma InitExplained()
    ensures Explained([], INIT)
  {
  }

  lemma {:induction false} RunPrefix(s: State, events: seq<Event>, e: Event)
    requires Run(s, events + [e]).Some?
    ensures Run(s, events).Some? && Step(Run(s, events).value, e) == Run(s, events + [e])
    decreases |events|
  {
    hide Step;
    if events == [] {
      assert events + [e] == [e];
      assert [e][1..] == [];
    } else {
      assert (events + [e])[1..] == events[1..] + [e];
      RunPrefix(Step(s, events[0]).value, events[1..], e);
    }
  }

  /** A flight: d called for key k, looked it up at event j and began to inspect, returned from it at event i with this result,
      and completed it at event m. */
  ghost predicate Flight(events: seq<Event>, k: Key, d: Caller, j: nat, i: nat, m: nat, result: Answer) {
    && Calls(events, d, k) && FoundBy(events, d, j, i, result)
    && i < m < |events| && events[m] == Complete(d)
  }

  ghost predicate FlownFor(events: seq<Event>, k: Key, a: Answer) {
    exists d: Caller, j: nat, i: nat, m: nat :: Flight(events, k, d, j, i, m, a)
  }

  /** The answer of any caller, told by the events alone: either it was cancelled before the event that answered it, or the
      answer is what one caller of the same key found, which is available if and only if the inspection found the program and
      the caller that ran it had not been cancelled by its end. Nobody else's cancellation counts. */
  lemma AnswersFromEvents(events: seq<Event>, c: Caller)
    requires Run(INIT, events).Some? && c in Run(INIT, events).value.places && Run(INIT, events).value.places[c].Returned?
    ensures var s := Run(INIT, events).value;
            && c in s.started && (exists k :: CalledAt(events, c, k, s.started[c]) && (s.places[c].source.Some? ==> FlownFor(events, k, s.places[c].answer)))
            && (s.places[c].source.None? ==> s.places[c].answer.Unavailable? && Refused(events, c))
  {
    hide Inv, Run, FoundBy, EntryExplained, Refused;
    var s := Run(INIT, events).value;
    RunExplained(events);
    InitHolds();
    RunKeeps(INIT, events);
    assert PlaceExplained(events, s, c);
    var k :| CalledAt(events, c, k, s.started[c]) && PlaceFits(events, s, c, k);
    if s.places[c].source.Some? {
      EntryFlown(events, s, c, k, s.places[c].source.value);
    }
  }

  lemma EntryFlown(events: seq<Event>, s: State, c: Caller, k: Key, n: EntryId)
    requires Inv(s) && Explained(events, s) && c in s.places && s.places[c].Returned? && s.places[c].source == Some(n)
    requires n in s.entries && s.entries[n].key == k
    ensures FlownFor(events, k, s.places[c].answer)
  {
    hide FoundBy, PlaceExplained, EntryOk;
    assert CallerOk(s, c) && EntryExplained(events, s.entries[n]);
    var e := s.entries[n];
    var d :| CompletedBy(events, e, d);
    assert Flight(events, k, d, e.created, e.inspected.value, e.closedAt[0], e.result);
  }

  /** Behind an answer that is unavailable to a caller never cancelled lies an inspection that found nothing, or one whose own
      caller had been cancelled. */
  lemma UnavailableHasCause(events: seq<Event>, c: Caller)
    requires Run(INIT, events).Some? && c in Run(INIT, events).value.places
    requires var p := Run(INIT, events).value.places[c]; p.Returned? && p.answer.Unavailable?
    requires forall i :: 0 <= i < |events| ==> events[i] != Cancel(c)
    ensures exists d, i: nat :: i < |events| && (events[i] == Inspect(d, false) || (events[i] == Inspect(d, true) && CancelledBefore(events, d, i)))
  {
    hide Run;
    AnswersFromEvents(events, c);
    assert !Refused(events, c);
    var s := Run(INIT, events).value;
    var k :| CalledAt(events, c, k, s.started[c]) && FlownFor(events, k, Unavailable);
    var d: Caller, j: nat, i: nat, m: nat :| Flight(events, k, d, j, i, m, Unavailable);
    assert events[i] == Inspect(d, true) || events[i] == Inspect(d, false);
  }

  /** c has inspected entry n with this result and has it, or has returned it. */
  ghost predicate Holds(s: State, c: Caller, n: EntryId, r: Answer) {
    c in s.places && (s.places[c] == Inspected(n, r) || s.places[c] == Returned(r, Some(n)))
  }

  lemma {:induction false} InspectorKeepsResult(s: State, events: seq<Event>, c: Caller, n: EntryId, r: Answer)
    requires Holds(s, c, n, r) && Run(s, events).Some?
    ensures Holds(Run(s, events).value, c, n, r)
    decreases |events|
  {
    if events != [] {
      assert Holds(Step(s, events[0]).value, c, n, r);
      InspectorKeepsResult(Step(s, events[0]).value, events[1..], c, n, r);
    }
  }

  lemma {:induction false} RunSplit(s: State, a: seq<Event>, b: seq<Event>)
    requires Run(s, a + b).Some?
    ensures Run(s, a).Some? && Run(Run(s, a).value, b) == Run(s, a + b)
    decreases |a|
  {
    hide Step;
    if a == [] {
      assert a + b == b;
    } else {
      assert (a + b)[1..] == a[1..] + b;
      RunSplit(Step(s, a[0]).value, a[1..], b);
    }
  }

  /** Whoever inspects gets what it finds, unless it was itself cancelled by the end of the inspection, whatever else happens. */
  lemma InspectorGetsFinding(events: seq<Event>, i: nat, c: Caller, finds: bool)
    requires Run(INIT, events).Some? && i < |events| && events[i] == Inspect(c, finds)
    requires c in Run(INIT, events).value.places && Run(INIT, events).value.places[c].Returned?
    ensures exists j: nat :: j < i && events[j] == Lookup(c) &&
              Run(INIT, events).value.places[c].answer == if finds && !CancelledBefore(events, c, i) then Available(j, i) else Unavailable
  {
    hide Inv, Explained, Run;
    var before, upTo, rest := events[..i], events[..i + 1], events[i + 1..];
    assert events == upTo + rest && upTo == before + [events[i]];
    RunSplit(INIT, upTo, rest);
    RunPrefix(INIT, before, events[i]);
    RunExplained(upTo);
    RunExplained(before);
    NowCounts(before, Run(INIT, before).value);
    var s := Run(INIT, upTo).value;
    JustInspected(upTo, Run(INIT, before).value, s, c, finds);
    var n, r := s.places[c].entry, s.places[c].result;
    InspectorKeepsResult(s, rest, c, n, r);
    var j: nat :| j < i && upTo[j] == Lookup(c) && r == if finds && !CancelledBefore(upTo, c, i) then Available(j, i) else Unavailable;
    SameCancels(events, upTo, c, i);
    assert events[j] == upTo[j];
  }

  lemma NowCounts(events: seq<Event>, s: State)
    requires Explained(events, s)
    ensures s.now == |events|
  {
  }

  lemma SameCancels(events: seq<Event>, upTo: seq<Event>, c: Caller, i: nat)
    requires i < |upTo| <= |events| && upTo == events[..|upTo|]
    ensures CancelledBefore(events, c, i) <==> CancelledBefore(upTo, c, i)
  {
    assert forall k :: 0 <= k < i ==> events[k] == upTo[k];
    if CancelledBefore(events, c, i) {
      var k :| 0 <= k < i && events[k] == Cancel(c);
      assert upTo[k] == Cancel(c);
    }
  }

  lemma JustInspected(events: seq<Event>, before: State, s: State, c: Caller, finds: bool)
    requires Explained(events, s) && events != [] && events[|events| - 1] == Inspect(c, finds)
    requires Step(before, Inspect(c, finds)) == Some(s) && before.now == |events| - 1
    ensures c in s.places && s.places[c].Inspected?
    ensures exists j: nat :: j < |events| - 1 && events[j] == Lookup(c) &&
              s.places[c].result == if finds && !CancelledBefore(events, c, |events| - 1) then Available(j, |events| - 1) else Unavailable
  {
    hide EntryExplained, CancelledBefore;
    assert PlaceExplained(events, s, c);
    var n, r := s.places[c].entry, s.places[c].result;
    assert s.entries[n].inspected == Some(|events| - 1);
    assert FoundBy(events, c, s.entries[n].created, |events| - 1, r);
  }

  /** A waiter not cancelled when it wakes gets the result of the entry it waits for, and no other answer. */
  lemma WakingWaiterGetsResult(s: State, c: Caller, n: EntryId)
    requires c in s.places && s.places[c] == Waiting(n) && n in s.entries && c !in s.cancelled
    ensures Step(s, WakeCancelled(c)).None?
    ensures s.entries[n].Ready() ==> Step(s, WakeReady(c)).Some? && Step(s, WakeReady(c)).value.places[c] == Returned(s.entries[n].result, Some(n))
  {
  }

  /** A caller that waits for entry n, has been answered by entry n, or was cancelled while it waited. */
  ghost predicate FromEntry(s: State, c: Caller, n: EntryId) {
    && c in s.places && n in s.entries
    && match s.places[c]
       case Waiting(m) => m == n
       case Returned(a, Some(m)) => m == n && s.entries[n].Ready() && a == s.entries[n].result
       case Returned(a, None) => a.Unavailable? && c in s.cancelled
       case _ => false
  }

  lemma FromEntryStep(s: State, e: Event, c: Caller, n: EntryId)
    requires Inv(s) && FromEntry(s, c, n) && Step(s, e).Some?
    ensures FromEntry(Step(s, e).value, c, n)
  {
    hide EntryOk, CallerOk, MemoOk;
    match e
    case Call(d, k) =>
    case Cancel(d) =>
    case Lookup(d) => NextIsFresh(s);
    case Inspect(d, finds) => CompletedUnowned(s, d, n);
    case Complete(d) => CompletedUnowned(s, d, n);
    case WakeReady(d) =>
    case WakeCancelled(d) =>
  }

  /** Only a pending entry has an owner, so nobody touches a completed one. */
  lemma CompletedUnowned(s: State, d: Caller, n: EntryId)
    requires Inv(s) && d in s.places && n in s.entries
    ensures s.entries[n].Ready() ==> !Owns(s.places[d], n)
  {
    if Owns(s.places[d], n) {
      OwnerKey(s, d, n);
    }
  }

  /** Whoever waits for an entry gets the result of that entry, unless cancelled, in every continuation. */
  lemma {:induction false} WaitersShareResult(s: State, events: seq<Event>, c: Caller, n: EntryId)
    requires Inv(s) && FromEntry(s, c, n) && Run(s, events).Some?
    ensures FromEntry(Run(s, events).value, c, n)
    decreases |events|
  {
    hide Inv, FromEntry;
    if events != [] {
      StepKeeps(s, events[0]);
      FromEntryStep(s, events[0], c, n);
      WaitersShareResult(Step(s, events[0]).value, events[1..], c, n);
    }
  }

  /** The inspection behind an available answer was still running after the caller arrived, exactly unless the caller
      arrived late for that entry: after its inspection had returned and before it was completed. */
  lemma InspectionOverlapsCall(s: State, c: Caller)
    requires Reachable(s) && c in s.places && s.places[c].Returned? && s.places[c].answer.Available?
    ensures c in s.started && s.places[c].source.Some?
    ensures s.started[c] <= s.places[c].answer.ended <==> !(c in s.late && s.late[c] == s.places[c].source.value)
  {
    ReachableInv(s);
    assert CallerOk(s, c);
    assert EntryOk(s, s.places[c].source.value);
  }

  lemma {:induction false} RunAppend(s: State, events: seq<Event>, e: Event)
    requires Run(s, events).Some? && Step(Run(s, events).value, e).Some?
    ensures Run(s, events + [e]) == Step(Run(s, events).value, e)
    decreases |events|
  {
    if events == [] {
      assert events + [e] == [e];
      assert [e][1..] == [];
    } else {
      RunAppend(Step(s, events[0]).value, events[1..], e);
      assert (events + [e])[1..] == events[1..] + [e];
    }
  }

  lemma ReachableStep(s: State, e: Event)
    requires Reachable(s) && Step(s, e).Some?
    ensures Reachable(Step(s, e).value)
  {
    var events :| Run(INIT, events) == Some(s);
    RunAppend(INIT, events, e);
  }

  /** Caller 0 has inspected the entry of key 7 but not completed it. */
  lemma InspectionReturned() returns (s: State)
    ensures Reachable(s)
    ensures s == State(3, map[7 := 0], map[0 := Entry(7, 1, Some(2), Unavailable, [])], 1,
                       map[0 := Inspected(0, Available(1, 2))], map[0 := 0], map[], {})
  {
    hide Reachable, Run;
    InitReachable();
    ReachableStep(INIT, Call(0, 7));
    var s1 := Step(INIT, Call(0, 7)).value;
    ReachableStep(s1, Lookup(0));
    var s2 := Step(s1, Lookup(0)).value;
    ReachableStep(s2, Inspect(0, true));
    s := Step(s2, Inspect(0, true)).value;
  }

  lemma InitReachable()
    ensures Reachable(INIT)
  {
    assert Run(INIT, []) == Some(INIT);
  }

  /** Such a late arrival does happen: caller 1 arrives between the return of the inspection of caller 0 and its completion,
      and is answered by an inspection that ended before it called. */
  lemma LateArrival()
    ensures exists s :: Reachable(s) && 1 in s.places && 1 in s.started &&
                        s.places[1] == Returned(Available(1, 2), Some(0)) && s.started[1] == 3
  {
    hide Reachable, Run;
    var s3 := InspectionReturned();
    ReachableStep(s3, Call(1, 7));
    var s4 := Step(s3, Call(1, 7)).value;
    ReachableStep(s4, Lookup(1));
    var s5 := Step(s4, Lookup(1)).value;
    ReachableStep(s5, Complete(0));
    var s6 := Step(s5, Complete(0)).value;
    ReachableStep(s6, WakeReady(1));
    assert Reachable(Step(s6, WakeReady(1)).value);
  }

  /** A caller cancelled before the last gate on its way, or already refused. */
  ghost predicate Doomed(s: State, c: Caller) {
    && c in s.cancelled && c in s.places
    && match s.places[c]
       case Inspected(_, r) => r.Unavailable?
       case Returned(a, _) => a.Unavailable?
       case _ => true
  }

  /** Cancelled before its inspection returned or its wait ended, a caller never gets an available answer afterwards. */
  lemma {:induction false} CancelledNeverAvailable(s: State, events: seq<Event>, c: Caller)
    requires Inv(s) && Doomed(s, c) && Run(s, events).Some?
    ensures Doomed(Run(s, events).value, c)
    decreases |events|
  {
    if events != [] {
      StepKeeps(s, events[0]);
      var t := Step(s, events[0]).value;
      DoomedStep(s, events[0], c);
      CancelledNeverAvailable(t, events[1..], c);
    }
  }

  lemma DoomedStep(s: State, e: Event, c: Caller)
    requires Inv(s) && Doomed(s, c) && Step(s, e).Some?
    ensures Doomed(Step(s, e).value, c)
  {
    hide Inv;
    match e
    case Call(d, k) =>
    case Cancel(d) =>
    case Lookup(d) =>
    case Inspect(d, finds) =>
    case Complete(d) =>
    case WakeReady(d) =>
    case WakeCancelled(d) =>
  }

  /** How many steps a caller has left at most. */
  function Remaining(p: Place): nat {
    match p
    case Called(_) => 3
    case Inspecting(_) => 2
    case Inspected(_, _) => 1
    case Waiting(_) => 1
    case Returned(_, _) => 0
  }

  predicate Moves(e: Event) {
    !e.Call? && !e.Cancel?
  }

  /** Nobody waits for ever: a caller that has not returned can move itself or waits for an owner that can, and every
      move brings the mover, and nobody else, nearer to its return. */
  lemma SomeoneCanMove(s: State, c: Caller)
    requires Reachable(s) && c in s.places && !s.places[c].Returned?
    ensures exists e :: Moves(e) && Step(s, e).Some? && (e.caller == c || (s.places[c].Waiting? && e.caller in s.places && Owns(s.places[e.caller], s.places[c].entry)))
  {
    ReachableInv(s);
    assert CallerOk(s, c);
    match s.places[c]
    case Called(_) => assert Step(s, Lookup(c)).Some?;
    case Inspecting(n) => assert Step(s, Inspect(c, true)).Some?;
    case Inspected(n, _) => assert Step(s, Complete(c)).Some?;
    case Waiting(n) =>
      assert EntryOk(s, n);
      if s.entries[n].Ready() {
        assert Step(s, WakeReady(c)).Some?;
      } else {
        var d :| d in s.places && Owns(s.places[d], n);
        if s.places[d].Inspecting? {
          assert Step(s, Inspect(d, true)).Some?;
        } else {
          assert Step(s, Complete(d)).Some?;
        }
      }
  }

  lemma MovesAdvance(s: State, e: Event)
    requires Moves(e) && Step(s, e).Some?
    ensures var t := Step(s, e).value;
            && t.places.Keys == s.places.Keys && e.caller in s.places
            && Remaining(t.places[e.caller]) < Remaining(s.places[e.caller])
            && forall d :: d in s.places && d != e.caller ==> t.places[d] == s.places[d]
  {
  }

  ghost function Total(places: map<Caller, Place>, callers: set<Caller>): nat
    requires callers <= places.Keys
  {
    if callers == {} then 0
    else
      var c :| c in callers;
      Remaining(places[c]) + Total(places, callers - {c})
  }

  lemma {:induction false} TotalSplit(places: map<Caller, Place>, callers: set<Caller>, c: Caller)
    requires c in callers && callers <= places.Keys
    ensures Total(places, callers) == Remaining(places[c]) + Total(places, callers - {c})
  {
    var d :| d in callers && Total(places, callers) == Remaining(places[d]) + Total(places, callers - {d});
    if d != c {
      TotalSplit(places, callers - {d}, c);
      TotalSplit(places, callers - {c}, d);
      assert callers - {d} - {c} == callers - {c} - {d};
    }
  }

  lemma {:induction false} TotalSame(p: map<Caller, Place>, q: map<Caller, Place>, callers: set<Caller>)
    requires callers <= p.Keys && callers <= q.Keys && forall c :: c in callers ==> p[c] == q[c]
    ensures Total(p, callers) == Total(q, callers)
  {
    if callers != {} {
      var c :| c in callers;
      TotalSplit(p, callers, c);
      TotalSplit(q, callers, c);
      TotalSame(p, q, callers - {c});
    }
  }

  lemma {:induction false} TotalBound(places: map<Caller, Place>, callers: set<Caller>)
    requires callers <= places.Keys
    ensures Total(places, callers) <= 3 * |callers|
  {
    if callers != {} {
      var c :| c in callers;
      TotalSplit(places, callers, c);
      TotalBound(places, callers - {c});
    }
  }

  lemma {:induction false} MovesAreTotal(s: State, events: seq<Event>)
    requires (forall i :: 0 <= i < |events| ==> Moves(events[i])) && Run(s, events).Some?
    ensures |events| <= Total(s.places, s.places.Keys)
    decreases |events|
  {
    if events != [] {
      var c, t := events[0].caller, Step(s, events[0]).value;
      MovesAdvance(s, events[0]);
      TotalSplit(s.places, s.places.Keys, c);
      TotalSplit(t.places, t.places.Keys, c);
      TotalSame(s.places, t.places, s.places.Keys - {c});
      MovesAreTotal(t, events[1..]);
    }
  }

  /** Once calls stop arriving, the callers are all answered after at most three moves each, whatever the interleaving. */
  lemma EveryRunEnds(s: State, events: seq<Event>)
    requires (forall i :: 0 <= i < |events| ==> Moves(events[i])) && Run(s, events).Some?
    ensures |events| <= 3 * |s.places.Keys|
  {
    MovesAreTotal(s, events);
    TotalBound(s.places, s.places.Keys);
  }
}