/**
 The single-flight memo of verified GIS sidecars, as a protocol of atomic steps.

 A step is one lock section of the source, the return of one inspection, the wake-up of one waiter, or an event of the
 environment. Any number of callers and keys interleave freely; `now` counts the steps taken.
 */
module GisMemo {
  import opened Wrappers

  type Caller = nat
  type Key = nat
  type EntryId = nat

  /** An available answer names the inspection behind it by the times at which it began and ended. */
  datatype Answer = Unavailable | Available(began: nat, ended: nat)

  /** A memo entry. `closedAt` lists the times at which its ready channel was closed; `inspected` is when its inspection
      returned. */
  datatype Entry = Entry(key: Key, created: nat, inspected: Option<nat>, result: Answer, closedAt: seq<nat>) {
    predicate Ready() {
      closedAt != []
    }
  }

  /** Where a caller is. `Returned` tells which entry answered it and whether its own cancellation did. */
  datatype Place =
    | Called(key: Key)
    | Inspecting(entry: EntryId)
    | Inspected(entry: EntryId, result: Answer)
    | Waiting(entry: EntryId)
    | Returned(answer: Answer, source: Option<EntryId>)

  /** `late` records the callers that arrived while the pending entry of their key had already been inspected. */
  datatype State = State(now: nat, memo: map<Key, EntryId>, entries: map<EntryId, Entry>, nextEntry: EntryId,
                         places: map<Caller, Place>, started: map<Caller, nat>, late: map<Caller, EntryId>,
                         cancelled: set<Caller>)

  /** `Inspect` carries the oracle: what the inspection finds unless it is cancelled. */
  datatype Event =
    | Call(caller: Caller, key: Key)
    | Cancel(caller: Caller)
    | Lookup(caller: Caller)
    | Inspect(caller: Caller, finds: bool)
    | Complete(caller: Caller)
    | WakeReady(caller: Caller)
    | WakeCancelled(caller: Caller)

  const INIT := State(0, map[], map[], 0, map[], map[], map[], {})

  function At(s: State, c: Caller): Option<Place> {
    if c in s.places then Some(s.places[c]) else None
  }

  function Tick(s: State): State {
    s.(now := s.now + 1)
  }

  function Go(s: State, c: Caller, p: Place): State {
    Tick(s).(places := s.places[c := p])
  }

  function Arrive(s: State, c: Caller, k: Key): State {
    var t := Go(s, c, Called(k)).(started := s.started[c := s.now]);
    if k in s.memo && s.memo[k] in s.entries && !s.entries[s.memo[k]].Ready() && s.entries[s.memo[k]].inspected.Some?
    then t.(late := s.late[c := s.memo[k]])
    else t
  }

  /** Installs a pending entry and leaves the lock to inspect. */
  function Install(s: State, c: Caller, k: Key): State {
    Go(s, c, Inspecting(s.nextEntry)).(
      memo := s.memo[k := s.nextEntry],
      entries := s.entries[s.nextEntry := Entry(k, s.now, None, Unavailable, [])],
      nextEntry := s.nextEntry + 1)
  }

  /** The first lock section of a call. */
  function LookUp(s: State, c: Caller, k: Key): State {
    if k in s.memo && s.memo[k] in s.entries then
      var n := s.memo[k];
      if s.entries[n].Ready() then
        if s.entries[n].result.Unavailable? then Go(s, c, Returned(Unavailable, Some(n)))
        else if c in s.cancelled then Go(s, c, Returned(Unavailable, None))
        else Install(s, c, k)
      else Go(s, c, Waiting(n))
    else Install(s, c, k)
  }

  /** The inspection returns; a cancelled one is never available. */
  function Finish(s: State, c: Caller, n: EntryId, finds: bool): State
    requires n in s.entries
  {
    var e := s.entries[n];
    var result := if finds && c !in s.cancelled then Available(e.created, s.now) else Unavailable;
    Go(s, c, Inspected(n, result)).(entries := s.entries[n := e.(inspected := Some(s.now))])
  }

  /** The second lock section: store the result, forget a failure, wake the waiters. */
  function Store(s: State, c: Caller, n: EntryId, result: Answer): State
    requires n in s.entries
  {
    var e := s.entries[n];
    Go(s, c, Returned(result, Some(n))).(
      entries := s.entries[n := e.(result := result, closedAt := e.closedAt + [s.now])],
      memo := if e.key in s.memo && s.memo[e.key] == n && result.Unavailable? then s.memo - {e.key} else s.memo)
  }

  function Step(s: State, e: Event): Option<State> {
    match (e, At(s, e.caller))
    case (Call(c, k), None) => Some(Arrive(s, c, k))
    case (Cancel(c), Some(_)) => Some(Tick(s).(cancelled := s.cancelled + {c}))
    case (Lookup(c), Some(Called(k))) => Some(LookUp(s, c, k))
    case (Inspect(c, finds), Some(Inspecting(n))) => if n in s.entries then Some(Finish(s, c, n, finds)) else None
    case (Complete(c), Some(Inspected(n, r))) => if n in s.entries then Some(Store(s, c, n, r)) else None
    case (WakeReady(c), Some(Waiting(n))) =>
      if n in s.entries && s.entries[n].Ready() then
        Some(if c in s.cancelled then Go(s, c, Returned(Unavailable, None)) else Go(s, c, Returned(s.entries[n].result, Some(n))))
      else None
    case (WakeCancelled(c), Some(Waiting(n))) =>
      if c in s.cancelled then Some(Go(s, c, Returned(Unavailable, None))) else None
    case _ => None
  }

  /** The state after a run of events, if every one of them was possible. */
  function Run(s: State, events: seq<Event>): Option<State>
    decreases |events|
  {
    if events == [] then Some(s)
    else match Step(s, events[0])
      case Some(t) => Run(t, events[1..])
      case None => None
  }

  predicate Owns(p: Place, n: EntryId) {
    (p.Inspecting? || p.Inspected?) && p.entry == n
  }

  ghost predicate HasOwner(s: State, n: EntryId) {
    exists c :: c in s.places && Owns(s.places[c], n)
  }

  /** An entry on its own: inspected before closed, closed at most once, and what its result says. */
  ghost predicate EntryOk(s: State, n: EntryId)
    requires n in s.entries
  {
    var e := s.entries[n];
    && n < s.nextEntry && e.created < s.now && |e.closedAt| <= 1
    && (e.inspected.Some? ==> e.created < e.inspected.value < s.now)
    && (e.Ready() ==> e.inspected.Some? && e.inspected.value < e.closedAt[0] < s.now)
    && (e.result.Available? ==> e.inspected == Some(e.result.ended) && e.result.began == e.created)
    && (!e.Ready() ==> e.key in s.memo && s.memo[e.key] == n && HasOwner(s, n))
  }

  ghost predicate MemoOk(s: State, k: Key)
    requires k in s.memo
  {
    var n := s.memo[k];
    n in s.entries && s.entries[n].key == k && (s.entries[n].Ready() ==> s.entries[n].result.Available?)
  }

  /** Entry n was inspected before caller c arrived iff c arrived late for n. */
  ghost predicate Timely(s: State, c: Caller, n: EntryId)
    requires n in s.entries && c in s.started
  {
    if c in s.late && s.late[c] == n
    then s.entries[n].inspected.Some? && s.entries[n].inspected.value < s.started[c]
    else s.entries[n].inspected.Some? ==> s.started[c] <= s.entries[n].inspected.value
  }

  ghost predicate CallerOk(s: State, c: Caller)
    requires c in s.places
  {
    && c in s.started && s.started[c] < s.now
    && (c in s.late ==> s.late[c] in s.entries && Timely(s, c, s.late[c]))
    && match s.places[c]
       case Called(k) => CalledOk(s, c, k)
       case Inspecting(n) => n in s.entries && !s.entries[n].Ready() && s.entries[n].inspected == None && s.started[c] <= s.entries[n].created && Timely(s, c, n)
       case Inspected(n, r) =>
         && n in s.entries && !s.entries[n].Ready() && s.entries[n].inspected.Some? && s.started[c] <= s.entries[n].created && Timely(s, c, n)
         && (r.Available? ==> r == Available(s.entries[n].created, s.entries[n].inspected.value))
       case Waiting(n) => n in s.entries && Timely(s, c, n) && (s.entries[n].Ready() ==> s.started[c] < s.entries[n].closedAt[0])
       case Returned(a, source) =>
         match source
         case None => a.Unavailable? && c in s.cancelled
         case Some(n) => n in s.entries && s.entries[n].Ready() && a == s.entries[n].result && s.started[c] < s.entries[n].closedAt[0] && Timely(s, c, n)
  }

  ghost predicate OneOwner(s: State) {
    forall c, d, n {:trigger Owns(s.places[c], n), Owns(s.places[d], n)} ::
      c in s.places && d in s.places && Owns(s.places[c], n) && Owns(s.places[d], n) ==> c == d
  }

  ghost predicate Inv(s: State) {
    && (forall n {:trigger EntryOk(s, n)} :: n in s.entries ==> EntryOk(s, n))
    && (forall k {:trigger MemoOk(s, k)} :: k in s.memo ==> MemoOk(s, k))
    && (forall c {:trigger CallerOk(s, c)} :: c in s.places ==> CallerOk(s, c))
    && OneOwner(s)
    && s.started.Keys == s.places.Keys && s.late.Keys <= s.places.Keys
  }

  lemma InitHolds()
    ensures Inv(INIT)
  {
  }

  /** A step that leaves entry n alone keeps it in order if its owner, if any, still owns it. */
  lemma EntryStays(s: State, t: State, c: Caller, n: EntryId)
    requires n in s.entries && EntryOk(s, n) && n in t.entries && t.entries[n] == s.entries[n]
    requires t.now >= s.now && t.nextEntry >= s.nextEntry
    requires s.entries[n].key in s.memo && s.memo[s.entries[n].key] == n ==> s.entries[n].key in t.memo && t.memo[s.entries[n].key] == n
    requires forall d :: d in s.places && d != c ==> d in t.places && t.places[d] == s.places[d]
    requires c in s.places && Owns(s.places[c], n) ==> c in t.places && Owns(t.places[c], n)
    ensures EntryOk(t, n)
  {
    if !s.entries[n].Ready() {
      var d :| d in s.places && Owns(s.places[d], n);
      assert d in t.places && Owns(t.places[d], n);
    }
  }

  /** A step of another caller that leaves all entries of s alone keeps caller d in order. */
  lemma CallerStays(s: State, t: State, d: Caller)
    requires d in s.places && CallerOk(s, d) && d in t.places && t.places[d] == s.places[d]
    requires d in t.started && t.started[d] == s.started[d] && t.now >= s.now && s.cancelled <= t.cancelled
    requires (d in t.late <==> d in s.late) && (d in s.late ==> t.late[d] == s.late[d])
    requires forall n :: n in s.entries ==> n in t.entries && t.entries[n] == s.entries[n]
    requires s.places[d].Called? ==> CalledOk(t, d, s.places[d].key)
    ensures CallerOk(t, d)
  {
  }

  ghost predicate CalledOk(s: State, c: Caller, k: Key)
    requires c in s.started
  {
    k in s.memo && s.memo[k] in s.entries && !s.entries[s.memo[k]].Ready() ==> Timely(s, c, s.memo[k])
  }

  lemma ArriveKeeps(s: State, c: Caller, k: Key)
    requires Inv(s) && c !in s.places
    ensures Inv(Arrive(s, c, k))
  {
    hide CallerOk, EntryOk;
    var t := Arrive(s, c, k);
    forall n | n in t.entries
      ensures EntryOk(t, n)
    {
      EntryStays(s, t, c, n);
    }
    forall j | j in t.memo
      ensures MemoOk(t, j)
    {
      assert MemoOk(s, j);
    }
    forall d | d in t.places && d != c
      ensures CallerOk(t, d)
    {
      ArriveCaller(s, c, k, d);
    }
    ArriveSelf(s, c, k);
    assert OneOwner(t);
  }

  lemma ArriveCaller(s: State, c: Caller, k: Key, d: Caller)
    requires Inv(s) && c !in s.places && d in s.places
    ensures CallerOk(Arrive(s, c, k), d)
  {
    var t := Arrive(s, c, k);
    assert CallerOk(s, d);
    CallerStays(s, t, d);
  }

  lemma ArriveSelf(s: State, c: Caller, k: Key)
    requires Inv(s) && c !in s.places
    ensures CallerOk(Arrive(s, c, k), c)
  {
    var t := Arrive(s, c, k);
    if k in s.memo {
      assert MemoOk(s, k);
      assert EntryOk(s, s.memo[k]);
    }
  }

  lemma CancelKeeps(s: State, c: Caller)
    requires Inv(s) && c in s.places
    ensures Inv(Tick(s).(cancelled := s.cancelled + {c}))
  {
    hide CallerOk, EntryOk;
    var t := Tick(s).(cancelled := s.cancelled + {c});
    forall n | n in t.entries
      ensures EntryOk(t, n)
    {
      EntryStays(s, t, c, n);
    }
    forall j | j in t.memo
      ensures MemoOk(t, j)
    {
      assert MemoOk(s, j);
    }
    forall d | d in t.places
      ensures CallerOk(t, d)
    {
      CancelCaller(s, c, d);
    }
    assert OneOwner(t);
  }

  lemma CancelCaller(s: State, c: Caller, d: Caller)
    requires Inv(s) && d in s.places
    ensures CallerOk(Tick(s).(cancelled := s.cancelled + {c}), d)
  {
    assert CallerOk(s, d);
    CallerStays(s, Tick(s).(cancelled := s.cancelled + {c}), d);
  }

  lemma NextIsFresh(s: State)
    requires Inv(s)
    ensures s.nextEntry !in s.entries
  {
    assert s.nextEntry in s.entries ==> EntryOk(s, s.nextEntry);
  }

  /** A new pending entry for key k, which has none that is still pending. */
  lemma InstallKeeps(s: State, c: Caller, k: Key)
    requires Inv(s) && c in s.places && s.places[c] == Called(k)
    requires k in s.memo && s.memo[k] in s.entries ==> s.entries[s.memo[k]].Ready()
    ensures Inv(Install(s, c, k))
  {
    hide CallerOk, EntryOk;
    NextIsFresh(s);
    var t := Install(s, c, k);
    forall n | n in t.entries
      ensures EntryOk(t, n)
    {
      if n == s.nextEntry {
        InstallNew(s, c, k);
      } else {
        InstallEntry(s, c, k, n);
      }
    }
    forall j | j in t.memo
      ensures MemoOk(t, j)
    {
      assert j in s.memo ==> MemoOk(s, j);
    }
    forall d | d in t.places
      ensures CallerOk(t, d)
    {
      InstallCaller(s, c, k, d);
    }
    assert OneOwner(t) by {
      forall d | d in s.places
        ensures !Owns(s.places[d], s.nextEntry)
      {
        if Owns(s.places[d], s.nextEntry) {
          OwnedExists(s, d, s.nextEntry);
        }
      }
    }
  }

  lemma OwnedExists(s: State, d: Caller, n: EntryId)
    requires Inv(s) && d in s.places && Owns(s.places[d], n)
    ensures n in s.entries && !s.entries[n].Ready()
  {
    assert CallerOk(s, d);
  }

  lemma InstallNew(s: State, c: Caller, k: Key)
    requires Inv(s) && c in s.places && s.places[c] == Called(k)
    ensures EntryOk(Install(s, c, k), s.nextEntry)
  {
    var t := Install(s, c, k);
    assert c in t.places && Owns(t.places[c], s.nextEntry);
  }

  lemma InstallEntry(s: State, c: Caller, k: Key, n: EntryId)
    requires Inv(s) && c in s.places && s.places[c] == Called(k) && n in s.entries && n != s.nextEntry
    requires k in s.memo && s.memo[k] in s.entries ==> s.entries[s.memo[k]].Ready()
    ensures EntryOk(Install(s, c, k), n)
  {
    assert EntryOk(s, n);
    if s.entries[n].Ready() {
    } else {
      EntryStays(s, Install(s, c, k), c, n);
    }
  }

  lemma InstallCaller(s: State, c: Caller, k: Key, d: Caller)
    requires Inv(s) && c in s.places && s.places[c] == Called(k) && d in s.places && s.nextEntry !in s.entries
    ensures CallerOk(Install(s, c, k), d)
  {
    assert CallerOk(s, d);
    var t := Install(s, c, k);
    if d != c {
      CallerStays(s, t, d);
    }
  }

  lemma LookUpKeeps(s: State, c: Caller, k: Key)
    requires Inv(s) && c in s.places && s.places[c] == Called(k)
    ensures Inv(LookUp(s, c, k))
  {
    if k in s.memo {
      assert MemoOk(s, k);
      var n := s.memo[k];
      if !s.entries[n].Ready() {
        assert CallerOk(s, c);
        MoveKeeps(s, c, Waiting(n));
      } else if c in s.cancelled {
        assert CallerOk(s, c);
        MoveKeeps(s, c, Returned(Unavailable, None));
      } else {
        InstallKeeps(s, c, k);
      }
    } else {
      InstallKeeps(s, c, k);
    }
  }

  /** Caller c moves without touching any entry. */
  lemma MoveKeeps(s: State, c: Caller, p: Place)
    requires Inv(s) && c in s.places && (p.Waiting? || p.Returned?) && (s.places[c].Called? || s.places[c].Waiting?)
    requires CallerOk(Go(s, c, p), c)
    ensures Inv(Go(s, c, p))
  {
    hide CallerOk, EntryOk;
    var t := Go(s, c, p);
    forall n | n in t.entries
      ensures EntryOk(t, n)
    {
      EntryStays(s, t, c, n);
    }
    forall j | j in t.memo
      ensures MemoOk(t, j)
    {
      assert MemoOk(s, j);
    }
    forall d | d in t.places
      ensures CallerOk(t, d)
    {
      if d != c {
        MoveCaller(s, c, p, d);
      }
    }
    assert OneOwner(t);
  }

  lemma MoveCaller(s: State, c: Caller, p: Place, d: Caller)
    requires Inv(s) && c in s.places && d in s.places && d != c
    ensures CallerOk(Go(s, c, p), d)
  {
    assert CallerOk(s, d);
    CallerStays(s, Go(s, c, p), d);
  }

  lemma FinishKeeps(s: State, c: Caller, n: EntryId, finds: bool)
    requires Inv(s) && c in s.places && s.places[c] == Inspecting(n) && n in s.entries
    ensures Inv(Finish(s, c, n, finds))
  {
    hide CallerOk, EntryOk;
    var t := Finish(s, c, n, finds);
    forall m | m in t.entries
      ensures EntryOk(t, m)
    {
      if m == n {
        FinishEntry(s, c, n, finds);
      } else {
        EntryStays(s, t, c, m);
      }
    }
    forall j | j in t.memo
      ensures MemoOk(t, j)
    {
      assert MemoOk(s, j);
    }
    forall d | d in t.places
      ensures CallerOk(t, d)
    {
      FinishCaller(s, c, n, finds, d);
    }
    assert Owns(s.places[c], n);
    assert OneOwner(t);
  }

  lemma FinishEntry(s: State, c: Caller, n: EntryId, finds: bool)
    requires Inv(s) && c in s.places && s.places[c] == Inspecting(n) && n in s.entries
    ensures EntryOk(Finish(s, c, n, finds), n)
  {
    assert EntryOk(s, n) && CallerOk(s, c);
    var t := Finish(s, c, n, finds);
    assert c in t.places && Owns(t.places[c], n);
  }

  lemma FinishCaller(s: State, c: Caller, n: EntryId, finds: bool, d: Caller)
    requires Inv(s) && c in s.places && s.places[c] == Inspecting(n) && n in s.entries && d in s.places
    ensures CallerOk(Finish(s, c, n, finds), d)
  {
    assert CallerOk(s, c) && CallerOk(s, d);
    assert Owns(s.places[c], n);
  }

  lemma StoreKeeps(s: State, c: Caller, n: EntryId, r: Answer)
    requires Inv(s) && c in s.places && s.places[c] == Inspected(n, r) && n in s.entries
    ensures Inv(Store(s, c, n, r))
  {
    hide CallerOk, EntryOk;
    var t := Store(s, c, n, r);
    OwnerKey(s, c, n);
    forall m | m in t.entries
      ensures EntryOk(t, m)
    {
      if m == n {
        StoreEntry(s, c, n, r);
      } else {
        StoreOther(s, c, n, r, m);
      }
    }
    forall j | j in t.memo
      ensures MemoOk(t, j)
    {
      assert MemoOk(s, j);
    }
    forall d | d in t.places
      ensures CallerOk(t, d)
    {
      StoreCaller(s, c, n, r, d);
    }
    assert OneOwner(t);
  }

  /** The entry a caller owns is pending and is the one in the memo for its key. */
  lemma OwnerKey(s: State, c: Caller, n: EntryId)
    requires Inv(s) && c in s.places && Owns(s.places[c], n)
    ensures n in s.entries && s.entries[n].closedAt == [] && s.entries[n].key in s.memo && s.memo[s.entries[n].key] == n
  {
    assert CallerOk(s, c);
    assert EntryOk(s, n);
  }

  lemma StoreEntry(s: State, c: Caller, n: EntryId, r: Answer)
    requires Inv(s) && c in s.places && s.places[c] == Inspected(n, r) && n in s.entries
    ensures EntryOk(Store(s, c, n, r), n)
  {
    assert EntryOk(s, n) && CallerOk(s, c);
  }

  lemma StoreOther(s: State, c: Caller, n: EntryId, r: Answer, m: EntryId)
    requires Inv(s) && c in s.places && s.places[c] == Inspected(n, r) && n in s.entries && m in s.entries && m != n
    ensures EntryOk(Store(s, c, n, r), m)
  {
    assert EntryOk(s, m);
    EntryStays(s, Store(s, c, n, r), c, m);
  }

  lemma StoreCaller(s: State, c: Caller, n: EntryId, r: Answer, d: Caller)
    requires Inv(s) && c in s.places && s.places[c] == Inspected(n, r) && n in s.entries && d in s.places
    ensures CallerOk(Store(s, c, n, r), d)
  {
    assert CallerOk(s, c) && CallerOk(s, d) && EntryOk(s, n);
    assert Owns(s.places[c], n);
    assert d != c ==> !Owns(s.places[d], n);
  }

  lemma WakeKeeps(s: State, c: Caller, n: EntryId)
    requires Inv(s) && c in s.places && s.places[c] == Waiting(n) && n in s.entries && s.entries[n].Ready()
    ensures Inv(if c in s.cancelled then Go(s, c, Returned(Unavailable, None)) else Go(s, c, Returned(s.entries[n].result, Some(n))))
  {
    assert CallerOk(s, c);
    MoveKeeps(s, c, if c in s.cancelled then Returned(Unavailable, None) else Returned(s.entries[n].result, Some(n)));
  }

  /** Every step of every caller keeps the protocol in order. */
  lemma StepKeeps(s: State, e: Event)
    requires Inv(s) && Step(s, e).Some?
    ensures Inv(Step(s, e).value)
  {
    hide Inv, CallerOk, Arrive, LookUp, Finish, Store, Go;
    match e
    case Call(c, k) => ArriveKeeps(s, c, k);
    case Cancel(c) => CancelKeeps(s, c);
    case Lookup(c) => LookUpKeeps(s, c, s.places[c].key);
    case Inspect(c, finds) => FinishKeeps(s, c, s.places[c].entry, finds);
    case Complete(c) => StoreKeeps(s, c, s.places[c].entry, s.places[c].result);
    case WakeReady(c) => WakeKeeps(s, c, s.places[c].entry);
    case WakeCancelled(c) => CancelledWakeKeeps(s, c);
  }

  lemma CancelledWakeKeeps(s: State, c: Caller)
    requires Inv(s) && c in s.places && s.places[c].Waiting? && c in s.cancelled
    ensures Inv(Go(s, c, Returned(Unavailable, None)))
  {
    assert CallerOk(s, c);
    MoveKeeps(s, c, Returned(Unavailable, None));
  }
}
