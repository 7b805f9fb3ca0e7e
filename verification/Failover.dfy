/** The pool list of PoolManager.cpp: adding, removing and selecting pools, and the rotation that walks the
    list when connections fail. */
module Failover {
  import opened Arith
  import Autodetect

  /** One configured pool.  `exit` is the pseudo host that ends the program. */
  datatype Entry = Entry(id: nat, exit: bool, unrecoverable: bool)

  datatype Error = Outstanding | OutOfBounds | IsActive
  datatype Outcome = Success | Failure(error: Error)

  datatype Pools = Pools(
    connections: seq<Entry>,
    active: nat,             // m_activeConnectionIdx
    attempt: nat,            // m_connectionAttempt
    switches: nat,           // m_connectionSwitches
    pending: bool,           // m_async_pending
    running: bool)           // m_running

  datatype Event =
    | Start
    | Add(entry: Entry)
    | Remove(idx: nat)
    | SetActive(idx: nat)
    | Rotate(connected: bool)
    | FailoverTimeout
    | Connected
    | Disconnected
    | Mark(idx: nat)         // a client marks its URI unrecoverable

  function RemoveAt<T>(s: seq<T>, i: nat): (r: seq<T>)
    requires i < |s|
    ensures |r| == |s| - 1
    ensures forall k :: 0 <= k < |r| ==> r[k] == s[if k < i then k else k + 1]
  {
    s[..i] + s[i + 1..]
  }

  function Wrapped(i: nat, n: nat): nat {
    if i >= n then 0 else i
  }

  function RemoveOutcome(s: Pools, idx: nat): Outcome {
    if s.pending then Failure(Outstanding)
    else if idx >= |s.connections| then Failure(OutOfBounds)
    else if idx == s.active then Failure(IsActive)
    else Success
  }

  function Removed(s: Pools, idx: nat): Pools {
    if RemoveOutcome(s, idx).Failure? then s
    else s.(connections := RemoveAt(s.connections, idx), active := if s.active > idx then s.active - 1 else s.active)
  }

  function SetActiveOutcome(s: Pools, idx: nat): Outcome {
    if idx >= |s.connections| then Failure(OutOfBounds) else if s.pending then Failure(Outstanding) else Success
  }

  function Selected(s: Pools, idx: nat): Pools {
    if SetActiveOutcome(s, idx).Failure? || idx == s.active then s
    else s.(active := idx, attempt := 0, switches := s.switches + 1, pending := true)
  }

  /** The first half of rotateConnect(): drop the active entry, go to the next one, or stay. */
  function Advanced(s: Pools, maxRetries: nat): Pools
    requires s.active < |s.connections|
  {
    var n := |s.connections|;
    if s.connections[s.active].unrecoverable then
      s.(connections := RemoveAt(s.connections, s.active), attempt := 0, active := Wrapped(s.active, n - 1),
         switches := s.switches + 1)
    else if s.attempt < maxRetries then s
    else if n == 1 then s.(connections := [])
    else s.(attempt := 0, active := Wrapped(s.active + 1, n), switches := s.switches + 1)
  }

  /** The second half: connect to the active entry, or end the program. */
  function Attempted(s: Pools): Pools {
    if s.active < |s.connections| && !s.connections[s.active].exit then s.(attempt := s.attempt + 1)
    else s.(running := false)
  }

  /** rotateConnect() on a list that is not empty, when no client is connected. */
  function Rotated(s: Pools, maxRetries: nat): Pools
    requires s.connections != []
  {
    Attempted(Advanced(s.(active := Wrapped(s.active, |s.connections|)), maxRetries))
  }

  function Apply(s: Pools, e: Event, maxRetries: nat): Pools {
    match e
    case Start => s.(running := true, pending := true, switches := s.switches + 1)
    case Add(entry) => s.(connections := s.connections + [entry])
    case Remove(idx) => Removed(s, idx)
    case SetActive(idx) => Selected(s, idx)
    case Rotate(connected) => if connected || s.connections == [] then s else Rotated(s, maxRetries)
    case FailoverTimeout =>
      if s.running && s.active != 0 then s.(active := 0, attempt := 0, switches := s.switches + 1) else s
    case Connected => s.(attempt := 0, pending := false)
    case Disconnected => s.(pending := true)
    case Mark(idx) =>
      if idx < |s.connections| then s.(connections := s.connections[idx := s.connections[idx].(unrecoverable := true)])
      else s
  }

  /** The manager itself. */
  class PoolManager {
    var connections: seq<Entry>
    var active: nat
    var attempt: nat
    var switches: nat
    var pending: bool
    var running: bool

    ghost function View(): Pools
      reads this
    {
      Pools(connections, active, attempt, switches, pending, running)
    }

    constructor (pools: seq<Entry>)
      ensures View() == Pools(pools, 0, 0, 0, false, false)
    {
      connections, active, attempt, switches, pending, running := pools, 0, 0, 0, false, false;
    }

    method RemoveConnection(idx: nat) returns (outcome: Outcome)
      modifies this
      ensures outcome == RemoveOutcome(old(View()), idx)
      ensures View() == Removed(old(View()), idx)
    {
      if pending { return Failure(Outstanding); }
      if idx >= |connections| { return Failure(OutOfBounds); }
      if idx == active { return Failure(IsActive); }
      connections := connections[..idx] + connections[idx + 1..];
      if active > idx { active := active - 1; }
      return Success;
    }

    method SetActiveConnection(idx: nat) returns (outcome: Outcome)
      modifies this
      ensures outcome == SetActiveOutcome(old(View()), idx)
      ensures View() == Selected(old(View()), idx)
    {
      if idx >= |connections| { return Failure(OutOfBounds); }
      if pending { return Failure(Outstanding); }
      pending := true;
      if idx != active {
        switches := switches + 1;
        active := idx;
        attempt := 0;
      } else {
        pending := false;
      }
      return Success;
    }

    /** `ok` is false when the list is empty and the bounds-checked access throws. */
    method RotateConnect(connected: bool, maxRetries: nat) returns (ok: bool)
      modifies this
      ensures ok == (connected || old(connections) != [])
      ensures View() == Apply(old(View()), Rotate(connected), maxRetries)
    {
      hide Advanced;
      if connected { return true; }
      if connections == [] { return false; }
      if active >= |connections| { active := 0; }
      Advance(maxRetries);
      if connections != [] && !connections[active].exit {
        attempt := attempt + 1;
      } else {
        running := false;
      }
      return true;
    }

    /** The part of rotateConnect() that picks the entry to try. */
    method Advance(maxRetries: nat)
      requires active < |connections|
      modifies this
      ensures View() == Advanced(old(View()), maxRetries)
      ensures active < |connections| || connections == []
    {
      if connections[active].unrecoverable {
        connections := connections[..active] + connections[active + 1..];
        attempt := 0;
        if active >= |connections| { active := 0; }
        switches := switches + 1;
      } else if attempt >= maxRetries {
        if |connections| == 1 {
          connections := [];
        } else {
          attempt := 0;
          active := active + 1;
          if active >= |connections| { active := 0; }
          switches := switches + 1;
        }
      }
    }

    method FailoverTimerElapsed()
      modifies this
      ensures View() == Apply(old(View()), FailoverTimeout, 0)
    {
      if running && active != 0 {
        active := 0;
        attempt := 0;
        switches := switches + 1;
      }
    }
  }

  // ----- every history of the manager

  ghost predicate InBounds(s: Pools) {
    s.active < |s.connections| || (s.connections == [] && s.active == 0)
  }

  ghost predicate Distinct(c: seq<Entry>) {
    forall i, j :: 0 <= i < j < |c| ==> c[i].id != c[j].id
  }

  /** A new entry is a new object. */
  ghost predicate Fresh(s: Pools, e: Event) {
    e.Add? ==> forall i :: 0 <= i < |s.connections| ==> s.connections[i].id != e.entry.id
  }

  ghost predicate IsRun(run: seq<Pools>, events: seq<Event>, maxRetries: nat) {
    && |run| == |events| + 1
    && run[0].active == 0 && Distinct(run[0].connections)
    && forall i :: 0 <= i < |events| ==> Fresh(run[i], events[i]) && run[i + 1] == Apply(run[i], events[i], maxRetries)
  }

  lemma RemoveAtDistinct(c: seq<Entry>, i: nat)
    requires Distinct(c) && i < |c|
    ensures Distinct(RemoveAt(c, i))
  {
    var d := RemoveAt(c, i);
    forall a, b | 0 <= a < b < |d| ensures d[a].id != d[b].id {
      assert d[a] == c[if a < i then a else a + 1] && d[b] == c[if b < i then b else b + 1];
    }
  }

  lemma AdvancedKeeps(s: Pools, maxRetries: nat)
    requires s.active < |s.connections| && Distinct(s.connections)
    ensures InBounds(Advanced(s, maxRetries)) && Distinct(Advanced(s, maxRetries).connections)
  {
    RemoveAtDistinct(s.connections, s.active);
    hide Distinct;
    if !s.connections[s.active].unrecoverable && s.attempt >= maxRetries && |s.connections| == 1 {
      assert Distinct([]) by { NoneDistinct(); }
    }
  }

  lemma NoneDistinct()
    ensures Distinct([])
  {
  }

  lemma MarkKeeps(c: seq<Entry>, i: nat)
    requires Distinct(c) && i < |c|
    ensures Distinct(c[i := c[i].(unrecoverable := true)])
  {
  }

  lemma AddKeeps(s: Pools, e: Event)
    requires Distinct(s.connections) && Fresh(s, e) && e.Add?
    ensures Distinct(s.connections + [e.entry])
  {
  }

  lemma Step(s: Pools, e: Event, maxRetries: nat)
    requires InBounds(s) && Distinct(s.connections) && Fresh(s, e)
    ensures InBounds(Apply(s, e, maxRetries)) && Distinct(Apply(s, e, maxRetries).connections)
  {
    hide Distinct, Fresh, Advanced, RemoveAt;
    match e
    case Add(entry) => AddKeeps(s, e);
    case Remove(idx) =>
      if RemoveOutcome(s, idx).Success? {
        RemoveAtDistinct(s.connections, idx);
      }
    case Rotate(_) => if s.connections != [] { AdvancedKeeps(s, maxRetries); }
    case Mark(idx) => if idx < |s.connections| { MarkKeeps(s.connections, idx); }
    case _ =>
  }

  /** In every history the active index is inside the list, or the list is empty and the index is 0. */
  lemma {:induction false} IndexStaysInBounds(run: seq<Pools>, events: seq<Event>, maxRetries: nat, i: nat)
    requires IsRun(run, events, maxRetries) && i < |run|
    ensures InBounds(run[i]) && Distinct(run[i].connections)
  {
    hide Apply, Fresh;
    if i > 0 {
      IndexStaysInBounds(run, events, maxRetries, i - 1);
      Step(run[i - 1], events[i - 1], maxRetries);
      assert run[i - 1 + 1] == Apply(run[i - 1], events[i - 1], maxRetries);
    }
  }

  /** Removing a pool takes out that one and leaves the active pool active. */
  lemma RemoveKeepsActive(s: Pools, idx: nat)
    requires InBounds(s) && RemoveOutcome(s, idx).Success?
    ensures var t := Removed(s, idx);
            && t.active < |t.connections| && t.connections[t.active] == s.connections[s.active]
            && |t.connections| == |s.connections| - 1
            && forall k :: 0 <= k < |t.connections| ==> t.connections[k] == s.connections[if k < idx then k else k + 1]
  {
  }

  ghost predicate SameActive(s: Pools, t: Pools)
    requires s.active < |s.connections|
  {
    t.active < |t.connections| && t.connections[t.active].id == s.connections[s.active].id
  }

  /** The last pool, dropped because its retries are used up. */
  ghost predicate LastPoolDropped(s: Pools, e: Event, maxRetries: nat) {
    && e == Rotate(false)
    && |s.connections| == 1 && !s.connections[0].unrecoverable && s.attempt >= maxRetries
  }

  /** A step adds one to the switch counter exactly when it leaves the active pool, with two exceptions: dropping
      the last pool for its retries is not counted, and the start is.  It never adds more, and the pool it turns to
      has all its retries. */
  lemma SwitchesAreCounted(s: Pools, e: Event, maxRetries: nat)
    requires InBounds(s) && Distinct(s.connections) && Fresh(s, e) && s.connections != []
    ensures var t := Apply(s, e, maxRetries);
            && (t.switches == s.switches || t.switches == s.switches + 1)
            && (t.switches > s.switches <==> e.Start? || (!SameActive(s, t) && !LastPoolDropped(s, e, maxRetries)))
            && (t.switches > s.switches && !e.Start? ==> t.attempt <= 1)
  {
    hide Distinct, Fresh, Advanced, RemoveAt, Removed;
    match e
    case Remove(idx) =>
      if RemoveOutcome(s, idx).Success? { RemoveKeepsActive(s, idx); }
      RemovedKeeps(s, idx);
    case SetActive(idx) => if idx < |s.connections| { DistinctAt(s.connections, s.active, idx); }
    case FailoverTimeout => DistinctAt(s.connections, s.active, 0);
    case Rotate(_) => AdvanceCounts(s, maxRetries);
    case _ =>
  }

  lemma RemovedKeeps(s: Pools, idx: nat)
    ensures Removed(s, idx).switches == s.switches
    ensures RemoveOutcome(s, idx).Failure? ==> Removed(s, idx) == s
  {
  }

  lemma DistinctAt(c: seq<Entry>, i: nat, j: nat)
    requires Distinct(c) && i < |c| && j < |c|
    ensures i == j <==> c[i].id == c[j].id
  {
  }

  lemma AdvanceCounts(s: Pools, maxRetries: nat)
    requires s.active < |s.connections| && Distinct(s.connections)
    ensures var t := Advanced(s, maxRetries);
            && (t.switches == s.switches || t.switches == s.switches + 1)
            && (t.switches > s.switches <==> !SameActive(s, t) && !LastPoolDropped(s, Rotate(false), maxRetries))
            && (t.connections == [] ==> t.active == 0)
            && (t.switches > s.switches ==> t.attempt == 0)
  {
    hide Distinct;
    var n := |s.connections|;
    if s.connections[s.active].unrecoverable {
      if n > 1 { DistinctAt(s.connections, s.active, if s.active < n - 1 then s.active + 1 else 0); }
    } else if n > 1 {
      DistinctAt(s.connections, s.active, Wrapped(s.active + 1, n));
    }
  }

  // ----- how long the rotation takes, while no connection succeeds

  /** Rotations spent on one entry: the retries, and at least one. */
  ghost function PerEntry(maxRetries: nat): (n: nat)
    ensures n > 0
  {
    if maxRetries == 0 then 1 else maxRetries
  }

  /** Rotations from the active entry until the entry at `p` is tried. */
  ghost function Distance(s: Pools, p: nat, maxRetries: nat): (d: nat)
    requires s.active < |s.connections| && p < |s.connections| && p != s.active
    ensures d > 0
  {
    var ahead: nat := if p > s.active then p - s.active else p + |s.connections| - s.active;
    (if s.attempt < maxRetries then maxRetries - s.attempt else 0) + 1 + (ahead - 1) * PerEntry(maxRetries)
  }

  /** Clients may mark any URIs unrecoverable between two rotations. */
  ghost function Marked(s: Pools, ids: set<nat>): (m: Pools)
    ensures m == s.(connections := m.connections) && |m.connections| == |s.connections|
    ensures forall i :: 0 <= i < |s.connections| ==>
      m.connections[i].id == s.connections[i].id && m.connections[i].exit == s.connections[i].exit
  {
    s.(connections := seq(|s.connections|, i requires 0 <= i < |s.connections| =>
      if s.connections[i].id in ids then s.connections[i].(unrecoverable := true) else s.connections[i]))
  }

  ghost predicate Tried(s: Pools, id: nat) {
    !s.running || (s.active < |s.connections| && s.connections[s.active].id == id)
  }

  /** One of the rotations, one for each set of marks, tries the entry or ends the program. */
  ghost predicate Reaches(s: Pools, marks: seq<set<nat>>, maxRetries: nat, id: nat)
    requires s.connections != []
    decreases |marks|
  {
    && |marks| > 0
    && var t := Rotated(Marked(s, marks[0]), maxRetries);
       Tried(t, id) || (t.connections != [] && Reaches(t, marks[1..], maxRetries, id))
  }

  /** One of the rotations ends the program. */
  ghost predicate Stops(s: Pools, marks: seq<set<nat>>, maxRetries: nat)
    requires s.connections != []
    decreases |marks|
  {
    && |marks| > 0
    && var t := Rotated(Marked(s, marks[0]), maxRetries);
       !t.running || (t.connections != [] && Stops(t, marks[1..], maxRetries))
  }

  /** Where the entry at `p` is after the first half of a rotation. */
  ghost function Moved(s: Pools, p: nat): nat
    requires s.active < |s.connections| && p != s.active
  {
    if s.connections[s.active].unrecoverable && p > s.active then p - 1 else p
  }

  lemma AdvanceIsCloser(s: Pools, p: nat, maxRetries: nat)
    requires s.active < |s.connections| && p < |s.connections| && p != s.active
    ensures var t, q := Advanced(s, maxRetries), Moved(s, p);
            && t.active < |t.connections| && q < |t.connections| && t.connections[q] == s.connections[p]
            && |t.connections| <= |s.connections|
            && (t.active != q ==> Distance(t.(attempt := t.attempt + 1), q, maxRetries) < Distance(s, p, maxRetries))
  {
    var t, q := Advanced(s, maxRetries), Moved(s, p);
    if t.active != q && t.attempt == 0 && (s.connections[s.active].unrecoverable || s.attempt >= maxRetries) {
      var ahead := if p > s.active then p - s.active else p + |s.connections| - s.active;
      Unfold(ahead - 1, PerEntry(maxRetries));
    }
  }

  lemma Unfold(k: nat, m: nat)
    ensures k > 0 ==> k * m == m + (k - 1) * m
  {
  }

  lemma RotationIsCloser(s: Pools, ids: set<nat>, p: nat, maxRetries: nat)
    requires s.active < |s.connections| && p < |s.connections| && p != s.active
    ensures var m := Marked(s, ids);
            var t, q := Rotated(m, maxRetries), Moved(m, p);
            && t.active < |t.connections| && q < |t.connections| && |t.connections| <= |s.connections|
            && t.connections[q].id == s.connections[p].id && t.connections[q].exit == s.connections[p].exit
            && (t.running && t.active != q ==> Distance(t, q, maxRetries) < Distance(s, p, maxRetries))
            && (t.connections[t.active].exit ==> !t.running)
            && (t.running ==> s.running)
  {
    hide Advanced, Marked, Moved;
    var m := Marked(s, ids);
    assert Distance(m, p, maxRetries) == Distance(s, p, maxRetries);
    AdvanceIsCloser(m, p, maxRetries);
    AdvanceKeepsRunning(m, maxRetries);
    hide Distance;
    AttemptedIs(Advanced(m, maxRetries));
    hide Attempted;
    assert Rotated(m, maxRetries) == Attempted(Advanced(m, maxRetries));
  }

  lemma AttemptedIs(s: Pools)
    requires s.active < |s.connections|
    ensures Attempted(s) == if s.connections[s.active].exit then s.(running := false) else s.(attempt := s.attempt + 1)
  {
  }

  lemma AdvanceKeepsRunning(s: Pools, maxRetries: nat)
    requires s.active < |s.connections|
    ensures Advanced(s, maxRetries).running == s.running
  {
  }

  /** Every other entry has its turn: within `Distance` rotations it is tried, unless the program ends. */
  lemma {:induction false} OthersAreTried(s: Pools, p: nat, marks: seq<set<nat>>, maxRetries: nat)
    requires s.active < |s.connections| && p < |s.connections| && p != s.active
    requires |marks| >= Distance(s, p, maxRetries)
    ensures Reaches(s, marks, maxRetries, s.connections[p].id)
    decreases |marks|
  {
    hide Rotated, Marked, Moved, Distance;
    RotationIsCloser(s, marks[0], p, maxRetries);
    var m := Marked(s, marks[0]);
    var t, q := Rotated(m, maxRetries), Moved(m, p);
    if t.running && t.active != q {
      OthersAreTried(t, q, marks[1..], maxRetries);
    }
  }

  /** A list with an exit entry ends the program within `Distance` rotations, whatever the pools do. */
  lemma {:induction false} ExitIsReached(s: Pools, p: nat, marks: seq<set<nat>>, maxRetries: nat)
    requires s.active < |s.connections| && p < |s.connections| && p != s.active && s.connections[p].exit
    requires |marks| >= Distance(s, p, maxRetries)
    ensures Stops(s, marks, maxRetries)
    decreases |marks|
  {
    hide Rotated, Marked, Moved, Distance;
    RotationIsCloser(s, marks[0], p, maxRetries);
    var m := Marked(s, marks[0]);
    var t, q := Rotated(m, maxRetries), Moved(m, p);
    if t.running && t.active != q {
      ExitIsReached(t, q, marks[1..], maxRetries);
    }
  }

  /** A list of one pool is given up after its remaining retries and one rotation. */
  lemma {:induction false} LastPoolStops(s: Pools, marks: seq<set<nat>>, maxRetries: nat)
    requires |s.connections| == 1 && s.active == 0
    requires |marks| > if s.attempt < maxRetries then maxRetries - s.attempt else 0
    ensures Stops(s, marks, maxRetries)
    decreases |marks|
  {
    var t := Rotated(Marked(s, marks[0]), maxRetries);
    if t.running {
      LastPoolStops(t, marks[1..], maxRetries);
    }
  }

  lemma DistanceBound(s: Pools, p: nat, maxRetries: nat)
    requires s.active < |s.connections| && p < |s.connections| && p != s.active
    ensures Distance(s, p, maxRetries) <= |s.connections| * PerEntry(maxRetries)
    ensures Distance(s, p, maxRetries) <= (|s.connections| - 1) * PerEntry(maxRetries) + 1
    ensures s.attempt > 0 ==> Distance(s, p, maxRetries) < |s.connections| * PerEntry(maxRetries)
  {
    var n, m := |s.connections|, PerEntry(maxRetries);
    var ahead := if p > s.active then p - s.active else p + n - s.active;
    var stay := if s.attempt < maxRetries then maxRetries - s.attempt else 0;
    assert Distance(s, p, maxRetries) == stay + 1 + (ahead - 1) * m;
    assert stay <= m && (s.attempt > 0 ==> stay < m);
    hide *;
    MulMonotone(ahead - 1, n - 2, m);
    Unfold(n, m);
    Unfold(n - 1, m);
  }

  /** So from any entry that is not the exit, `maxRetries` rotations for each of the other entries and one
      more are enough. */
  lemma ExitWithinBudget(s: Pools, p: nat, marks: seq<set<nat>>, maxRetries: nat)
    requires s.active < |s.connections| && p < |s.connections|
    requires s.connections[p].exit && !s.connections[s.active].exit
    requires |marks| >= (|s.connections| - 1) * PerEntry(maxRetries) + 1
    ensures Stops(s, marks, maxRetries)
  {
    hide *;
    DistanceBound(s, p, maxRetries);
    ExitIsReached(s, p, marks, maxRetries);
  }

  /** A rotation that leaves an entry in the list moves on from it, or tries it, or ends the program. */
  lemma LeavesActive(s: Pools, maxRetries: nat)
    requires s.active < |s.connections| && !s.connections[s.active].unrecoverable
    ensures var t := Rotated(s, maxRetries);
            || Tried(t, s.connections[s.active].id)
            || (t.connections == s.connections && t.active < |t.connections| && t.active != s.active && t.attempt == 1)
  {
  }

  /** Every entry, the active one included, is tried within `maxRetries` rotations per entry of the list,
      unless the program ends first or the very next rotation drops the entry. */
  lemma EveryEntryIsTried(s: Pools, p: nat, marks: seq<set<nat>>, maxRetries: nat)
    requires s.active < |s.connections| && p < |s.connections|
    requires |marks| >= |s.connections| * PerEntry(maxRetries) && |marks| > 0
    ensures var m := Marked(s, marks[0]);
            || Reaches(s, marks, maxRetries, s.connections[p].id)
            || (p == s.active && m.connections[p].unrecoverable
                && Rotated(m, maxRetries).connections == RemoveAt(m.connections, p))
  {
    if p != s.active {
      hide *;
      DistanceBound(s, p, maxRetries);
      OthersAreTried(s, p, marks, maxRetries);
    } else {
      var m := Marked(s, marks[0]);
      if !m.connections[p].unrecoverable {
        ActiveIsRetried(s, marks, maxRetries);
      }
    }
  }

  lemma ActiveIsRetried(s: Pools, marks: seq<set<nat>>, maxRetries: nat)
    requires s.active < |s.connections| && |marks| > 0
    requires |marks| >= |s.connections| * PerEntry(maxRetries)
    requires !Marked(s, marks[0]).connections[s.active].unrecoverable
    ensures Reaches(s, marks, maxRetries, s.connections[s.active].id)
  {
    hide Rotated, Marked, Distance, Tried, PerEntry;
    var m, p, id := Marked(s, marks[0]), s.active, s.connections[s.active].id;
    var t := Rotated(m, maxRetries);
    LeavesActive(m, maxRetries);
    if !Tried(t, id) {
      DistanceBound(t, p, maxRetries);
      OthersAreTried(t, p, marks[1..], maxRetries);
    }
  }

  /** A pool that answered, but whose flavour was not found, is out of the list after the next rotation. */
  lemma UndetectedPoolIsDropped(run: seq<Autodetect.Session>, events: seq<Autodetect.Event>, addresses: nat, i: nat,
                                s: Pools, maxRetries: nat)
    requires Autodetect.IsRun(run, events, addresses) && i < |run|
    requires run[i].reported && run[i].uri.responds && !run[i].uri.confirmed
    requires s.active < |s.connections| && s.connections[s.active].unrecoverable == run[i].uri.unrecoverable
    ensures Rotated(s, maxRetries).connections == RemoveAt(s.connections, s.active)
    ensures Distinct(s.connections) ==>
      forall k :: 0 <= k < |Rotated(s, maxRetries).connections| ==>
        Rotated(s, maxRetries).connections[k].id != s.connections[s.active].id
  {
    Autodetect.ExhaustedIsUnrecoverable(run, events, addresses, i);
    if Distinct(s.connections) {
      var t := RemoveAt(s.connections, s.active);
      forall k | 0 <= k < |t| ensures t[k].id != s.connections[s.active].id {
        DistinctAt(s.connections, s.active, if k < s.active then k else k + 1);
      }
    }
  }

  lemma AttemptStep(s: Pools, e: Event, maxRetries: nat)
    requires InBounds(s) && s.attempt <= PerEntry(maxRetries)
    ensures Apply(s, e, maxRetries).attempt <= PerEntry(maxRetries)
  {
    hide RemoveAt;
  }

  /** In every history the counter of attempts stays within the retries. */
  lemma {:induction false} AttemptsAreBounded(run: seq<Pools>, events: seq<Event>, maxRetries: nat, i: nat)
    requires IsRun(run, events, maxRetries) && i < |run| && run[0].attempt == 0
    ensures run[i].attempt <= PerEntry(maxRetries)
  {
    hide Apply, Fresh, InBounds, Distinct, PerEntry;
    if i > 0 {
      AttemptsAreBounded(run, events, maxRetries, i - 1);
      IndexStaysInBounds(run, events, maxRetries, i - 1);
      assert run[i - 1 + 1] == Apply(run[i - 1], events[i - 1], maxRetries);
      AttemptStep(run[i - 1], events[i - 1], maxRetries);
    }
  }

  // ----- tries in a row

  /** The pool tried last, and how many rotations in a row have tried it with no connection in between. */
  datatype Row = Row(id: nat, tries: nat)

  /** A rotation that leaves `s` as it is now has tried the active pool. */
  predicate TriesActive(s: Pools) {
    s.active < |s.connections| && !s.connections[s.active].exit
  }

  function Extended(row: Row, id: nat): Row {
    if row.id == id then Row(id, row.tries + 1) else Row(id, 1)
  }

  ghost function RowAfter(run: seq<Pools>, events: seq<Event>, n: nat): Row
    requires n <= |events| && n < |run|
  {
    if n == 0 then Row(0, 0)
    else
      var row, e, t := RowAfter(run, events, n - 1), events[n - 1], run[n];
      if e.Connected? then Row(row.id, 0)
      else if e == Rotate(false) && run[n - 1].connections != [] && TriesActive(t)
      then Extended(row, t.connections[t.active].id)
      else row
  }

  /** There was a connection, and no rotation since. */
  ghost predicate SinceConnected(events: seq<Event>, n: nat)
    requires n <= |events|
  {
    n > 0 && events[n - 1] != Rotate(false) && (events[n - 1].Connected? || SinceConnected(events, n - 1))
  }

  /** The order of events of the source: one start, which comes first; a rotation is posted by the start and by a
      disconnection, and none follows the end of the program; the failover timer is armed by a connection and
      cancelled by a disconnection. */
  ghost predicate InOrder(run: seq<Pools>, events: seq<Event>)
    requires |events| < |run|
  {
    forall i :: 0 <= i < |events| ==>
      && (events[i].Start? ==> i == 0)
      && (events[i] == Rotate(false) ==> run[i].pending && run[i].running)
      && (events[i].FailoverTimeout? ==> SinceConnected(events, i))
  }

  /** While a row is going, it is on the active pool, nobody can change the list or the choice, and the counter
      has counted it. */
  ghost predicate RowHolds(s: Pools, row: Row) {
    s.running && row.tries > 0 ==>
      s.pending && s.active < |s.connections| && s.connections[s.active].id == row.id && row.tries <= s.attempt
  }

  lemma {:induction false} NoRowSinceConnected(run: seq<Pools>, events: seq<Event>, n: nat)
    requires n <= |events| && n < |run| && SinceConnected(events, n)
    ensures RowAfter(run, events, n).tries == 0
  {
    if !events[n - 1].Connected? {
      NoRowSinceConnected(run, events, n - 1);
    }
  }

  /** Of the steps that are no rotation. */
  lemma RowStep(s: Pools, e: Event, maxRetries: nat, row: Row)
    requires InBounds(s) && RowHolds(s, row)
    requires !e.Start? && !e.Connected? && e != Rotate(false) && (e.FailoverTimeout? ==> row.tries == 0)
    ensures RowHolds(Apply(s, e, maxRetries), row)
  {
  }

  lemma AdvanceRow(s: Pools, maxRetries: nat, row: Row)
    requires s.active < |s.connections| && Distinct(s.connections) && RowHolds(s, row) && s.running && s.pending
    ensures var t := Advanced(s, maxRetries);
            && t.running && t.pending
            && (t.active < |t.connections| ==>
                  Extended(row, t.connections[t.active].id).tries <= t.attempt + 1 || row.tries == 0)
  {
    AdvanceCounts(s, maxRetries);
    AdvanceAttempt(s, maxRetries);
    hide Advanced, Distinct;
  }

  lemma AdvanceAttempt(s: Pools, maxRetries: nat)
    requires s.active < |s.connections|
    ensures var t := Advanced(s, maxRetries);
            && t.running == s.running && t.pending == s.pending
            && (t.switches == s.switches ==> t.attempt == s.attempt)
  {
  }

  lemma RotateRow(s: Pools, maxRetries: nat, row: Row)
    requires s.active < |s.connections| && Distinct(s.connections) && RowHolds(s, row) && s.running && s.pending
    ensures var t := Rotated(s, maxRetries);
            RowHolds(t, if TriesActive(t) then Extended(row, t.connections[t.active].id) else row)
  {
    AdvanceRow(s, maxRetries, row);
    hide Advanced, Distinct;
    var a := Advanced(s, maxRetries);
    assert Rotated(s, maxRetries) == Attempted(a);
  }

  lemma {:induction false} RowAlong(run: seq<Pools>, events: seq<Event>, maxRetries: nat, n: nat)
    requires IsRun(run, events, maxRetries) && InOrder(run, events) && n < |run|
    ensures RowHolds(run[n], RowAfter(run, events, n))
    decreases n
  {
    hide Apply, Fresh, Distinct, RowHolds;
    if n == 0 {
      NoRow(run[0]);
    } else {
      var s, e, row := run[n - 1], events[n - 1], RowAfter(run, events, n - 1);
      RowAlong(run, events, maxRetries, n - 1);
      IndexStaysInBounds(run, events, maxRetries, n - 1);
      assert run[n - 1 + 1] == Apply(s, e, maxRetries);
      if e.Start? || e.Connected? {
        NoRow(run[n]);
      } else if e == Rotate(false) {
        RotateApplies(s, maxRetries);
        if s.connections != [] { RotateRow(s, maxRetries, row); }
      } else {
        if e.FailoverTimeout? { NoRowSinceConnected(run, events, n - 1); }
        RowStep(s, e, maxRetries, row);
      }
    }
  }

  lemma NoRow(s: Pools)
    ensures forall id: nat :: RowHolds(s, Row(id, 0))
  {
  }

  lemma RotateApplies(s: Pools, maxRetries: nat)
    ensures Apply(s, Rotate(false), maxRetries) == if s.connections == [] then s else Rotated(s, maxRetries)
  {
  }

  /** No pool is tried more often in a row, with no connection in between, than its retries allow. */
  lemma {:induction false} TriesInARowAreBounded(run: seq<Pools>, events: seq<Event>, maxRetries: nat, n: nat)
    requires IsRun(run, events, maxRetries) && InOrder(run, events) && n < |run| && run[0].attempt == 0
    ensures RowAfter(run, events, n).tries <= PerEntry(maxRetries)
    decreases n
  {
    if n > 0 {
      TriesInARowAreBounded(run, events, maxRetries, n - 1);
      RowAlong(run, events, maxRetries, n);
      AttemptsAreBounded(run, events, maxRetries, n);
      hide Apply, Fresh, Distinct;
      assert run[n - 1 + 1] == Apply(run[n - 1], events[n - 1], maxRetries);
      RotateApplies(run[n - 1], maxRetries);
    }
  }

  // ----- what each call does to the choice

  /** Selecting a pool makes that pool the active one and leaves the list alone; a change leaves the manager busy
      until it is connected and gives the pool all its retries. */
  lemma SelectionIsFollowed(s: Pools, idx: nat, maxRetries: nat)
    requires InBounds(s)
    ensures SetActiveOutcome(s, idx).Success? <==> idx < |s.connections| && !s.pending
    ensures SetActiveOutcome(s, idx) == Failure(OutOfBounds) <==> idx >= |s.connections|
    ensures var t := Apply(s, SetActive(idx), maxRetries);
            && t.connections == s.connections
            && (SetActiveOutcome(s, idx).Failure? ==> t == s)
            && (SetActiveOutcome(s, idx).Success? ==>
                  && t.active < |t.connections| && t.connections[t.active] == s.connections[idx]
                  && (t.pending <==> idx != s.active) && (idx != s.active ==> t.attempt == 0))
  {
  }

  /** The failover timer of a running manager goes back to the first pool. */
  lemma FailoverReturnsToFirst(s: Pools, maxRetries: nat)
    requires InBounds(s) && s.connections != []
    ensures var t := Apply(s, FailoverTimeout, maxRetries);
            && t.connections == s.connections
            && (s.running ==> t.connections[t.active] == s.connections[0] && (s.active != 0 ==> t.attempt == 0))
            && (!s.running ==> t == s)
  {
  }

  /** A pool can be removed if and only if the manager is not busy and it is a pool other than the active one. */
  lemma RemovedExactlyWhen(s: Pools, idx: nat)
    ensures RemoveOutcome(s, idx).Success? <==> !s.pending && idx < |s.connections| && idx != s.active
    ensures RemoveOutcome(s, idx).Success? <==> Removed(s, idx) != s
    ensures s.pending ==> RemoveOutcome(s, idx) == Failure(Outstanding)
    ensures !s.pending && idx >= |s.connections| ==> RemoveOutcome(s, idx) == Failure(OutOfBounds)
  {
    if RemoveOutcome(s, idx).Success? {
      assert |Removed(s, idx).connections| == |s.connections| - 1;
    }
  }

  /** A pool is added behind the others, which stay as they are. */
  lemma AddedLast(s: Pools, entry: Entry, maxRetries: nat)
    requires InBounds(s)
    ensures var t := Apply(s, Add(entry), maxRetries);
            && |t.connections| == |s.connections| + 1 && t.connections[|s.connections|] == entry
            && (forall i :: 0 <= i < |s.connections| ==> t.connections[i] == s.connections[i])
            && t.active == s.active && t.attempt == s.attempt
  {
  }

  /** The state after k rotations in which nothing is marked. */
  ghost function Rotations(s: Pools, k: nat, maxRetries: nat): Pools {
    if k == 0 then s
    else
      var t := Rotations(s, k - 1, maxRetries);
      if t.connections == [] then t else Rotated(t, maxRetries)
  }

  /** A pool that has not failed for good is tried as often as its retries allow before the manager turns away. */
  lemma {:induction false} RetriesAreUsed(s: Pools, k: nat, maxRetries: nat)
    requires s.active < |s.connections| && s.attempt + k <= maxRetries
    requires !s.connections[s.active].unrecoverable && !s.connections[s.active].exit
    ensures Rotations(s, k, maxRetries) == s.(attempt := s.attempt + k)
  {
    hide Rotated;
    if k > 0 {
      RetriesAreUsed(s, k - 1, maxRetries);
      TriesAgain(Rotations(s, k - 1, maxRetries), maxRetries);
    }
  }

  lemma TriesAgain(s: Pools, maxRetries: nat)
    requires s.active < |s.connections| && s.attempt < maxRetries
    requires !s.connections[s.active].unrecoverable && !s.connections[s.active].exit
    ensures Rotated(s, maxRetries) == s.(attempt := s.attempt + 1)
  {
  }

  /** A connection gives the active pool all its retries again and frees the manager. */
  lemma ConnectionRenewsRetries(s: Pools, k: nat, maxRetries: nat)
    requires s.active < |s.connections| && k <= maxRetries
    requires !s.connections[s.active].unrecoverable && !s.connections[s.active].exit
    ensures var t := Apply(s, Connected, maxRetries);
            !t.pending && Rotations(t, k, maxRetries) == t.(attempt := k)
  {
    RetriesAreUsed(Apply(s, Connected, maxRetries), k, maxRetries);
  }

  lemma BusyStep(s: Pools, e: Event, maxRetries: nat)
    requires s.pending && !e.Connected?
    ensures Apply(s, e, maxRetries).pending
  {
  }

  /** From the start, and from every disconnection, to the next connection the manager is busy: no pool can be
      removed or selected. */
  lemma {:induction false} BusyUntilConnected(run: seq<Pools>, events: seq<Event>, maxRetries: nat,
                                              i: nat, j: nat, idx: nat)
    requires IsRun(run, events, maxRetries) && i < j < |run| && (events[i].Start? || events[i].Disconnected?)
    requires forall k :: i < k < j ==> !events[k].Connected?
    ensures run[j].pending
    ensures RemoveOutcome(run[j], idx).Failure? && SetActiveOutcome(run[j], idx).Failure?
    ensures events[i].Start? && j == i + 1 ==> run[j].running
    decreases j
  {
    assert run[j - 1 + 1] == Apply(run[j - 1], events[j - 1], maxRetries);
    if i + 1 < j {
      BusyUntilConnected(run, events, maxRetries, i, j - 1, idx);
      hide Apply;
      BusyStep(run[j - 1], events[j - 1], maxRetries);
    }
  }

  /** A mark is put on that pool and no other, and the rotation that comes to a marked pool drops it. */
  lemma MarkedIsDropped(s: Pools, idx: nat, maxRetries: nat)
    requires InBounds(s) && idx < |s.connections|
    ensures var t := Apply(s, Mark(idx), maxRetries);
            && |t.connections| == |s.connections| && t.active == s.active
            && (forall i :: 0 <= i < |s.connections| && i != idx ==> t.connections[i] == s.connections[i])
            && t.connections[idx] == s.connections[idx].(unrecoverable := true)
            && (idx == s.active ==> Rotated(t, maxRetries).connections == RemoveAt(t.connections, idx))
  {
  }
}
