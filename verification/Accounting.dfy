/** Share accounting: Farm.cpp counts what becomes of each solution, for the farm and for the miner that found
    it, and XcbStratumClient.cpp names the miner in the id of the request. */
module Accounting {
  import opened Arith

  datatype Kind = Accepted | Rejected | Wasted | Failed

  /** Counters are 32-bit unsigned integers. */
  const WRAP: nat := 0x1_0000_0000

  datatype Counters = Counters(accepted: nat, rejected: nat, wasted: nat, failed: nat)

  const ZERO: Counters := Counters(0, 0, 0, 0)

  function Count(c: Counters, k: Kind): nat {
    match k
    case Accepted => c.accepted
    case Rejected => c.rejected
    case Wasted => c.wasted
    case Failed => c.failed
  }

  function Bumped(c: Counters, k: Kind): Counters {
    match k
    case Accepted => c.(accepted := (c.accepted + 1) % WRAP)
    case Rejected => c.(rejected := (c.rejected + 1) % WRAP)
    case Wasted => c.(wasted := (c.wasted + 1) % WRAP)
    case Failed => c.(failed := (c.failed + 1) % WRAP)
  }

  /** The books: the farm's counters, one entry per miner ever started, the farm's state, and the highest
      request id of a submission in this session. */
  datatype Books = Books(farm: Counters, miners: seq<Counters>, mining: bool, maxId: nat)

  const FIRST_ID: nat := 40

  datatype Event =
    | FarmStart
    | FarmStop
    | SessionReset                      // start_connect() and disconnect_finalize()
    | Submit(midx: nat)                 // submitSolution()
    | Response(id: nat, success: bool)  // processResponse()
    | BadSolution(midx: nat)            // submitProofAsync() when its own evaluation disagrees

  /** A solution comes from a miner of a farm that has been started. */
  predicate Enabled(b: Books, e: Event, devices: nat) {
    match e
    case Submit(midx) => midx < devices && b.miners != []
    case BadSolution(midx) => midx < devices && b.miners != []
    case _ => true
  }

  /** accountSolution(): the farm's counter is raised first; the access to the miner's throws if there is none. */
  function Accounted(b: Books, idx: nat, k: Kind): Books {
    var c := b.(farm := Bumped(b.farm, k));
    if idx < |b.miners| then c.(miners := b.miners[idx := Bumped(b.miners[idx], k)]) else c
  }

  function Apply(b: Books, e: Event, devices: nat): Books {
    match e
    case FarmStart => if b.mining then b else b.(miners := b.miners + seq(devices, i => ZERO), mining := true)
    case FarmStop => b.(mining := false)
    case SessionReset => b.(maxId := 0)
    case Submit(midx) => b.(maxId := if FIRST_ID + midx > b.maxId then FIRST_ID + midx else b.maxId)
    case Response(id, success) =>
      if FIRST_ID <= id <= b.maxId then Accounted(b, id - FIRST_ID, if success then Accepted else Rejected) else b
    case BadSolution(midx) => Accounted(b, midx, Failed)
  }

  /** Farm::accountSolution on the telemetry it changes. */
  class Telemetry {
    var farm: Counters
    var miners: seq<Counters>
    ghost var mining: bool
    ghost var maxId: nat

    ghost function View(): Books
      reads this
    {
      Books(farm, miners, mining, maxId)
    }

    /** `ok` is false when the access to the miner's entry throws. */
    method AccountSolution(idx: nat, k: Kind) returns (ok: bool)
      modifies this
      ensures ok == (idx < |old(miners)|)
      ensures View() == Accounted(old(View()), idx, k)
    {
      farm := Bumped(farm, k);
      if idx >= |miners| { return false; }
      miners := miners[idx := Bumped(miners[idx], k)];
      return true;
    }
  }

  // ----- conservation

  ghost function Sum(miners: seq<Counters>, k: Kind): nat {
    if miners == [] then 0 else Sum(miners[..|miners| - 1], k) + Count(miners[|miners| - 1], k)
  }

  /** Each counter of the farm is the sum of that counter over the miners, as 32-bit numbers. */
  ghost predicate Conserved(b: Books) {
    forall k: Kind :: Count(b.farm, k) == Sum(b.miners, k) % WRAP
  }

  function One(b: bool): nat {
    if b then 1 else 0
  }

  lemma BumpedCount(c: Counters, bumped: Kind, k: Kind)
    ensures Count(Bumped(c, bumped), k) % WRAP == (Count(c, k) + One(k == bumped)) % WRAP
    ensures k == bumped ==> Count(Bumped(c, bumped), k) == (Count(c, k) + 1) % WRAP
    ensures k != bumped ==> Count(Bumped(c, bumped), k) == Count(c, k)
  {
  }

  lemma {:induction false} SumBumped(miners: seq<Counters>, idx: nat, bumped: Kind, k: Kind)
    requires idx < |miners|
    ensures Sum(miners[idx := Bumped(miners[idx], bumped)], k) % WRAP == (Sum(miners, k) + One(k == bumped)) % WRAP
    decreases |miners|
  {
    hide Bumped, Count, One;
    var after := miners[idx := Bumped(miners[idx], bumped)];
    var n, one := |miners| - 1, One(k == bumped);
    if idx == n {
      assert after[..n] == miners[..n];
      BumpedCount(miners[n], bumped, k);
      OneMore(Count(after[n], k), Count(miners[n], k), one, Sum(miners[..n], k));
    } else {
      assert after[..n] == miners[..n][idx := Bumped(miners[..n][idx], bumped)];
      SumBumped(miners[..n], idx, bumped, k);
      OneMore(Sum(after[..n], k), Sum(miners[..n], k), one, Count(miners[n], k));
    }
  }

  lemma OneMore(now: nat, was: nat, one: nat, rest: nat)
    requires now % WRAP == (was + one) % WRAP
    ensures (now + rest) % WRAP == (was + rest + one) % WRAP
  {
    ModAdd(now, rest, WRAP);
    ModAdd(was + one, rest, WRAP);
    assert was + rest + one == was + one + rest;
  }

  lemma {:induction false} SumExtended(miners: seq<Counters>, n: nat, k: Kind)
    ensures Sum(miners + seq(n, i => ZERO), k) == Sum(miners, k)
    decreases n
  {
    if n == 0 {
      assert miners + seq(n, i => ZERO) == miners;
    } else {
      assert (miners + seq(n, i => ZERO))[..|miners| + n - 1] == miners + seq(n - 1, i => ZERO);
      SumExtended(miners, n - 1, k);
    }
  }

  /** Accounting keeps the books balanced exactly when the miner has an entry. */
  lemma AccountingBalances(b: Books, idx: nat, k: Kind)
    requires Conserved(b)
    ensures Conserved(Accounted(b, idx, k)) <==> idx < |b.miners|
  {
    var c := Accounted(b, idx, k);
    hide Bumped, Count;
    BumpedCount(b.farm, k, k);
    if idx < |b.miners| {
      forall j: Kind ensures Count(c.farm, j) == Sum(c.miners, j) % WRAP {
        FarmCount(b, idx, k, j);
      }
    } else {
      assert Count(b.farm, k) == Sum(b.miners, k) % WRAP;
      Differs(Count(b.farm, k));
    }
  }

  lemma Differs(x: nat)
    requires x < WRAP
    ensures (x + 1) % WRAP != x
  {
  }

  lemma FarmCount(b: Books, idx: nat, k: Kind, j: Kind)
    requires Conserved(b) && idx < |b.miners|
    ensures Count(Accounted(b, idx, k).farm, j) == Sum(Accounted(b, idx, k).miners, j) % WRAP
  {
    hide Bumped, Count;
    assert Count(b.farm, j) == Sum(b.miners, j) % WRAP;
    BumpedCount(b.farm, k, j);
    SumBumped(b.miners, idx, k, j);
    hide Accounted, Sum;
    var sum := Sum(b.miners, j);
    if j == k {
      ModAdd(sum, 1, WRAP);
    }
  }

  ghost predicate Inv(b: Books, devices: nat) {
    && Conserved(b)
    && (b.miners != [] ==> devices <= |b.miners|)
    && (b.maxId == 0 || FIRST_ID <= b.maxId < FIRST_ID + |b.miners|)
  }

  lemma InvStep(b: Books, e: Event, devices: nat)
    requires Inv(b, devices) && Enabled(b, e, devices)
    ensures Inv(Apply(b, e, devices), devices)
  {
    match e
    case FarmStart =>
      forall k: Kind ensures Sum(b.miners + seq(devices, i => ZERO), k) == Sum(b.miners, k) {
        SumExtended(b.miners, devices, k);
      }
    case Response(id, success) =>
      if FIRST_ID <= id <= b.maxId {
        AccountingBalances(b, id - FIRST_ID, if success then Accepted else Rejected);
      }
    case BadSolution(midx) => AccountingBalances(b, midx, Failed);
    case _ =>
  }

  ghost predicate IsRun(run: seq<Books>, events: seq<Event>, devices: nat) {
    && |run| == |events| + 1
    && run[0] == Books(ZERO, [], false, 0)
    && forall i :: 0 <= i < |events| ==>
         Enabled(run[i], events[i], devices) && run[i + 1] == Apply(run[i], events[i], devices)
  }

  /** Over every run, farm restarts and reconnections included, the books balance, and every response that is
      accepted names a miner that has an entry. */
  lemma {:induction false} SharesAreConserved(run: seq<Books>, events: seq<Event>, devices: nat, i: nat)
    requires IsRun(run, events, devices) && i < |run|
    ensures Conserved(run[i])
    ensures run[i].maxId == 0 || FIRST_ID <= run[i].maxId < FIRST_ID + |run[i].miners|
    ensures Inv(run[i], devices)
  {
    hide Apply, Enabled, Conserved;
    if i == 0 {
      NothingIsConserved();
    } else {
      SharesAreConserved(run, events, devices, i - 1);
      assert run[i - 1 + 1] == Apply(run[i - 1], events[i - 1], devices);
      InvStep(run[i - 1], events[i - 1], devices);
    }
  }

  lemma NothingIsConserved()
    ensures Conserved(Books(ZERO, [], false, 0))
  {
  }

  // ----- what the counters count

  /** In state `b` the event reports an outcome of kind `k` for miner `m`. */
  predicate Reports(b: Books, e: Event, m: nat, k: Kind) {
    match e
    case Response(id, success) =>
      FIRST_ID <= id <= b.maxId && id == FIRST_ID + m && k == if success then Accepted else Rejected
    case BadSolution(midx) => midx == m && k == Failed
    case _ => false
  }

  ghost function Tally(run: seq<Books>, events: seq<Event>, n: nat, m: nat, k: Kind): nat
    requires n <= |events| <= |run|
  {
    if n == 0 then 0 else Tally(run, events, n - 1, m, k) + One(Reports(run[n - 1], events[n - 1], m, k))
  }

  lemma ReportedStep(b: Books, e: Event, devices: nat, m: nat, k: Kind)
    requires Inv(b, devices) && Enabled(b, e, devices)
    ensures var c := Apply(b, e, devices);
            && |b.miners| <= |c.miners|
            && (m < |b.miners| ==>
                  Count(c.miners[m], k) % WRAP == (Count(b.miners[m], k) + One(Reports(b, e, m, k))) % WRAP)
            && (m >= |b.miners| ==> !Reports(b, e, m, k))
            && (|b.miners| <= m < |c.miners| ==> Count(c.miners[m], k) == 0)
            && (m < |b.miners| && Count(b.miners[m], k) < WRAP ==> Count(c.miners[m], k) < WRAP)
  {
    hide Bumped, Conserved;
    if m < |b.miners| {
      BumpedCount(b.miners[m], Accepted, k);
      BumpedCount(b.miners[m], Rejected, k);
      BumpedCount(b.miners[m], Failed, k);
    }
  }

  /** Each miner's counter is the number of outcomes of that kind reported for it since the program began, as
      a 32-bit number: none is counted twice, dropped or given to another miner. */
  lemma {:induction false} MinersCountTheirOutcomes(run: seq<Books>, events: seq<Event>, devices: nat,
                                                    n: nat, m: nat, k: Kind)
    requires IsRun(run, events, devices) && n < |run|
    ensures m < |run[n].miners| ==> Count(run[n].miners[m], k) == Tally(run, events, n, m, k) % WRAP
    ensures m >= |run[n].miners| ==> Tally(run, events, n, m, k) == 0
    decreases n
  {
    hide Apply, Enabled, Inv, Count, Reports, One;
    if n > 0 {
      MinersCountTheirOutcomes(run, events, devices, n - 1, m, k);
      SharesAreConserved(run, events, devices, n - 1);
      assert Enabled(run[n - 1], events[n - 1], devices) && run[n - 1 + 1] == Apply(run[n - 1], events[n - 1], devices);
      ReportedStep(run[n - 1], events[n - 1], devices, m, k);
      NoOne();
      if m < |run[n - 1].miners| {
        CountsOn(Tally(run, events, n - 1, m, k), Count(run[n - 1].miners[m], k), Count(run[n].miners[m], k),
                 One(Reports(run[n - 1], events[n - 1], m, k)));
      }
    }
  }

  lemma CountsOn(tally: nat, before: nat, after: nat, one: nat)
    requires before == tally % WRAP && after < WRAP && after % WRAP == (before + one) % WRAP
    ensures after == (tally + one) % WRAP
  {
    ModAdd(tally, one, WRAP);
  }

  lemma NoOne()
    ensures One(false) == 0
  {
  }

  // ----- which responses count

  /** A solution of miner m, or of one with a higher index, has been submitted since the session was last reset. */
  ghost predicate SubmittedSince(events: seq<Event>, n: nat, m: nat)
    requires n <= |events|
  {
    && n > 0
    && match events[n - 1]
       case SessionReset => false
       case Submit(k) => k >= m || SubmittedSince(events, n - 1, m)
       case _ => SubmittedSince(events, n - 1, m)
  }

  lemma {:induction false} MaxIdKnows(run: seq<Books>, events: seq<Event>, devices: nat, n: nat, m: nat)
    requires IsRun(run, events, devices) && n < |run|
    ensures run[n].maxId >= FIRST_ID + m <==> SubmittedSince(events, n, m)
    decreases n
  {
    hide Conserved, Bumped;
    if n > 0 {
      MaxIdKnows(run, events, devices, n - 1, m);
      assert run[n - 1 + 1] == Apply(run[n - 1], events[n - 1], devices);
    }
  }

  /** A response to a request of miner m raises its counter of that kind by one if a solution of that miner, or of
      one after it, has been submitted in the session, and is ignored otherwise. */
  lemma ResponseCountsExactlyWhen(run: seq<Books>, events: seq<Event>, devices: nat, n: nat, m: nat, success: bool)
    requires IsRun(run, events, devices) && n < |events| && events[n] == Response(FIRST_ID + m, success)
    ensures !SubmittedSince(events, n, m) ==> run[n + 1] == run[n]
    ensures SubmittedSince(events, n, m) ==>
              var k := if success then Accepted else Rejected;
              && m < |run[n].miners| == |run[n + 1].miners|
              && Count(run[n + 1].miners[m], k) == (Count(run[n].miners[m], k) + 1) % WRAP
              && Count(run[n + 1].farm, k) == (Count(run[n].farm, k) + 1) % WRAP
  {
    MaxIdKnows(run, events, devices, n, m);
    SharesAreConserved(run, events, devices, n);
    hide Conserved, SubmittedSince;
    assert run[n + 1] == Apply(run[n], events[n], devices);
    if SubmittedSince(events, n, m) {
      var k := if success then Accepted else Rejected;
      BumpedCount(run[n].miners[m], k, k);
      BumpedCount(run[n].farm, k, k);
      hide Bumped, Count;
    }
  }

  /** A farm that is stopped and started again has one new entry per device, with nothing counted. */
  lemma RestartAddsEntries(run: seq<Books>, events: seq<Event>, devices: nat, n: nat)
    requires IsRun(run, events, devices) && n + 1 < |events| && events[n] == FarmStop && events[n + 1] == FarmStart
    ensures |run[n + 2].miners| == |run[n].miners| + devices && run[n + 2].farm == run[n].farm
    ensures run[n + 2].miners[..|run[n].miners|] == run[n].miners
    ensures run[n + 2].miners[|run[n].miners|..] == seq(devices, i => ZERO)
  {
    hide Conserved;
    assert run[n + 1] == Apply(run[n], FarmStop, devices);
    assert run[n + 1 + 1] == Apply(run[n + 1], FarmStart, devices);
  }

  /** A farm that has been started and not stopped since is not given new entries by another start. */
  lemma {:induction false} StartedOnce(run: seq<Books>, events: seq<Event>, devices: nat, i: nat, j: nat)
    requires IsRun(run, events, devices) && i < j < |run| && events[i] == FarmStart
    requires forall k :: i < k < j ==> events[k] != FarmStop
    ensures run[j].mining && |run[j].miners| == |run[i + 1].miners|
    decreases j
  {
    hide Conserved, Bumped;
    assert run[j - 1 + 1] == Apply(run[j - 1], events[j - 1], devices);
    if i + 1 < j {
      StartedOnce(run, events, devices, i, j - 1);
    }
  }
}
