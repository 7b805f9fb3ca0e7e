/** Miners and the farm that drives them (Miner.cpp, Farm.cpp), with the pool handlers of PoolManager.cpp that
    start, pause and resume the farm.  Handlers run one after another on the io thread. */
module Farms {

  datatype Reason = OverHeating | ApiRequest | FarmPaused | InsufficientMemory | InitEpochError

  /** A miner's pause flags and the header of its work; a header of 0 is void work. */
  datatype MinerState = MinerState(header: nat, flags: set<Reason>)

  const IDLE: MinerState := MinerState(0, {})

  function Given(m: MinerState, header: nat): MinerState {
    m.(header := if m.flags != {} then 0 else header)
  }

  function Suspended(m: MinerState, why: Reason): MinerState {
    MinerState(0, m.flags + {why})
  }

  function Resumed(m: MinerState, why: Reason): MinerState {
    m.(flags := m.flags - {why})
  }

  class Miner {
    var header: nat
    var flags: set<Reason>

    ghost function View(): MinerState
      reads this
    {
      MinerState(header, flags)
    }

    constructor ()
      ensures View() == IDLE
    {
      header, flags := 0, {};
    }

    method SetWork(work: nat)
      modifies this
      ensures View() == Given(old(View()), work)
    {
      if flags != {} {
        header := 0;
      } else {
        header := work;
      }
    }

    method Pause(why: Reason)
      modifies this
      ensures View() == Suspended(old(View()), why)
    {
      flags := flags + {why};
      header := 0;
    }

    method Resume(why: Reason)
      modifies this
      ensures View() == Resumed(old(View()), why)
    {
      flags := flags - {why};
    }
  }

  datatype FarmState = FarmState(miners: seq<MinerState>, paused: bool, mining: bool)

  function Started(f: FarmState, devices: nat): FarmState {
    if f.mining then f
    else if f.miners == [] then f.(miners := seq(devices, i => IDLE), mining := true)
    else f.(mining := true)
  }

  function Stopped(f: FarmState): FarmState {
    if f.mining then f.(miners := [], mining := false) else f
  }

  function WorkSet(f: FarmState, header: nat): FarmState {
    f.(miners := seq(|f.miners|, i requires 0 <= i < |f.miners| => Given(f.miners[i], header)))
  }

  function AllSuspended(f: FarmState): FarmState {
    f.(miners := seq(|f.miners|, i requires 0 <= i < |f.miners| => Suspended(f.miners[i], FarmPaused)), paused := true)
  }

  function AllResumed(f: FarmState): FarmState {
    f.(miners := seq(|f.miners|, i requires 0 <= i < |f.miners| => Resumed(f.miners[i], FarmPaused)), paused := false)
  }

  /** The farm and its miner objects. */
  class Farm {
    var miners: seq<Miner>
    var paused: bool
    var mining: bool

    ghost predicate Valid()
      reads this
    {
      forall i, j :: 0 <= i < j < |miners| ==> miners[i] != miners[j]
    }

    ghost function View(): FarmState
      reads this, miners
    {
      FarmState(seq(|miners|, i requires 0 <= i < |miners| reads this, miners => miners[i].View()), paused, mining)
    }

    constructor ()
      ensures Valid() && View() == FarmState([], false, false)
    {
      miners, paused, mining := [], false, false;
    }

    method Start(devices: nat)
      requires Valid()
      modifies this
      ensures Valid() && View() == Started(old(View()), devices)
      ensures fresh(set m | m in miners && m !in old(miners))
    {
      if mining { return; }
      if |miners| == 0 {
        for d := 0 to devices
          invariant Valid() && |miners| == d && paused == old(paused) && mining == old(mining)
          invariant forall m :: m in miners ==> fresh(m) && m.View() == IDLE
        {
          var m := new Miner();
          miners := miners + [m];
        }
      }
      mining := true;
    }

    method Stop()
      requires Valid()
      modifies this
      ensures Valid() && View() == Stopped(old(View()))
    {
      if mining {
        miners, mining := [], false;
      }
    }

    method SetWork(header: nat)
      requires Valid()
      modifies miners
      ensures Valid() && View() == WorkSet(old(View()), header)
    {
      for i := 0 to |miners|
        invariant forall k :: 0 <= k < i ==> miners[k].View() == Given(old(miners[k].View()), header)
        invariant forall k :: i <= k < |miners| ==> miners[k].View() == old(miners[k].View())
      {
        miners[i].SetWork(header);
      }
    }

    method Pause()
      requires Valid()
      modifies this`paused, miners
      ensures Valid() && View() == AllSuspended(old(View()))
    {
      paused := true;
      for i := 0 to |miners|
        invariant paused && miners == old(miners)
        invariant forall k :: 0 <= k < i ==> miners[k].View() == Suspended(old(miners[k].View()), FarmPaused)
        invariant forall k :: i <= k < |miners| ==> miners[k].View() == old(miners[k].View())
      {
        miners[i].Pause(FarmPaused);
      }
    }

    method Resume()
      requires Valid()
      modifies this`paused, miners
      ensures Valid() && View() == AllResumed(old(View()))
    {
      paused := false;
      for i := 0 to |miners|
        invariant !paused && miners == old(miners)
        invariant forall k :: 0 <= k < i ==> miners[k].View() == Resumed(old(miners[k].View()), FarmPaused)
        invariant forall k :: i <= k < |miners| ==> miners[k].View() == old(miners[k].View())
      {
        miners[i].Resume(FarmPaused);
      }
    }
  }

  // ----- the handlers of the pool manager and of the control interface

  datatype Event =
    | Connected
    | Disconnected(stopping: bool)
    | WorkReceived(header: nat)
    | Restarted
    | Exited
    | MinerPaused(idx: nat, why: Reason)
    | MinerResumed(idx: nat, why: Reason)

  /** The farm's own flag is set on a miner by the farm only. */
  predicate Enabled(e: Event) {
    (e.MinerPaused? ==> e.why != FarmPaused) && (e.MinerResumed? ==> e.why != FarmPaused)
  }

  function Apply(f: FarmState, e: Event, devices: nat): FarmState {
    match e
    case Connected => if !f.mining then Started(f, devices) else if f.paused then AllResumed(f) else f
    case Disconnected(stopping) => if stopping then Stopped(f) else AllSuspended(f)
    case WorkReceived(header) => if header == 0 then f else WorkSet(f, header)
    case Restarted => Started(Stopped(f), devices)
    case Exited => Stopped(f)
    case MinerPaused(idx, why) =>
      if idx < |f.miners| then f.(miners := f.miners[idx := Suspended(f.miners[idx], why)]) else f
    case MinerResumed(idx, why) =>
      if idx < |f.miners| then f.(miners := f.miners[idx := Resumed(f.miners[idx], why)]) else f
  }

  method OnConnected(farm: Farm, devices: nat)
    requires farm.Valid()
    modifies farm, farm.miners
    ensures farm.Valid() && farm.View() == Apply(old(farm.View()), Connected, devices)
  {
    if !farm.mining {
      farm.Start(devices);
    } else if farm.paused {
      farm.Resume();
    }
  }

  method OnDisconnected(farm: Farm, stopping: bool, devices: nat)
    requires farm.Valid()
    modifies farm, farm.miners
    ensures farm.Valid() && farm.View() == Apply(old(farm.View()), Disconnected(stopping), devices)
  {
    if stopping {
      if farm.mining { farm.Stop(); }
    } else {
      farm.Pause();
    }
  }

  method OnMinerRestart(farm: Farm, devices: nat)
    requires farm.Valid()
    modifies farm
    ensures farm.Valid() && farm.View() == Apply(old(farm.View()), Restarted, devices)
  {
    if farm.mining { farm.Stop(); }
    farm.Start(devices);
  }

  // ----- every sequence of handlers

  ghost predicate Coherent(f: FarmState) {
    && (forall i :: 0 <= i < |f.miners| ==> f.miners[i].flags != {} ==> f.miners[i].header == 0)
    && (forall i :: 0 <= i < |f.miners| ==> FarmPaused in f.miners[i].flags ==> f.paused)
    && (!f.mining ==> f.miners == [])
  }

  ghost predicate NoLiveWork(f: FarmState) {
    forall i :: 0 <= i < |f.miners| ==> f.miners[i].header == 0
  }

  ghost predicate NoneFarmPaused(f: FarmState) {
    forall i :: 0 <= i < |f.miners| ==> FarmPaused !in f.miners[i].flags
  }

  ghost predicate IsRun(run: seq<FarmState>, events: seq<Event>, devices: nat) {
    && |run| == |events| + 1
    && run[0] == FarmState([], false, false)
    && forall i :: 0 <= i < |events| ==> Enabled(events[i]) && run[i + 1] == Apply(run[i], events[i], devices)
  }

  lemma CoherentStep(f: FarmState, e: Event, devices: nat)
    requires Coherent(f) && Enabled(e)
    ensures Coherent(Apply(f, e, devices))
    ensures NoLiveWork(f) && !e.WorkReceived? ==> NoLiveWork(Apply(f, e, devices))
  {
  }

  /** In every run: a paused miner holds no live header, a miner paused by the farm means that the farm is
      paused, and a farm that is not mining has no miners. */
  lemma {:induction false} PauseIsCoherent(run: seq<FarmState>, events: seq<Event>, devices: nat, i: nat)
    requires IsRun(run, events, devices) && i < |run|
    ensures Coherent(run[i])
  {
    hide Apply, Coherent;
    if i == 0 {
      NothingIsCoherent();
    } else {
      PauseIsCoherent(run, events, devices, i - 1);
      assert Enabled(events[i - 1]) && run[i - 1 + 1] == Apply(run[i - 1], events[i - 1], devices);
      CoherentStep(run[i - 1], events[i - 1], devices);
    }
  }

  lemma NothingIsCoherent()
    ensures Coherent(FarmState([], false, false))
  {
  }

  /** After a connection no miner is paused by the farm, and the farm's flag is still set only if it was set
      on a farm that had to be started. */
  lemma ConnectedResumes(run: seq<FarmState>, events: seq<Event>, devices: nat, i: nat)
    requires IsRun(run, events, devices) && i < |events| && events[i] == Connected
    ensures run[i + 1].mining
    ensures NoneFarmPaused(run[i + 1])
    ensures run[i + 1].paused <==> run[i].paused && !run[i].mining
  {
    PauseIsCoherent(run, events, devices, i);
    assert Enabled(events[i]) && run[i + 1] == Apply(run[i], events[i], devices);
  }

  /** After a disconnection that is not a stop, no miner holds live work until work is next received. */
  lemma {:induction false} NoWorkWhileDisconnected(run: seq<FarmState>, events: seq<Event>, devices: nat,
                                                   i: nat, j: nat)
    requires IsRun(run, events, devices) && i < j < |run|
    requires events[i] == Disconnected(false)
    requires forall k :: i < k < j ==> !events[k].WorkReceived?
    ensures NoLiveWork(run[j])
    decreases j
  {
    assert Enabled(events[j - 1]) && run[j - 1 + 1] == Apply(run[j - 1], events[j - 1], devices);
    if j == i + 1 {
      DisconnectedVoids(run[i], devices);
    } else {
      hide Apply, Coherent, NoLiveWork;
      NoWorkWhileDisconnected(run, events, devices, i, j - 1);
      PauseIsCoherent(run, events, devices, j - 1);
      CoherentStep(run[j - 1], events[j - 1], devices);
    }
  }

  /** The header received last before step n, or 0. */
  ghost function Latest(events: seq<Event>, n: nat): nat
    requires n <= |events|
  {
    if n == 0 then 0
    else if events[n - 1].WorkReceived? && events[n - 1].header != 0 then events[n - 1].header
    else Latest(events, n - 1)
  }

  ghost predicate OnlyWork(f: FarmState, header: nat) {
    forall i :: 0 <= i < |f.miners| ==> f.miners[i].header == 0 || f.miners[i].header == header
  }

  lemma WorkStep(f: FarmState, e: Event, devices: nat, header: nat)
    requires OnlyWork(f, header)
    ensures OnlyWork(Apply(f, e, devices), if e.WorkReceived? && e.header != 0 then e.header else header)
  {
  }

  /** No miner is on a job other than the one received last. */
  lemma {:induction false} LiveWorkIsLatest(run: seq<FarmState>, events: seq<Event>, devices: nat, i: nat)
    requires IsRun(run, events, devices) && i < |run|
    ensures OnlyWork(run[i], Latest(events, i))
    decreases i
  {
    hide Apply, OnlyWork;
    if i == 0 {
      assert OnlyWork(FarmState([], false, false), 0) by { NoMinersNoWork(); }
    } else {
      LiveWorkIsLatest(run, events, devices, i - 1);
      assert Enabled(events[i - 1]) && run[i - 1 + 1] == Apply(run[i - 1], events[i - 1], devices);
      WorkStep(run[i - 1], events[i - 1], devices, Latest(events, i - 1));
    }
  }

  lemma NoMinersNoWork()
    ensures OnlyWork(FarmState([], false, false), 0)
  {
  }

  /** Work received goes to exactly the miners that are not paused. */
  lemma WorkReaches(run: seq<FarmState>, events: seq<Event>, devices: nat, i: nat, k: nat)
    requires IsRun(run, events, devices) && i < |events| && events[i].WorkReceived? && events[i].header != 0
    requires k < |run[i].miners|
    ensures k < |run[i + 1].miners| && run[i + 1].miners[k].flags == run[i].miners[k].flags
    ensures run[i + 1].miners[k].header == events[i].header <==> run[i].miners[k].flags == {}
  {
    assert Enabled(events[i]) && run[i + 1] == Apply(run[i], events[i], devices);
  }

  /** The handlers that take a pause for reason `why` off miner k. */
  predicate Lifts(e: Event, k: nat, why: Reason) {
    e == MinerResumed(k, why) || e.Restarted? || e.Exited? || e == Disconnected(true)
  }

  /** A pause for a reason of its own outlasts everything the farm does, short of dropping the miner. */
  lemma {:induction false} PauseLasts(run: seq<FarmState>, events: seq<Event>, devices: nat,
                                      i: nat, j: nat, k: nat, why: Reason)
    requires IsRun(run, events, devices) && i <= j < |run|
    requires k < |run[i].miners| && why in run[i].miners[k].flags && why != FarmPaused
    requires forall n :: i <= n < j ==> !Lifts(events[n], k, why)
    ensures k < |run[j].miners| && why in run[j].miners[k].flags && run[j].miners[k].header == 0
    decreases j
  {
    PauseIsCoherent(run, events, devices, j);
    if i < j {
      PauseLasts(run, events, devices, i, j - 1, k, why);
      PauseIsCoherent(run, events, devices, j - 1);
      assert Enabled(events[j - 1]) && run[j - 1 + 1] == Apply(run[j - 1], events[j - 1], devices);
    }
  }

  lemma DisconnectedVoids(f: FarmState, devices: nat)
    ensures NoLiveWork(Apply(f, Disconnected(false), devices))
  {
  }

  // ----- when a paused farm has paused miners

  ghost predicate AllFlagged(f: FarmState) {
    f.paused ==> forall i :: 0 <= i < |f.miners| ==> FarmPaused in f.miners[i].flags
  }

  /** The handler starts new miners in a paused farm. */
  predicate Forgets(f: FarmState, e: Event) {
    f.paused && (e.Restarted? || (e.Connected? && !f.mining))
  }

  /** A farm whose pause is on all its miners stays so exactly when the handler does not start new ones in it. */
  lemma FlaggedStep(f: FarmState, e: Event, devices: nat)
    requires Coherent(f) && Enabled(e) && devices > 0 && AllFlagged(f)
    ensures AllFlagged(Apply(f, e, devices)) <==> !Forgets(f, e)
  {
    if Forgets(f, e) {
      var g := Apply(f, e, devices);
      assert g.paused && g.miners[0] == IDLE;
    }
  }

  /** Over a whole run: as long as no handler starts miners in a paused farm, and no longer, a paused farm means
      that every miner is paused by it. */
  lemma {:induction false} PauseIsOnAllExactlyWhen(run: seq<FarmState>, events: seq<Event>, devices: nat, n: nat)
    requires IsRun(run, events, devices) && n < |run| && devices > 0
    ensures (forall i :: 0 <= i <= n ==> AllFlagged(run[i]))
       <==> (forall i :: 0 <= i < n ==> !Forgets(run[i], events[i]))
    decreases n
  {
    hide Apply, Coherent, Forgets;
    if n > 0 {
      PauseIsOnAllExactlyWhen(run, events, devices, n - 1);
      PauseIsCoherent(run, events, devices, n - 1);
      assert Enabled(events[n - 1]) && run[n - 1 + 1] == Apply(run[n - 1], events[n - 1], devices);
      if AllFlagged(run[n - 1]) {
        FlaggedStep(run[n - 1], events[n - 1], devices);
      }
    }
  }

  /** One that is forgotten: a restart while disconnected leaves the farm paused with miners that are not. */
  lemma RestartForgetsPause()
    ensures var connected := Apply(FarmState([], false, false), Connected, 1);
            var f := Apply(Apply(connected, Disconnected(false), 1), Restarted, 1);
            f.paused && f.miners == [IDLE]
  {
  }

  // ----- pausing and resuming one miner, starting and stopping all

  /** All miners but the k-th are as they were. */
  ghost predicate OthersKept(f: FarmState, g: FarmState, k: nat) {
    |g.miners| == |f.miners| && forall i :: 0 <= i < |f.miners| && i != k ==> g.miners[i] == f.miners[i]
  }

  /** Resuming a miner takes that reason off it, and changes no other reason, no work and no other miner. */
  lemma ResumeTakesOff(run: seq<FarmState>, events: seq<Event>, devices: nat, i: nat, k: nat, why: Reason)
    requires IsRun(run, events, devices) && i < |events| && events[i] == MinerResumed(k, why) && k < |run[i].miners|
    ensures OthersKept(run[i], run[i + 1], k) && run[i + 1].miners[k].header == run[i].miners[k].header
    ensures why !in run[i + 1].miners[k].flags
    ensures forall r :: r != why ==> (r in run[i + 1].miners[k].flags <==> r in run[i].miners[k].flags)
  {
    assert Enabled(events[i]) && run[i + 1] == Apply(run[i], events[i], devices);
  }

  /** Pausing a miner puts that reason on it and voids its work, and changes no other reason and no other miner. */
  lemma PausePutsOn(run: seq<FarmState>, events: seq<Event>, devices: nat, i: nat, k: nat, why: Reason)
    requires IsRun(run, events, devices) && i < |events| && events[i] == MinerPaused(k, why) && k < |run[i].miners|
    ensures OthersKept(run[i], run[i + 1], k) && run[i + 1].miners[k].header == 0
    ensures why in run[i + 1].miners[k].flags
    ensures forall r :: r != why ==> (r in run[i + 1].miners[k].flags <==> r in run[i].miners[k].flags)
  {
    assert Enabled(events[i]) && run[i + 1] == Apply(run[i], events[i], devices);
  }

  /** A miner resumed from its only pause takes the next job. */
  lemma ResumedTakesWork(run: seq<FarmState>, events: seq<Event>, devices: nat, i: nat, k: nat, why: Reason)
    requires IsRun(run, events, devices) && i + 1 < |events| && events[i] == MinerResumed(k, why)
    requires k < |run[i].miners| && run[i].miners[k].flags == {why}
    requires events[i + 1].WorkReceived? && events[i + 1].header != 0
    ensures k < |run[i + 2].miners| && run[i + 2].miners[k].header == events[i + 1].header
  {
    ResumeTakesOff(run, events, devices, i, k, why);
    assert run[i + 1].miners[k].flags == {};
    WorkReaches(run, events, devices, i + 1, k);
  }

  /** A start of a farm that is not mining, and a restart of any farm, give it one idle miner per device; a stop
      leaves it none. */
  lemma StartsAllDevices(run: seq<FarmState>, events: seq<Event>, devices: nat, i: nat)
    requires IsRun(run, events, devices) && i < |events|
    ensures (events[i].Connected? && !run[i].mining) || events[i].Restarted? ==>
              run[i + 1].mining && |run[i + 1].miners| == devices && AllIdle(run[i + 1])
    ensures events[i].Exited? || events[i] == Disconnected(true) ==> !run[i + 1].mining && run[i + 1].miners == []
  {
    PauseIsCoherent(run, events, devices, i);
    assert Enabled(events[i]) && run[i + 1] == Apply(run[i], events[i], devices);
  }

  ghost predicate AllIdle(f: FarmState) {
    forall k :: 0 <= k < |f.miners| ==> f.miners[k] == IDLE
  }

  /** A connection to a mining farm lifts the farm's own pause and leaves everything else of the miners alone. */
  lemma ConnectionKeepsMiners(run: seq<FarmState>, events: seq<Event>, devices: nat, i: nat, k: nat)
    requires IsRun(run, events, devices) && i < |events| && events[i].Connected? && run[i].mining
    requires k < |run[i].miners|
    ensures |run[i + 1].miners| == |run[i].miners| && run[i + 1].miners[k].header == run[i].miners[k].header
    ensures forall r :: r != FarmPaused ==> (r in run[i + 1].miners[k].flags <==> r in run[i].miners[k].flags)
  {
    assert Enabled(events[i]) && run[i + 1] == Apply(run[i], events[i], devices);
  }

  /** A disconnection that is no stop pauses the farm and every miner for it, and adds no other reason. */
  lemma DisconnectionPausesAll(run: seq<FarmState>, events: seq<Event>, devices: nat, i: nat, k: nat)
    requires IsRun(run, events, devices) && i < |events| && events[i] == Disconnected(false)
    requires k < |run[i].miners|
    ensures run[i + 1].paused && |run[i + 1].miners| == |run[i].miners|
    ensures FarmPaused in run[i + 1].miners[k].flags
    ensures forall r :: r != FarmPaused ==> (r in run[i + 1].miners[k].flags <==> r in run[i].miners[k].flags)
  {
    assert Enabled(events[i]) && run[i + 1] == Apply(run[i], events[i], devices);
  }

  /** A job with a void header is ignored: the miners keep the job they have. */
  lemma VoidWorkIsIgnored(run: seq<FarmState>, events: seq<Event>, devices: nat, i: nat)
    requires IsRun(run, events, devices) && i < |events| && events[i] == WorkReceived(0)
    ensures run[i + 1] == run[i]
  {
    assert Enabled(events[i]) && run[i + 1] == Apply(run[i], events[i], devices);
  }
}
