/** The start / stop / kill handshake of libdevcore/Worker.cpp: one worker thread and any number of
    callers that share one atomic and one mutex.

    Every read, store, exchange or compare-exchange of `m_state` is one step, in any interleaving.  A
    caller holds the mutex from its first step to its last, so at most one call is in progress;
    `call` says where it stands, `thread` where the worker thread stands. */
module Worker {

  datatype Phase = Starting | Started | Stopping | Stopped | Killing

  datatype Thread =
    | Unborn
    | TestKilling          // while (m_state != Killing)
    | TryStarted           // compare_exchange(Starting -> Started)
    | InLoop               // workLoop()
    | PublishStopped       // ex = exchange(Stopped)
    | Restore(ex: Phase)   // exchange(ex)
    | Asleep               // while (m_state == Stopped)
    | Gone

  datatype Call =
    | Idle
    | StartCas             // startWorking with a thread
    | StartStore           // startWorking without one
    | StartSpawn
    | StartWait
    | TriggerCas           // triggerStopWorking
    | StopCas              // stopWorking
    | StopWait
    | KillStore            // ~Worker
    | KillJoin
    | KillReset
    | Destroyed

  /** `starts` counts the startWorking calls that took effect, `entries` the entries into workLoop();
      `resting` says that a stopWorking has returned and no start or destruction has come since. */
  datatype State = State(phase: Phase, hasThread: bool, thread: Thread, call: Call,
                         starts: nat, entries: nat, resting: bool)

  ghost predicate Init(s: State) {
    s == State(Starting, false, Unborn, Idle, 0, 0, false)
  }

  // ----- the callers

  ghost predicate BeginCall(s: State, t: State) {
    && s.call == Idle
    && (|| t == s.(call := if s.hasThread then StartCas else StartStore)
        || t == s.(call := if s.hasThread then TriggerCas else Idle)
        || t == s.(call := if s.hasThread then StopCas else Idle, resting := s.resting || !s.hasThread)
        || t == s.(call := if s.hasThread then KillStore else Destroyed))
  }

  ghost predicate StartStep(s: State, t: State) {
    match s.call
    case StartCas =>
      t == if s.phase == Stopped then s.(phase := Starting, call := StartWait, starts := s.starts + 1, resting := false)
           else s.(call := StartWait)
    case StartStore => t == s.(phase := Starting, call := StartSpawn, starts := s.starts + 1, resting := false)
    case StartSpawn => t == s.(hasThread := true, thread := TestKilling, call := StartWait)
    case StartWait => t == if s.phase == Starting then s else s.(call := Idle)
    case _ => false
  }

  ghost predicate StopStep(s: State, t: State) {
    match s.call
    case TriggerCas => t == s.(phase := if s.phase == Started then Stopping else s.phase, call := Idle)
    case StopCas => t == s.(phase := if s.phase == Started then Stopping else s.phase, call := StopWait)
    case StopWait => t == if s.phase == Stopped then s.(call := Idle, resting := true) else s
    case _ => false
  }

  ghost predicate KillStep(s: State, t: State) {
    match s.call
    case KillStore => t == s.(phase := Killing, call := KillJoin, resting := false)
    case KillJoin => s.thread == Gone && t == s.(call := KillReset)
    case KillReset => t == s.(hasThread := false, call := Destroyed)
    case _ => false
  }

  // ----- the thread

  ghost predicate ThreadStep(s: State, t: State) {
    match s.thread
    case TestKilling => t == s.(thread := if s.phase == Killing then Gone else TryStarted)
    case TryStarted =>
      t == s.(phase := if s.phase == Starting then Started else s.phase, thread := InLoop, entries := s.entries + 1)
    case InLoop => t == s.(thread := PublishStopped)
    case PublishStopped =>
      t == s.(phase := Stopped,
              thread := if s.phase == Killing || s.phase == Starting then Restore(s.phase) else Asleep)
    case Restore(ex) => t == s.(phase := ex, thread := Asleep)
    case Asleep => t == if s.phase == Stopped then s else s.(thread := TestKilling)
    case _ => false
  }

  ghost predicate Next(s: State, t: State) {
    BeginCall(s, t) || StartStep(s, t) || StopStep(s, t) || KillStep(s, t) || ThreadStep(s, t)
  }

  ghost predicate IsRun(run: seq<State>) {
    && |run| > 0
    && Init(run[0])
    && forall i :: 0 <= i < |run| - 1 ==> Next(run[i], run[i + 1])
  }

  // ----- what every interleaving keeps

  ghost predicate Pending(s: State) {
    s.phase == Starting && (s.hasThread || s.call == StartSpawn)
  }

  ghost predicate Inv(s: State) {
    && (s.hasThread <==> s.thread != Unborn && s.call != Destroyed)
    && (s.call in {StartCas, StartWait, TriggerCas, StopCas, StopWait, KillStore, KillJoin, KillReset} ==> s.hasThread)
    && (s.call in {StartStore, StartSpawn} ==> s.thread == Unborn)
    && (s.call == StartSpawn ==> s.phase == Starting && !s.resting)
    && (s.call == StopWait ==> s.phase == Stopping || s.phase == Stopped)
    && (s.call == KillJoin ==> s.phase == Killing || s.thread == Restore(Killing))
    && (s.call in {KillReset, Destroyed} && s.thread != Unborn ==> s.thread == Gone)
    && (match s.thread
        case Unborn => s.phase == Starting
        case TestKilling => (s.phase == Starting && s.call == StartWait) || (s.phase == Killing && s.call == KillJoin)
        case TryStarted => s.phase == Starting && s.call == StartWait
        case InLoop => s.phase == Started || s.phase == Stopping || (s.phase == Killing && s.call == KillJoin)
        case PublishStopped => s.phase == Started || s.phase == Stopping || (s.phase == Killing && s.call == KillJoin)
        case Restore(ex) => ex == Killing && s.phase == Stopped && s.call == KillJoin
        case Asleep =>
          || (s.phase == Stopped && s.call != KillJoin)
          || (s.phase == Starting && s.call == StartWait)
          || (s.phase == Killing && s.call == KillJoin)
        case Gone => s.phase == Killing && s.call in {KillJoin, KillReset, Destroyed})
    && s.starts == s.entries + (if Pending(s) then 1 else 0)
    && (s.resting ==> s.thread == Unborn || (s.thread == Asleep && s.phase == Stopped))
  }

  lemma InvStep(s: State, t: State)
    requires Inv(s) && Next(s, t)
    ensures Inv(t)
  {
  }

  lemma {:induction false} InvAlong(run: seq<State>, i: nat)
    requires IsRun(run) && i < |run|
    ensures Inv(run[i])
  {
    if i > 0 {
      InvAlong(run, i - 1);
      InvStep(run[i - 1], run[i]);
    }
  }

  /** `Stopped` is visible only while the thread is outside workLoop(), and the branch that would put
      `Starting` back is never taken. */
  lemma StoppedMeansOutside(run: seq<State>, i: nat)
    requires IsRun(run) && i < |run|
    ensures run[i].phase == Stopped ==> run[i].thread == Asleep || run[i].thread == Restore(Killing)
    ensures run[i].thread != Restore(Starting)
    ensures run[i].thread == PublishStopped ==> run[i].phase != Starting
  {
    InvAlong(run, i);
  }

  /** Once stopWorking() has returned, and until the next start or destruction takes effect, the thread
      is outside workLoop() and does not enter it. */
  lemma {:induction false} QuietAfterStop(run: seq<State>, i: nat, j: nat)
    requires IsRun(run) && i <= j < |run|
    requires forall k :: i <= k <= j ==> run[k].resting
    ensures run[j].entries == run[i].entries
    ensures run[j].thread == Unborn || run[j].thread == Asleep
    decreases j
  {
    InvAlong(run, j);
    if i < j {
      QuietAfterStop(run, i, j - 1);
      InvAlong(run, j - 1);
      assert Next(run[j - 1], run[j - 1 + 1]);
    }
  }

  /** Whenever no call is in progress, every start that took effect has led to exactly one entry into
      workLoop(), and there was no other entry. */
  lemma OneEntryPerStart(run: seq<State>, i: nat)
    requires IsRun(run) && i < |run| && run[i].call in {Idle, Destroyed}
    ensures run[i].entries == run[i].starts
  {
    InvAlong(run, i);
  }

  /** The effective starts of a startWorking() call on an existing thread, up to where it stands. */
  lemma {:induction false} StartsDuringCall(run: seq<State>, i: nat, j: nat)
    requires IsRun(run) && i < j < |run| && run[i].call == StartCas
    requires forall k :: i < k < j ==> run[k].call == StartWait
    requires run[j].call in {StartWait, Idle}
    ensures run[j].starts == run[i].starts + (if run[i].phase == Stopped then 1 else 0)
    decreases j
  {
    assert Next(run[j - 1], run[j - 1 + 1]);
    if i + 1 < j {
      StartsDuringCall(run, i, j - 1);
    }
  }

  /** A startWorking() call on an existing thread, from its compare-exchange at i to its return at j, leads to one
      entry into workLoop() if it found `Stopped`, and to none otherwise. */
  lemma StartTakesEffectExactlyWhen(run: seq<State>, i: nat, j: nat)
    requires IsRun(run) && i < j < |run| && run[i].call == StartCas && run[j].call == Idle
    requires forall k :: i < k < j ==> run[k].call == StartWait
    ensures run[j].entries == run[i].entries + (if run[i].phase == Stopped then 1 else 0)
    ensures run[i].phase in {Started, Stopping, Stopped}
  {
    StartsDuringCall(run, i, j);
    OneEntryPerStart(run, j);
    InvAlong(run, i);
  }

  /** So a start can be lost: here one is issued while the thread is still leaving workLoop(), returns,
      and the thread falls asleep until the next start. */
  lemma StartCanBeLost() returns (run: seq<State>, i: nat)
    ensures IsRun(run) && i < |run| - 1
    ensures run[i].call == StartCas && run[i].phase == Stopping
    ensures var last := run[|run| - 1];
            last.call == Idle && last.thread == Asleep && last.phase == Stopped && last.entries == run[i].entries == 1
  {
    var s0 := State(Starting, false, Unborn, Idle, 0, 0, false);
    var s1 := s0.(call := StartStore);
    var s2 := s1.(call := StartSpawn, starts := 1);
    var s3 := s2.(call := StartWait, hasThread := true, thread := TestKilling);
    var s4 := s3.(thread := TryStarted);
    var s5 := s4.(thread := InLoop, phase := Started, entries := 1);
    var s6 := s5.(call := Idle);
    var s7 := s6.(call := TriggerCas);
    var s8 := s7.(call := Idle, phase := Stopping);
    var s9 := s8.(call := StartCas);
    var s10 := s9.(call := StartWait);
    var s11 := s10.(call := Idle);
    var s12 := s11.(thread := PublishStopped);
    var s13 := s12.(thread := Asleep, phase := Stopped);
    run, i := [s0, s1, s2, s3, s4, s5, s6, s7, s8, s9, s10, s11, s12, s13], 9;
  }

  // ----- after the destructor has stored Killing

  ghost predicate Dying(s: State) {
    s.call in {KillJoin, KillReset, Destroyed} && s.thread != Unborn
  }

  /** How many steps the thread still takes before it is gone. */
  ghost function StepsLeft(s: State): nat {
    match s.thread
    case Gone => 0
    case TestKilling => 1
    case Asleep => 2
    case Restore(_) => 3
    case PublishStopped => 4
    case _ => 5
  }

  /** The number of steps in which the thread moved. */
  ghost function Moves(run: seq<State>, i: nat, j: nat): nat
    requires i <= j < |run|
    decreases j
  {
    if i == j then 0 else Moves(run, i, j - 1) + (if run[j].thread != run[j - 1].thread then 1 else 0)
  }

  lemma DyingStep(s: State, t: State)
    requires Inv(s) && Next(s, t) && Dying(s)
    ensures Dying(t) && t.entries == s.entries
    ensures StepsLeft(t) + (if t.thread != s.thread then 1 else 0) <= StepsLeft(s)
  {
  }

  /** From then on the thread never enters workLoop() again, and at most five steps of its own take it
      from wherever it is to its end. */
  lemma {:induction false} KilledForGood(run: seq<State>, i: nat, j: nat)
    requires IsRun(run) && i <= j < |run| && Dying(run[i])
    ensures Dying(run[j]) && run[j].entries == run[i].entries
    ensures Moves(run, i, j) + StepsLeft(run[j]) <= StepsLeft(run[i]) <= 5
    decreases j
  {
    hide Inv, Next, Dying;
    if i < j {
      KilledForGood(run, i, j - 1);
      InvAlong(run, j - 1);
      assert Next(run[j - 1], run[j - 1 + 1]);
      DyingStep(run[j - 1], run[j]);
    }
  }

  /** The thread is never blocked on its way: some step of it moves it unless it is gone. */
  lemma DyingThreadCanMove(run: seq<State>, i: nat)
    requires IsRun(run) && i < |run| && Dying(run[i]) && run[i].thread != Gone
    ensures exists t :: ThreadStep(run[i], t) && t.thread != run[i].thread
  {
    InvAlong(run, i);
    var s := run[i];
    match s.thread {
      case TestKilling => assert ThreadStep(s, s.(thread := Gone));
      case InLoop => assert ThreadStep(s, s.(thread := PublishStopped));
      case PublishStopped => assert ThreadStep(s, s.(phase := Stopped, thread := Restore(s.phase)));
      case Restore(ex) => assert ThreadStep(s, s.(phase := ex, thread := Asleep));
      case Asleep => assert ThreadStep(s, s.(thread := TestKilling));
    }
  }

  // ----- the two waits

  /** While stopWorking() waits the thread takes at most two steps before `Stopped` is there to be seen;
      while startWorking() waits, at most three before `Starting` is gone. */
  ghost function WaitLeft(s: State): nat {
    match s.thread
    case InLoop => 2
    case PublishStopped => 1
    case TryStarted => 1
    case TestKilling => 2
    case _ => if s.phase == Starting then 3 else 0
  }

  lemma WaitsEnd(run: seq<State>, i: nat)
    requires IsRun(run) && i + 1 < |run|
    requires run[i].call == run[i + 1].call
    requires || (run[i].call == StopWait && run[i].phase != Stopped)
             || (run[i].call == StartWait && run[i].phase == Starting)
    ensures 0 < WaitLeft(run[i]) <= 3
    ensures run[i] == run[i + 1]
         || WaitLeft(run[i + 1]) < WaitLeft(run[i])
         || (run[i].call == StopWait && run[i + 1].phase == Stopped)
         || (run[i].call == StartWait && run[i + 1].phase != Starting)
    ensures exists t :: ThreadStep(run[i], t) && t != run[i]
  {
    InvAlong(run, i);
    var s := run[i];
    assert Next(s, run[i + 1]);
    match s.thread {
      case TestKilling => assert ThreadStep(s, s.(thread := TryStarted));
      case TryStarted => assert ThreadStep(s, s.(phase := Started, thread := InLoop, entries := s.entries + 1));
      case InLoop => assert ThreadStep(s, s.(thread := PublishStopped));
      case PublishStopped => assert ThreadStep(s, s.(phase := Stopped, thread := Asleep));
      case Asleep => assert ThreadStep(s, s.(thread := TestKilling));
    }
  }
}
