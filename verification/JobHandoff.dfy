/** How a new job reaches a searching miner: `m_work` and `m_new_work` between the threads that call
    Miner::setWork, Miner::pause or kick_miner and the one that runs CPUMiner::workLoop and search.

    Each store and load is one step and steps of any number of setters interleave with the miner's.
    A job is a number; 0 is the package with an empty header. */
module JobHandoff {

  datatype Miner =
    | Outside               // not in workLoop()
    | Top                   // while (!shouldStop())
    | ReadWork              // w = work()
    | Waiting               // no header: timed wait
    | CheckNew(w: nat)      // m_new_work.load() in search(w)
    | ClearNew(w: nat)      // m_new_work.store(false)
    | CheckStop(w: nat)     // shouldStop()
    | Batch(w: nat)         // thirty hashes on w

  /** `pending` counts the setters that have stored a job and not yet kicked the miner. */
  datatype State = State(work: nat, newWork: bool, pending: nat, miner: Miner)

  ghost predicate Init(s: State) {
    s == State(0, false, 0, Outside)
  }

  // ----- setters

  /** setWork() stores the job, or an empty header when paused; pause() stores an empty header. */
  ghost predicate Store(s: State, t: State) {
    t == s.(work := t.work, pending := s.pending + 1)
  }

  /** The kick that follows a store, and the bare kick of Farm::stop. */
  ghost predicate Kick(s: State, t: State) {
    t == s.(newWork := true, pending := t.pending) && (t.pending == s.pending || t.pending == s.pending - 1)
  }

  // ----- the miner

  ghost predicate MinerStep(s: State, t: State) {
    match s.miner
    case Outside => t == s.(miner := Top)
    case Top => t == s.(miner := ReadWork) || t == s.(miner := Outside)
    case ReadWork =>
      // an epoch change or a missing RandomY machine leads back to the top, a failure out of workLoop()
      if s.work == 0 then t == s.(miner := Waiting)
      else t == s.(miner := CheckNew(s.work)) || t == s.(miner := Top) || t == s.(miner := Outside)
    case Waiting => t == s.(miner := Top)
    case CheckNew(w) => t == s.(miner := if s.newWork then ClearNew(w) else CheckStop(w))
    case ClearNew(w) => t == s.(newWork := false, miner := Top)
    case CheckStop(w) => t == s.(miner := Batch(w)) || t == s.(miner := Top)
    case Batch(w) => t == s.(miner := CheckNew(w))
  }

  ghost predicate Next(s: State, t: State) {
    Store(s, t) || Kick(s, t) || MinerStep(s, t)
  }

  ghost predicate IsRun(run: seq<State>) {
    && |run| > 0
    && Init(run[0])
    && forall i :: 0 <= i < |run| - 1 ==> Next(run[i], run[i + 1])
  }

  ghost predicate Searching(s: State) {
    s.miner.CheckNew? || s.miner.CheckStop? || s.miner.Batch?
  }

  /** No lost job switch: in every interleaving, a miner that searches a job other than the stored one
      has the flag waiting for it, or a setter is between its store and its kick. */
  lemma {:induction false} NoLostSwitch(run: seq<State>, i: nat)
    requires IsRun(run) && i < |run|
    ensures Searching(run[i]) && run[i].work != run[i].miner.w ==> run[i].newWork || run[i].pending > 0
  {
    if i > 0 {
      NoLostSwitch(run, i - 1);
      assert Next(run[i - 1], run[i - 1 + 1]);
    }
  }

  /** The miner commits to another batch only on the stored job, unless a setter is in mid-flight. */
  lemma CommitsToStoredJob(run: seq<State>, i: nat)
    requires IsRun(run) && i + 1 < |run|
    requires run[i].miner.CheckNew? && run[i + 1].miner.CheckStop?
    ensures run[i].miner.w == run[i].work || run[i].pending > 0
  {
    NoLostSwitch(run, i);
    assert Next(run[i], run[i + 1]);
  }

  /** From i to j the stored job is v and every setter has finished its kick. */
  ghost predicate Settled(run: seq<State>, i: nat, j: nat, v: nat)
    requires i <= j < |run|
  {
    forall k :: i <= k <= j ==> run[k].work == v && run[k].pending == 0
  }

  ghost predicate Committed(s: State, v: nat) {
    (s.miner.CheckStop? || s.miner.Batch?) && s.miner.w != v
  }

  /** Batches on a job other than v that were completed between i and j. */
  ghost function StaleBatches(run: seq<State>, i: nat, j: nat, v: nat): nat
    requires i <= j < |run|
    decreases j
  {
    if i == j then 0
    else
      StaleBatches(run, i, j - 1, v)
      + (if run[j - 1].miner.Batch? && run[j].miner.CheckNew? && run[j].miner.w != v then 1 else 0)
  }

  /** After the kick completes, at most the batch the miner had committed to is finished on a stale job. */
  lemma {:induction false} AtMostOneStaleBatch(run: seq<State>, i: nat, j: nat, v: nat)
    requires IsRun(run) && i <= j < |run| && Settled(run, i, j, v)
    ensures StaleBatches(run, i, j, v) + (if Committed(run[j], v) then 1 else 0)
         <= if Committed(run[i], v) then 1 else 0
    decreases j
  {
    if i < j {
      AtMostOneStaleBatch(run, i, j - 1, v);
      NoLostSwitch(run, j - 1);
      assert Next(run[j - 1], run[j - 1 + 1]);
      assert run[j - 1].work == v && run[j].work == v;
    }
  }

  /** And the job the miner picks up next is the stored one. */
  lemma {:induction false} PicksUpStoredJob(run: seq<State>, i: nat, j: nat, v: nat)
    requires IsRun(run) && i <= j < |run| && Settled(run, i, j, v) && !Searching(run[i])
    ensures Searching(run[j]) ==> run[j].miner.w == v
    decreases j
  {
    if i < j {
      PicksUpStoredJob(run, i, j - 1, v);
      assert Next(run[j - 1], run[j - 1 + 1]);
      assert run[j - 1].work == v;
    }
  }

  /** The miner clears the flag when it breaks off a search, and until the next kick it does not break off again: a
      search is interrupted for new work at most once for each kick. */
  lemma {:induction false} NoBreakWithoutKick(run: seq<State>, i: nat, j: nat)
    requires IsRun(run) && i + 1 <= j < |run|
    requires run[i].miner.ClearNew? && run[i + 1].miner.Top?
    requires forall k :: i < k < j ==> !(run[k + 1].newWork && !run[k].newWork)
    ensures !run[j].newWork && !run[j].miner.ClearNew?
    decreases j
  {
    assert Next(run[j - 1], run[j - 1 + 1]);
    if i + 1 < j {
      NoBreakWithoutKick(run, i, j - 1);
    }
  }
}
