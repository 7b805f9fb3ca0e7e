/** Response pleas in XcbStratumClient.cpp: the times of requests that wait for an answer.  Times are in
    nanoseconds of the steady clock. */
module Pleas {

  const NANOS_PER_MILLI: int := 1_000_000

  /** `taken` and `last` record whether a plea has been dequeued since the queue was last empty, and the time
      of that plea. */
  datatype State = State(
    times: seq<int>,   // m_response_plea_times
    count: int,        // m_response_pleas_count
    older: int,        // m_response_plea_older
    taken: bool,
    last: int)

  datatype Event = Enqueue | Dequeue | Clear

  function Apply(s: State, e: Event, now: int): State {
    match e
    case Enqueue =>
      var t := s.(times := s.times + [now], count := s.count + 1);
      if s.count == 0 then t.(older := now, taken := false) else t
    case Dequeue =>
      var t :=
        if s.times == [] then s
        else s.(older := s.times[0], times := s.times[1..], taken := true, last := s.times[0]);
      if s.count > 0 then t.(count := s.count - 1) else t
    case Clear => s.(count := 0, times := [], older := now)
  }

  /** What a dequeue at `now` returns, in milliseconds. */
  function Delay(s: State, now: int): int {
    if s.count > 0 then (now - s.older) / NANOS_PER_MILLI else 0
  }

  class PleaQueue {
    var times: seq<int>
    var count: int
    var older: int
    ghost var taken: bool
    ghost var last: int

    ghost function View(): State
      reads this
    {
      State(times, count, older, taken, last)
    }

    method EnqueueResponsePlea(now: int)
      modifies this
      ensures View() == Apply(old(View()), Enqueue, now)
    {
      if count == 0 {
        older, taken := now, false;
      }
      count := count + 1;
      times := times + [now];
    }

    method DequeueResponsePlea(now: int) returns (delay: int)
      modifies this
      ensures View() == Apply(old(View()), Dequeue, now)
      ensures delay == Delay(old(View()), now)
    {
      delay := (now - older) / NANOS_PER_MILLI;
      if times != [] {
        older, last, taken := times[0], times[0], true;
        times := times[1..];
      }
      if count > 0 {
        count := count - 1;
      } else {
        delay := 0;
      }
    }

    method ClearResponsePleas(now: int)
      modifies this
      ensures View() == Apply(old(View()), Clear, now)
    {
      count := 0;
      while times != []
        invariant count == 0 && older == old(older) && taken == old(taken) && last == old(last)
        decreases |times|
      {
        times := times[1..];
      }
      older := now;
    }
  }

  // ----- every run with a clock that does not go back

  ghost predicate Inv(s: State, now: int) {
    && s.count == |s.times|
    && s.older <= now
    && (forall i :: 0 <= i < |s.times| ==> s.older <= s.times[i] <= now)
    && (forall i, j :: 0 <= i < j < |s.times| ==> s.times[i] <= s.times[j])
    && (s.times != [] ==> s.older == if s.taken then s.last else s.times[0])
  }

  ghost predicate IsRun(run: seq<State>, events: seq<Event>, clock: seq<int>) {
    && |run| == |events| + 1 == |clock|
    && run[0].times == [] && run[0].count == 0 && run[0].older <= clock[0]
    && forall i :: 0 <= i < |events| ==>
         clock[i] <= clock[i + 1] && run[i + 1] == Apply(run[i], events[i], clock[i + 1])
  }

  lemma InvStep(s: State, e: Event, before: int, now: int)
    requires Inv(s, before) && before <= now
    ensures Inv(Apply(s, e, now), now)
  {
  }

  /** In every run the counter is the length of the queue, so it is never negative, and the stored time is at
      or before every queued one. */
  lemma {:induction false} PleasAreCounted(run: seq<State>, events: seq<Event>, clock: seq<int>, i: nat)
    requires IsRun(run, events, clock) && i < |run|
    ensures run[i].count == |run[i].times|
    ensures forall k :: 0 <= k < |run[i].times| ==> run[i].older <= run[i].times[k]
    ensures Inv(run[i], clock[i])
  {
    hide Apply;
    if i > 0 {
      PleasAreCounted(run, events, clock, i - 1);
      assert clock[i - 1] <= clock[i - 1 + 1] && run[i - 1 + 1] == Apply(run[i - 1], events[i - 1], clock[i - 1 + 1]);
      InvStep(run[i - 1], events[i - 1], clock[i - 1], clock[i]);
    }
  }

  /** The delay returned while a plea is outstanding is never less than the age of the oldest one.  The time it
      is measured from is that of the oldest plea if and only if none has been dequeued since the queue was
      last empty, or the one dequeued last has the same time. */
  lemma DelayCoversOldest(run: seq<State>, events: seq<Event>, clock: seq<int>, i: nat, now: int)
    requires IsRun(run, events, clock) && i < |run| && clock[i] <= now && run[i].times != []
    ensures Delay(run[i], now) >= (now - run[i].times[0]) / NANOS_PER_MILLI >= 0
    ensures run[i].older == run[i].times[0] <==> !run[i].taken || run[i].last == run[i].times[0]
  {
    PleasAreCounted(run, events, clock, i);
  }

  /** Two requests ten seconds apart, both answered one second after the second: the second delay is
      reported as eleven seconds. */
  lemma DelayCanOverstate()
    ensures var second := 10_000 * NANOS_PER_MILLI;
            var now := 11_000 * NANOS_PER_MILLI;
            var s := Apply(Apply(Apply(State([], 0, 0, false, 0), Enqueue, 0), Enqueue, second), Dequeue, now);
            s.times == [second] && Delay(s, now) == 11_000 && (now - second) / NANOS_PER_MILLI == 1_000
  {
    var second := 10_000 * NANOS_PER_MILLI;
    assert ([0] + [second])[1..] == [second];
  }

  /** A clear leaves nothing outstanding, and the request after it is measured exactly. */
  lemma ClearForgets(run: seq<State>, events: seq<Event>, clock: seq<int>, i: nat, now: int)
    requires IsRun(run, events, clock) && i < |events| && events[i] == Clear
    ensures run[i + 1].times == [] && run[i + 1].count == 0
    ensures Delay(run[i + 1], now) == 0
    ensures i + 1 < |events| && events[i + 1] == Enqueue ==>
              run[i + 2].times == [clock[i + 2]] && run[i + 2].older == clock[i + 2]
  {
    assert run[i + 1] == Apply(run[i], events[i], clock[i + 1]);
    if i + 1 < |events| {
      assert run[i + 1 + 1] == Apply(run[i + 1], events[i + 1], clock[i + 1 + 1]);
    }
  }
}
