/** Sending in XcbStratumClient.cpp: lines are queued, a write takes everything queued so far, and the
    completion of a write starts the next one.  The states are those of one connected period, up to the point where
    the client finds itself disconnected. */
module Transmit {

  /** The bytes of a list of lines, each ended by a newline. */
  function Text(lines: seq<string>): string {
    if lines == [] then "" else Text(lines[..|lines| - 1]) + lines[|lines| - 1] + "\n"
  }

  /** The state of the sender.  `wire` and `sent` record the bytes the socket has taken and the lines
      given to send(). */
  datatype Channel = Channel(
    queue: seq<string>,     // m_txQueue
    pending: bool,          // m_txPending
    buffer: string,         // m_sendBuffer
    writes: nat,            // async_write operations that have not completed
    failed: bool,           // a write has failed, or lines were dropped
    wire: string,
    sent: seq<string>)

  /** `connected` is what isConnected() gives when the handler asks. */
  datatype Event = Send(line: string, connected: bool) | WriteDone(ok: bool, connected: bool)

  const IDLE: Channel := Channel([], false, "", 0, false, "", [])

  predicate Enabled(c: Channel, e: Event) {
    e.WriteDone? ==> c.writes > 0
  }

  /** sendSocketData(): take the whole queue and start a write, or drop everything. */
  function Flushed(c: Channel, connected: bool): Channel {
    if !connected || c.queue == []
    then c.(buffer := "", queue := [], pending := false, failed := c.failed || c.queue != [])
    else c.(buffer := c.buffer + Text(c.queue), queue := [], writes := c.writes + 1)
  }

  function Apply(c: Channel, e: Event): Channel
    requires Enabled(c, e)
  {
    match e
    case Send(line, connected) =>
      var d := c.(queue := c.queue + [line], sent := c.sent + [line]);
      if c.pending then d else Flushed(d.(pending := true), connected)
    case WriteDone(false, _) =>
      c.(writes := c.writes - 1, buffer := "", queue := [], pending := false, failed := true)
    case WriteDone(true, connected) =>
      var d := c.(writes := c.writes - 1, wire := c.wire + c.buffer, buffer := "");
      if c.queue == [] then d.(pending := false) else Flushed(d, connected)
  }

  /** The sender itself. */
  class Sender {
    var queue: seq<string>
    var pending: bool
    var buffer: string
    ghost var writes: nat
    ghost var failed: bool
    ghost var wire: string
    ghost var sent: seq<string>

    ghost function View(): Channel
      reads this
    {
      Channel(queue, pending, buffer, writes, failed, wire, sent)
    }

    constructor ()
      ensures View() == IDLE
    {
      queue, pending, buffer, writes, failed, wire, sent := [], false, "", 0, false, "", [];
    }

    method Send(line: string, connected: bool)
      modifies this
      ensures View() == Apply(old(View()), Event.Send(line, connected))
    {
      queue, sent := queue + [line], sent + [line];
      if !pending {
        pending := true;
        SendSocketData(connected);
      }
    }

    method SendSocketData(connected: bool)
      modifies this
      ensures View() == Flushed(old(View()), connected)
    {
      if !connected || queue == [] {
        failed := failed || queue != [];
        buffer, queue, pending := "", [], false;
        return;
      }
      ghost var all := queue;
      var taken := 0;
      while queue != []
        invariant 0 <= taken <= |all| && queue == all[taken..]
        invariant buffer == old(buffer) + Text(all[..taken])
        invariant pending == old(pending) && writes == old(writes) && failed == old(failed)
        invariant wire == old(wire) && sent == old(sent)
        decreases |queue|
      {
        assert all[..taken + 1][..taken] == all[..taken];
        buffer := buffer + queue[0] + "\n";
        queue := queue[1..];
        taken := taken + 1;
      }
      assert all[..taken] == all;
      writes := writes + 1;
    }

    method OnSendSocketDataCompleted(ok: bool, connected: bool)
      requires writes > 0
      modifies this
      ensures View() == Apply(old(View()), WriteDone(ok, connected))
    {
      writes := writes - 1;
      if !ok {
        buffer, queue, pending, failed := "", [], false, true;
        return;
      }
      wire, buffer := wire + buffer, "";
      if queue == [] {
        pending := false;
      } else {
        SendSocketData(connected);
      }
    }
  }

  // ----- every sequence of sends and completions

  ghost predicate Inv(c: Channel) {
    && c.writes <= 1
    && (c.pending <==> c.writes == 1)
    && (c.queue != [] ==> c.writes == 1)
    && (c.writes == 0 ==> c.buffer == "")
    && (!c.failed ==> c.wire + c.buffer + Text(c.queue) == Text(c.sent))
  }

  lemma TextAppend(a: seq<string>, line: string)
    ensures Text(a + [line]) == Text(a) + line + "\n"
  {
    assert (a + [line])[..|a|] == a;
  }

  lemma SendKeeps(c: Channel, line: string, connected: bool)
    requires Inv(c)
    ensures Inv(Apply(c, Send(line, connected)))
  {
    var d := Apply(c, Send(line, connected));
    TextAppend(c.queue, line);
    TextAppend(c.sent, line);
    TextEmpty();
    hide Text;
    if c.pending {
      Regroup(c.wire + c.buffer, Text(c.queue), line);
    } else if connected {
      assert c.queue == [] && c.buffer == "";
      assert d.queue == [] && d.buffer == "" + Text([] + [line]);
      Regroup(c.wire, "", line);
      hide *;
      assert c.wire + "" + "" == c.wire;
      assert c.wire + ("" + ("" + line + "\n")) + "" == c.wire + ("" + line + "\n");
    }
  }

  lemma Regroup(a: string, b: string, line: string)
    ensures a + (b + line + "\n") == a + b + line + "\n"
  {
  }

  lemma TextEmpty()
    ensures Text([]) == ""
  {
  }

  lemma DoneKeeps(c: Channel, ok: bool, connected: bool)
    requires Inv(c) && c.writes > 0
    ensures Inv(Apply(c, WriteDone(ok, connected)))
  {
    hide Text;
    TextEmpty();
    var text := Text(c.queue);
    assert c.wire + c.buffer + "" + "" == c.wire + c.buffer + "";
    assert (c.wire + c.buffer) + ("" + text) + "" == c.wire + c.buffer + text;
  }

  lemma InvStep(c: Channel, e: Event)
    requires Inv(c) && Enabled(c, e)
    ensures Inv(Apply(c, e))
  {
    hide Inv, Apply;
    match e
    case Send(line, connected) => SendKeeps(c, line, connected);
    case WriteDone(ok, connected) => DoneKeeps(c, ok, connected);
  }

  ghost predicate IsRun(run: seq<Channel>, events: seq<Event>) {
    && |run| == |events| + 1
    && run[0] == IDLE
    && forall i :: 0 <= i < |events| ==> Enabled(run[i], events[i]) && run[i + 1] == Apply(run[i], events[i])
  }

  /** In every run: at most one write is in flight, `pending` holds exactly while one is, lines wait only
      while one is, and until lines are dropped the bytes on the wire, in flight and waiting are together exactly
      the lines sent, in order, none lost and none repeated. */
  lemma {:induction false} SenderKeeps(run: seq<Channel>, events: seq<Event>, i: nat)
    requires IsRun(run, events) && i < |run|
    ensures run[i].writes <= 1
    ensures run[i].pending <==> run[i].writes == 1
    ensures run[i].queue != [] ==> run[i].writes == 1
    ensures !run[i].failed ==> run[i].wire + run[i].buffer + Text(run[i].queue) == Text(run[i].sent)
    ensures Inv(run[i])
  {
    hide Apply, Enabled;
    if i > 0 {
      SenderKeeps(run, events, i - 1);
      InvStep(run[i - 1], events[i - 1]);
      assert run[i - 1 + 1] == Apply(run[i - 1], events[i - 1]);
    }
  }

  /** Two successful completions put every line sent so far on the wire. */
  lemma TwoWritesDeliver(c: Channel)
    requires Inv(c) && !c.failed
    ensures c.writes == 0 ==> c.wire == Text(c.sent)
    ensures c.writes == 1 ==> var d := Apply(c, WriteDone(true, true));
                              || (d.writes == 0 && d.wire == Text(c.sent))
                              || (d.writes == 1 && Apply(d, WriteDone(true, true)).wire == Text(c.sent))
  {
    if c.writes == 0 {
      assert c.wire + "" + "" == c.wire;
    } else {
      var d := Apply(c, WriteDone(true, true));
      InvStep(c, WriteDone(true, true));
      if d.writes == 0 {
        assert d.wire + "" + "" == d.wire;
      } else {
        assert d.wire + d.buffer + "" == d.wire + d.buffer;
      }
    }
  }

  ghost predicate Healthy(e: Event) {
    e.connected && (e.WriteDone? ==> e.ok)
  }

  /** As long as the client stays connected and its writes succeed, nothing is ever dropped. */
  lemma {:induction false} HealthyNeverDrops(run: seq<Channel>, events: seq<Event>, i: nat)
    requires IsRun(run, events) && i < |run|
    requires forall k :: 0 <= k < i ==> Healthy(events[k])
    ensures !run[i].failed
    ensures run[i].wire + run[i].buffer + Text(run[i].queue) == Text(run[i].sent)
    ensures run[i].sent == SentLines(events[..i])
    decreases i
  {
    SenderKeeps(run, events, i);
    if i > 0 {
      HealthyNeverDrops(run, events, i - 1);
      assert Healthy(events[i - 1]) && Enabled(run[i - 1], events[i - 1]);
      assert run[i - 1 + 1] == Apply(run[i - 1], events[i - 1]);
      HealthyStep(run[i - 1], events[i - 1]);
      hide Text, Apply;
      assert events[..i][..i - 1] == events[..i - 1];
    }
  }

  lemma HealthyStep(c: Channel, e: Event)
    requires Enabled(c, e) && Healthy(e)
    ensures Apply(c, e).failed == c.failed
    ensures Apply(c, e).sent == c.sent + if e.Send? then [e.line] else []
  {
    hide Text;
  }

  /** The lines given to send(), in order. */
  ghost function SentLines(events: seq<Event>): seq<string> {
    if events == [] then []
    else
      var e := events[|events| - 1];
      SentLines(events[..|events| - 1]) + (if e.Send? then [e.line] else [])
  }
}
