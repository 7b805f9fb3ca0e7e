/** Connecting and detecting the pool's stratum flavour: the handlers of XcbStratumClient.cpp that
    decide when to try again, with which endpoint and in which mode.

    All handlers run on one strand, so each is one step.  Handlers that others post are counted in
    `starts`, `disconnects` and `finalizes`; sockets, TLS and messages are events. */
module Autodetect {

  const UNTESTED: nat := 999

  /** The part of a pool URI that a client reads and writes.  `version` is 999 for the schemes that leave
      the flavour open. */
  datatype Uri = Uri(version: nat, mode: nat, confirmed: bool, responds: bool, unrecoverable: bool)

  datatype Session = Session(
    uri: Uri,
    endpoints: nat,        // addresses left in m_endpoints
    connecting: bool,      // m_connecting
    connected: bool,       // m_connected
    disconnecting: bool,   // m_disconnecting
    starts: nat,           // posted start_connect handlers
    disconnects: nat,      // posted disconnect handlers
    finalizes: nat,        // TLS shutdowns whose disconnect_finalize is still to come
    calls: nat,            // start_connect handlers run so far
    reported: bool,        // m_onDisconnected has been called
    tried: set<nat>)       // the modes in which a connection has been completed

  datatype Event =
    | StartConnect
    | ConnectFailed
    | ConnectDone(handshake: bool)
    | LoginAccepted
    | LoginRejected
    | AuthRejected
    | Dropped(pop: bool, unrecoverable: bool)
    | Disconnect(posted: bool, tls: bool)
    | Finalize

  /** Which events can happen next, up to the report of the disconnection.  A timeout takes an address away only
      from a client that is neither connecting nor disconnecting (XcbStratumClient.h:68-77). */
  predicate Enabled(s: Session, e: Event) {
    && !s.reported
    && match e
       case StartConnect => s.starts > 0
       case ConnectFailed => s.connecting
       case ConnectDone(_) => s.connecting
       case LoginAccepted => s.uri.mode <= 3
       case Dropped(pop, _) => pop ==> s.connected && !s.connecting && !s.disconnecting && s.endpoints > 0
       case Disconnect(posted, _) => posted ==> s.disconnects > 0
       case Finalize => s.finalizes > 0
       case _ => true
  }

  /** disconnect_finalize(): report the disconnection, or go on with the next lower mode. */
  function Finalized(s: Session): Session {
    var t := s.(disconnecting := false);
    if !s.uri.unrecoverable && !s.uri.confirmed && s.uri.responds then
      if s.uri.mode > 0 then t.(uri := s.uri.(mode := s.uri.mode - 1), starts := s.starts + 1)
      else t.(uri := s.uri.(unrecoverable := true), reported := true)
    else t.(reported := true)
  }

  /** The flavour chosen when the socket is connected. */
  function Selected(u: Uri): Uri {
    if u.version < UNTESTED then u.(mode := u.version, confirmed := true)
    else if !u.confirmed && u.mode == UNTESTED then u.(mode := 3)
    else u
  }

  function Apply(s: Session, e: Event): Session
    requires Enabled(s, e)
  {
    match e
    case StartConnect =>
      var t := s.(starts := s.starts - 1, calls := s.calls + 1);
      if s.connecting then t else if s.endpoints > 0 then t.(connecting := true) else Finalized(t)
    case ConnectFailed =>
      s.(connecting := false, endpoints := if s.endpoints > 0 then s.endpoints - 1 else 0, starts := s.starts + 1)
    case ConnectDone(handshake) =>
      var u := s.uri.(responds := true);
      var t := s.(connecting := false, connected := true);
      if !handshake then t.(uri := u.(unrecoverable := true), disconnects := s.disconnects + 1)
      else t.(uri := Selected(u), tried := s.tried + {Selected(u).mode})
    case LoginAccepted => s.(uri := s.uri.(confirmed := true))
    case LoginRejected =>
      s.(uri := s.uri.(unrecoverable := s.uri.unrecoverable || s.uri.confirmed), disconnects := s.disconnects + 1)
    case AuthRejected => s.(uri := s.uri.(unrecoverable := true), disconnects := s.disconnects + 1)
    case Dropped(pop, unrecoverable) =>
      s.(uri := s.uri.(unrecoverable := s.uri.unrecoverable || unrecoverable),
         endpoints := if pop then s.endpoints - 1 else s.endpoints,
         disconnects := s.disconnects + 1)
    case Disconnect(posted, tls) =>
      var t := if posted then s.(disconnects := s.disconnects - 1) else s;
      if s.disconnecting then t
      else
        var d := t.(disconnecting := true, connected := false);
        if tls then d.(finalizes := s.finalizes + 1) else Finalized(d)
    case Finalize => Finalized(s.(finalizes := s.finalizes - 1))
  }

  /** The client itself: the handlers that change its fields. */
  class StratumClient {
    var uri: Uri
    var endpoints: nat
    var connecting: bool
    var connected: bool
    var disconnecting: bool
    var starts: nat
    var disconnects: nat
    var finalizes: nat
    var calls: nat
    var reported: bool
    ghost var tried: set<nat>

    ghost function View(): Session
      reads this
    {
      Session(uri, endpoints, connecting, connected, disconnecting, starts, disconnects, finalizes, calls, reported,
              tried)
    }

    /** connect(), once the resolver has filled in the addresses. */
    constructor (u: Uri, addresses: nat)
      ensures View() == Session(u.(responds := false), addresses, false, false, false, 1, 0, 0, 0, false, {})
    {
      uri, endpoints, connecting, connected, disconnecting := u.(responds := false), addresses, false, false, false;
      starts, disconnects, finalizes, calls, reported, tried := 1, 0, 0, 0, false, {};
    }

    method DisconnectFinalize()
      modifies this
      ensures View() == Finalized(old(View()))
    {
      disconnecting := false;
      if !uri.unrecoverable && !uri.confirmed && uri.responds {
        if uri.mode > 0 {
          uri := uri.(mode := uri.mode - 1);
          starts := starts + 1;
          return;
        }
        uri := uri.(unrecoverable := true);
      }
      reported := true;
    }

    method StartConnect()
      requires Enabled(View(), Event.StartConnect)
      modifies this
      ensures View() == Apply(old(View()), Event.StartConnect)
    {
      starts, calls := starts - 1, calls + 1;
      if connecting { return; }
      if endpoints > 0 {
        connecting := true;
      } else {
        DisconnectFinalize();
      }
    }

    /** connect_handler(): `ok` when a socket is connected, `handshake` when TLS is off or has succeeded. */
    method ConnectHandler(ok: bool, handshake: bool)
      requires connecting && !reported
      modifies this
      ensures View() == Apply(old(View()), if ok then ConnectDone(handshake) else ConnectFailed)
    {
      connecting := false;
      if !ok {
        endpoints := if endpoints > 0 then endpoints - 1 else 0;
        starts := starts + 1;
        return;
      }
      connected := true;
      uri := uri.(responds := true);
      if !handshake {
        uri := uri.(unrecoverable := true);
        disconnects := disconnects + 1;
        return;
      }
      if uri.version < UNTESTED {
        uri := uri.(mode := uri.version, confirmed := true);
      } else if !uri.confirmed && uri.mode == UNTESTED {
        uri := uri.(mode := 3);
      }
      tried := tried + {uri.mode};
    }

    /** disconnect(), as a posted handler or called by the pool manager. */
    method Disconnect(posted: bool, tls: bool)
      requires Enabled(View(), Event.Disconnect(posted, tls))
      modifies this
      ensures View() == Apply(old(View()), Event.Disconnect(posted, tls))
    {
      if posted { disconnects := disconnects - 1; }
      if disconnecting { return; }
      disconnecting := true;
      connected := false;
      if tls {
        finalizes := finalizes + 1;
      } else {
        DisconnectFinalize();
      }
    }
  }

  // ----- every sequence of events

  ghost predicate WellFormed(u: Uri) {
    && (u.version <= 3 || u.version == UNTESTED)
    && (u.mode <= 3 || u.mode == UNTESTED)
    && (u.version <= 3 && u.mode != UNTESTED ==> u.mode == u.version && u.confirmed)
    && (u.confirmed ==> u.mode != UNTESTED)
    && (u.responds ==> u.mode != UNTESTED || u.unrecoverable)
  }

  /** The client when connect() has filled in `addresses` endpoints and posted the first attempt. */
  ghost predicate Init(s: Session, addresses: nat) {
    && WellFormed(s.uri) && !s.uri.responds
    && s == Session(s.uri, addresses, false, false, false, 1, 0, 0, 0, false, {})
  }

  /** How many more modes autodetection may step down. */
  ghost function ModesLeft(u: Uri): nat {
    if u.confirmed || u.unrecoverable then 0 else if u.mode == UNTESTED then 3 else u.mode
  }

  ghost predicate Inv(s: Session, addresses: nat) {
    && WellFormed(s.uri)
    && (s.connecting ==> s.endpoints > 0)
    && s.calls + s.starts + s.endpoints + ModesLeft(s.uri) <= addresses + 4
    && (s.reported ==> s.uri.confirmed || !s.uri.responds || s.uri.unrecoverable)
  }

  lemma InvInit(s: Session, addresses: nat)
    requires Init(s, addresses)
    ensures Inv(s, addresses)
  {
  }

  lemma InvFinalized(s: Session, addresses: nat)
    requires Inv(s, addresses) && !s.reported
    ensures Inv(Finalized(s), addresses)
  {
  }

  lemma InvStep(s: Session, e: Event, addresses: nat)
    requires Inv(s, addresses) && Enabled(s, e)
    ensures Inv(Apply(s, e), addresses)
  {
    hide Finalized;
    match e
    case StartConnect =>
      if !s.connecting && s.endpoints == 0 {
        InvFinalized(s.(starts := s.starts - 1, calls := s.calls + 1), addresses);
      }
    case Disconnect(posted, tls) =>
      var t := if posted then s.(disconnects := s.disconnects - 1) else s;
      InvFinalized(t.(disconnecting := true, connected := false), addresses);
    case Finalize =>
      InvFinalized(s.(finalizes := s.finalizes - 1), addresses);
    case _ =>
  }

  ghost predicate IsRun(run: seq<Session>, events: seq<Event>, addresses: nat) {
    && |run| == |events| + 1
    && Init(run[0], addresses)
    && forall i :: 0 <= i < |events| ==> Enabled(run[i], events[i]) && run[i + 1] == Apply(run[i], events[i])
  }

  lemma {:induction false} InvAlong(run: seq<Session>, events: seq<Event>, addresses: nat, i: nat)
    requires IsRun(run, events, addresses) && i < |run|
    ensures Inv(run[i], addresses)
  {
    hide Apply, Inv, Enabled;
    if i == 0 {
      InvInit(run[0], addresses);
    } else {
      InvAlong(run, events, addresses, i - 1);
      InvStep(run[i - 1], events[i - 1], addresses);
      assert run[i - 1 + 1] == Apply(run[i - 1], events[i - 1]);
    }
  }

  /** Autodetection terminates: whatever the network does, one connect() runs start_connect at most once
      per address and four times more. */
  lemma BoundedAttempts(run: seq<Session>, events: seq<Event>, addresses: nat, i: nat)
    requires IsRun(run, events, addresses) && i < |run|
    ensures run[i].calls + run[i].starts <= addresses + 4
  {
    InvAlong(run, events, addresses, i);
  }

  /** Once it has left 999 the mode never rises; confirmation, the mark of a dead URI and the report of a
      disconnection are never taken back. */
  lemma {:induction false} OneWay(run: seq<Session>, events: seq<Event>, addresses: nat, i: nat, j: nat)
    requires IsRun(run, events, addresses) && i <= j < |run|
    ensures run[i].uri.mode != UNTESTED ==> run[j].uri.mode <= run[i].uri.mode && run[j].uri.mode != UNTESTED
    ensures run[i].uri.confirmed ==> run[j].uri.confirmed && run[j].uri.mode == run[i].uri.mode
    ensures run[i].uri.unrecoverable ==> run[j].uri.unrecoverable
    ensures run[i].reported ==> run[j] == run[i]
    decreases j
  {
    hide Apply, Inv, Enabled;
    if i < j {
      OneWay(run, events, addresses, i, j - 1);
      InvAlong(run, events, addresses, j - 1);
      assert Enabled(run[j - 1], events[j - 1]) && run[j - 1 + 1] == Apply(run[j - 1], events[j - 1]);
      OneWayStep(run[j - 1], events[j - 1], addresses);
    }
  }

  lemma OneWayStep(s: Session, e: Event, addresses: nat)
    requires Inv(s, addresses) && Enabled(s, e)
    ensures !s.reported
    ensures var t := Apply(s, e);
            && (s.uri.mode != UNTESTED ==> t.uri.mode <= s.uri.mode && t.uri.mode != UNTESTED)
            && (s.uri.confirmed ==> t.uri.confirmed && t.uri.mode == s.uri.mode)
            && (s.uri.unrecoverable ==> t.uri.unrecoverable)
  {
  }

  ghost predicate ModeMoves(u: Uri, v: Uri) {
    && v.version == u.version
    && (|| v.mode == u.mode
        || (u.mode == UNTESTED && v.mode == if u.version == UNTESTED then 3 else u.version)
        || (u.mode != UNTESTED && v.mode == u.mode - 1))
  }

  lemma FinalizedMoves(s: Session)
    requires WellFormed(s.uri)
    ensures ModeMoves(s.uri, Finalized(s).uri)
  {
  }

  lemma ModeStep(s: Session, e: Event)
    requires WellFormed(s.uri) && Enabled(s, e)
    ensures ModeMoves(s.uri, Apply(s, e).uri)
  {
    hide Finalized;
    match e
    case StartConnect => FinalizedMoves(s.(starts := s.starts - 1, calls := s.calls + 1));
    case Disconnect(posted, _) =>
      var t := if posted then s.(disconnects := s.disconnects - 1) else s;
      FinalizedMoves(t.(disconnecting := true, connected := false));
    case Finalize => FinalizedMoves(s.(finalizes := s.finalizes - 1));
    case _ =>
  }

  /** Where the scheme leaves the flavour open, the mode is lowered one at a time from 3.  This says nothing of
      attempts made in a mode. */
  lemma {:induction false} ModeDescendsByOne(run: seq<Session>, events: seq<Event>, addresses: nat, i: nat, m: nat)
    requires IsRun(run, events, addresses) && i < |run|
    requires run[0].uri.version == run[0].uri.mode == UNTESTED
    requires run[i].uri.mode <= m <= 3
    ensures exists j :: 0 <= j <= i && run[j].uri.mode == m
    decreases i
  {
    hide Apply, Enabled;
    if i > 0 && run[i - 1].uri.mode <= m {
      ModeDescendsByOne(run, events, addresses, i - 1, m);
    } else if i > 0 {
      VersionIsFixed(run, events, addresses, i - 1);
      InvAlong(run, events, addresses, i - 1);
      assert Enabled(run[i - 1], events[i - 1]) && run[i - 1 + 1] == Apply(run[i - 1], events[i - 1]);
      ModeStep(run[i - 1], events[i - 1]);
      assert run[i].uri.mode == m;
    }
  }

  lemma {:induction false} VersionIsFixed(run: seq<Session>, events: seq<Event>, addresses: nat, i: nat)
    requires IsRun(run, events, addresses) && i < |run|
    ensures run[i].uri.version == run[0].uri.version
    decreases i
  {
    hide Apply, Enabled;
    if i > 0 {
      VersionIsFixed(run, events, addresses, i - 1);
      InvAlong(run, events, addresses, i - 1);
      assert Enabled(run[i - 1], events[i - 1]) && run[i - 1 + 1] == Apply(run[i - 1], events[i - 1]);
      ModeStep(run[i - 1], events[i - 1]);
    }
  }

  /** A pool that answered, and whose flavour was not found, is left marked unrecoverable. */
  lemma ExhaustedIsUnrecoverable(run: seq<Session>, events: seq<Event>, addresses: nat, i: nat)
    requires IsRun(run, events, addresses) && i < |run|
    requires run[i].reported && run[i].uri.responds && !run[i].uri.confirmed
    ensures run[i].uri.unrecoverable
  {
    InvAlong(run, events, addresses, i);
  }

  // ----- which modes are really tried

  /** Detection is under way: the pool has answered and the mode is neither confirmed nor given up. */
  ghost predicate Open(s: Session) {
    s.uri.mode <= 3 && s.uri.responds && !s.uri.confirmed && !s.uri.unrecoverable && !s.reported
  }

  ghost predicate Untried(s: Session) {
    s.uri.mode !in s.tried
  }

  /** An event of a smooth session: attempts complete, messages come from a live connection, and only the client
      itself disconnects. */
  ghost predicate Smooth(s: Session, e: Event) {
    match e
    case ConnectFailed => false
    case ConnectDone(handshake) => handshake
    case Disconnect(posted, _) => posted
    case StartConnect => true
    case Finalize => true
    case _ => s.connected
  }

  /** Nothing is left over from the last mode and there is an address to try this one on. */
  ghost predicate Ready(s: Session) {
    s.endpoints > 0 && s.disconnects == 0 && s.finalizes == 0 && !s.connected
  }

  /** The smooth events lead out of the current mode with no connection completed in it. */
  ghost predicate Skips(s: Session, events: seq<Event>)
    decreases |events|
  {
    && Untried(s) && events != [] && Enabled(s, events[0]) && Smooth(s, events[0])
    && var t := Apply(s, events[0]);
       t.uri.mode != s.uri.mode || t.reported || Skips(t, events[1..])
  }

  ghost predicate CanBeSkipped(s: Session) {
    exists events: seq<Event> :: Skips(s, events)
  }

  ghost predicate Live(s: Session) {
    && (s.disconnecting ==> s.finalizes > 0)
    && (Open(s) && Untried(s) ==> s.starts > 0 || s.connecting)
  }

  lemma LiveStep(s: Session, e: Event)
    requires WellFormed(s.uri) && Live(s) && Enabled(s, e)
    ensures Live(Apply(s, e))
  {
  }

  lemma {:induction false} LiveAlong(run: seq<Session>, events: seq<Event>, addresses: nat, i: nat)
    requires IsRun(run, events, addresses) && i < |run|
    ensures Live(run[i]) && Inv(run[i], addresses)
    decreases i
  {
    InvAlong(run, events, addresses, i);
    if i > 0 {
      LiveAlong(run, events, addresses, i - 1);
      hide Apply, Enabled, Live;
      assert Enabled(run[i - 1], events[i - 1]) && run[i - 1 + 1] == Apply(run[i - 1], events[i - 1]);
      LiveStep(run[i - 1], events[i - 1]);
    }
  }

  /** A smooth step out of a ready, untried state stays there or tries the mode. */
  lemma ReadyStep(s: Session, e: Event)
    requires WellFormed(s.uri) && Open(s) && Ready(s) && Enabled(s, e) && Smooth(s, e)
    ensures var t := Apply(s, e);
            && WellFormed(t.uri) && Open(t) && t.uri.mode == s.uri.mode && s.tried <= t.tried
            && (t.uri.mode in t.tried || Ready(t))
  {
  }

  lemma {:induction false} ReadyNeverSkips(s: Session, more: seq<Event>)
    requires WellFormed(s.uri) && Open(s) && Ready(s)
    ensures !Skips(s, more)
    decreases |more|
  {
    hide Apply;
    if more != [] && Enabled(s, more[0]) && Smooth(s, more[0]) {
      ReadyStep(s, more[0]);
      var t := Apply(s, more[0]);
      if Ready(t) {
        ReadyNeverSkips(t, more[1..]);
      }
    }
  }

  lemma OneStepSkips(s: Session, e: Event)
    requires Open(s) && Untried(s) && Enabled(s, e) && Smooth(s, e)
    requires e == Finalize || (e == Disconnect(true, false) && !s.disconnecting)
          || (e == StartConnect && !s.connecting && s.endpoints == 0)
    ensures Skips(s, [e])
  {
  }

  lemma NotReadySkips(s: Session) returns (more: seq<Event>)
    requires Live(s) && Open(s) && Untried(s) && !Ready(s) && (s.connecting ==> s.endpoints > 0)
    ensures Skips(s, more)
  {
    if s.finalizes > 0 {
      OneStepSkips(s, Finalize);
      more := [Finalize];
    } else if s.disconnects > 0 {
      OneStepSkips(s, Disconnect(true, false));
      more := [Disconnect(true, false)];
    } else if s.endpoints == 0 {
      OneStepSkips(s, StartConnect);
      more := [StartConnect];
    } else {
      var t := Apply(s, LoginRejected);
      OneStepSkips(t, Disconnect(true, false));
      more := [LoginRejected] + [Disconnect(true, false)];
      assert more[1..] == [Disconnect(true, false)];
    }
  }

  /** A mode that detection has come to can be left untried, although every attempt completes and nobody else
      disconnects the client, if and only if no address is left, a disconnect or a finalize is outstanding, or
      an earlier connection still counts as open. */
  lemma ModeCanBeSkippedExactlyWhen(run: seq<Session>, events: seq<Event>, addresses: nat, i: nat)
    requires IsRun(run, events, addresses) && i < |run| && Open(run[i]) && Untried(run[i])
    ensures CanBeSkipped(run[i]) <==> !Ready(run[i])
  {
    LiveAlong(run, events, addresses, i);
    hide Skips;
    var s := run[i];
    if Ready(s) {
      forall more: seq<Event> ensures !Skips(s, more) {
        ReadyNeverSkips(s, more);
      }
    } else {
      var more := NotReadySkips(s);
    }
  }

  /** Step k lowers the mode. */
  ghost predicate StepsDown(run: seq<Session>, k: nat)
    requires k + 1 < |run|
  {
    run[k].uri.mode != UNTESTED && run[k + 1].uri.mode < run[k].uri.mode
  }

  /** So a smooth session that is ready each time it has stepped down has tried every mode it has left, and a
      pool is not given up before the last of them has been tried. */
  lemma {:induction false} ReadySessionsTryAll(run: seq<Session>, events: seq<Event>, addresses: nat, i: nat, m: nat)
    requires IsRun(run, events, addresses) && i < |run|
    requires run[0].uri.version == run[0].uri.mode == UNTESTED
    requires forall k :: 0 <= k < i ==> Smooth(run[k], events[k])
    requires forall k :: 0 <= k < i && StepsDown(run, k) ==> Ready(run[k + 1])
    ensures run[i].uri.mode < m <= 3 ==> m in run[i].tried
    ensures run[i].reported && run[i].uri.mode <= 3 ==> run[i].uri.mode in run[i].tried
    ensures run[i].uri.mode == UNTESTED || run[i].uri.mode in run[i].tried || (Open(run[i]) && Ready(run[i]))
    decreases i
  {
    hide Apply, Enabled, Inv, Smooth;
    if i > 0 {
      var s, t, e := run[i - 1], run[i - 1 + 1], events[i - 1];
      assert Enabled(s, e) && t == Apply(s, e) && Smooth(s, e);
      ReadySessionsTryAll(run, events, addresses, i - 1, m);
      WellFormedAlong(run, events, addresses, i - 1);
      VersionIsFixed(run, events, addresses, i - 1);
      if Open(s) && Ready(s) {
        ReadyStep(s, e);
      } else {
        assert StepsDown(run, i - 1) ==> Ready(t);
        TriedStep(s, e);
      }
    }
  }

  lemma WellFormedAlong(run: seq<Session>, events: seq<Event>, addresses: nat, i: nat)
    requires IsRun(run, events, addresses) && i < |run|
    ensures WellFormed(run[i].uri)
  {
    InvAlong(run, events, addresses, i);
  }

  lemma FinalizedKeeps(s: Session)
    requires WellFormed(s.uri) && !s.reported
    ensures var t := Finalized(s);
            && t.tried == s.tried
            && (t.uri.mode == s.uri.mode || (s.uri.mode != UNTESTED && t.uri.mode == s.uri.mode - 1 && Open(t)))
  {
  }

  lemma TriedStep(s: Session, e: Event)
    requires WellFormed(s.uri) && s.uri.version == UNTESTED && Enabled(s, e)
    ensures var t := Apply(s, e);
            && s.tried <= t.tried
            && (|| t.uri.mode == s.uri.mode
                || (s.uri.mode == UNTESTED && t.uri.mode == 3 && 3 in t.tried)
                || (s.uri.mode != UNTESTED && t.uri.mode == s.uri.mode - 1 && Open(t)))
  {
    hide Finalized;
    match e
    case StartConnect => FinalizedKeeps(s.(starts := s.starts - 1, calls := s.calls + 1));
    case Disconnect(posted, _) =>
      var t := if posted then s.(disconnects := s.disconnects - 1) else s;
      FinalizedKeeps(t.(disconnecting := true, connected := false));
    case Finalize => FinalizedKeeps(s.(finalizes := s.finalizes - 1));
    case _ =>
  }

  /** A run can go on with any event that is enabled in its last state. */
  lemma Extend(run: seq<Session>, events: seq<Event>, addresses: nat, e: Event, t: Session)
    returns (longer: seq<Session>, more: seq<Event>)
    requires IsRun(run, events, addresses) && Enabled(run[|events|], e) && t == Apply(run[|events|], e)
    ensures IsRun(longer, more, addresses) && longer[|more|] == t
  {
    hide Init, Apply, Enabled;
    longer, more := run + [t], events + [e];
  }

  /** A pool with one address that has answered and has rejected mode 3. */
  lemma RejectedInModeThree() returns (run: seq<Session>, events: seq<Event>)
    ensures IsRun(run, events, 1)
    ensures run[|events|]
         == Session(Uri(UNTESTED, 3, false, true, false), 1, false, true, false, 0, 1, 0, 1, false, {3})
  {
    var u := Uri(UNTESTED, UNTESTED, false, false, false);
    var s0 := Session(u, 1, false, false, false, 1, 0, 0, 0, false, {});
    var s1 := s0.(starts := 0, calls := 1, connecting := true);
    var s2 := s1.(connecting := false, connected := true, uri := u.(responds := true, mode := 3), tried := {3});
    run, events := [s0], [];
    run, events := Extend(run, events, 1, StartConnect, s1);
    assert {} + {3} == {3};
    run, events := Extend(run, events, 1, ConnectDone(true), s2);
    run, events := Extend(run, events, 1, LoginRejected, s2.(disconnects := 1));
  }

  /** Two error lines in one read post two disconnects, and the second takes away the turn of mode 2. */
  lemma TwoRejectionsSkipAMode() returns (run: seq<Session>, events: seq<Event>)
    ensures IsRun(run, events, 1)
    ensures var last := run[|events|];
            Open(last) && last.uri.mode == 1 && last.tried == {3}
  {
    run, events := RejectedInModeThree();
    var s := run[|events|];
    hide IsRun;
    var t := s.(disconnects := 1, connected := false, starts := 1, uri := s.uri.(mode := 2));
    run, events := Extend(run, events, 1, LoginRejected, s.(disconnects := 2));
    run, events := Extend(run, events, 1, Disconnect(true, false), t);
    run, events := Extend(run, events, 1, Disconnect(true, false),
                          t.(disconnects := 0, starts := 2, uri := s.uri.(mode := 1)));
  }

  /** With its only address refused once after the rejection of mode 3, a pool is given up with no connection made
      in any other mode. */
  lemma RefusedAddressSkipsTheRest() returns (run: seq<Session>, events: seq<Event>)
    ensures IsRun(run, events, 1)
    ensures var last := run[|events|];
            last.reported && last.uri.unrecoverable && last.uri.mode == 0 && last.tried == {3}
  {
    run, events := RefusedInModeTwo();
    var v := run[|events|];
    hide IsRun;
    run, events := Extend(run, events, 1, StartConnect, v.(calls := 3, uri := v.uri.(mode := 1)));
    run, events := Extend(run, events, 1, StartConnect, v.(calls := 4, uri := v.uri.(mode := 0)));
    var last := v.(calls := 5, starts := 0, uri := v.uri.(mode := 0, unrecoverable := true), reported := true);
    run, events := Extend(run, events, 1, StartConnect, last);
  }

  lemma RefusedInModeTwo() returns (run: seq<Session>, events: seq<Event>)
    ensures IsRun(run, events, 1)
    ensures run[|events|]
         == Session(Uri(UNTESTED, 2, false, true, false), 0, false, false, false, 1, 0, 0, 2, false, {3})
  {
    run, events := RejectedInModeThree();
    var s := run[|events|];
    hide IsRun;
    var t := s.(disconnects := 0, connected := false, starts := 1, uri := s.uri.(mode := 2));
    run, events := Extend(run, events, 1, Disconnect(true, false), t);
    run, events := Extend(run, events, 1, StartConnect, t.(starts := 0, calls := 2, connecting := true));
    run, events := Extend(run, events, 1, ConnectFailed, t.(calls := 2, endpoints := 0));
  }

  // ----- what an answer settles

  /** The event ends in disconnect_finalize(). */
  ghost predicate Finalizes(s: Session, e: Event) {
    || e == Finalize
    || (e.Disconnect? && !e.tls && !s.disconnecting)
    || (e == StartConnect && !s.connecting && s.endpoints == 0)
  }

  /** With the mode confirmed or the URI marked, the next finalize reports and tries no other mode. */
  lemma SettledReports(s: Session, e: Event)
    requires Enabled(s, e) && Finalizes(s, e) && (s.uri.confirmed || s.uri.unrecoverable)
    ensures Apply(s, e).reported && Apply(s, e).uri == s.uri && Apply(s, e).starts <= s.starts
  {
  }

  /** An accepted login confirms the mode in use for good: it is never lowered again, and a later finalize reports
      the disconnection without another attempt. */
  lemma LoginConfirms(run: seq<Session>, events: seq<Event>, addresses: nat, i: nat, j: nat)
    requires IsRun(run, events, addresses) && i < j < |run| && events[i] == LoginAccepted
    ensures run[j].uri.confirmed && run[j].uri.mode == run[i].uri.mode
    ensures j < |events| && Finalizes(run[j], events[j]) ==>
              run[j + 1].reported && run[j + 1].uri.mode == run[i].uri.mode && run[j + 1].starts <= run[j].starts
  {
    assert Enabled(run[i], events[i]) && run[i + 1] == Apply(run[i], events[i]);
    assert run[i + 1].uri.confirmed && run[i + 1].uri.mode == run[i].uri.mode;
    hide Apply, Enabled;
    OneWay(run, events, addresses, i + 1, j);
    if j < |events| && Finalizes(run[j], events[j]) {
      assert Enabled(run[j], events[j]) && run[j + 1] == Apply(run[j], events[j]);
      SettledReports(run[j], events[j]);
    }
  }

  /** The answers after which a URI is dead: a failed handshake, a refused worker, and a refusal in a mode that was
      confirmed before. */
  ghost predicate Condemns(s: Session, e: Event) {
    e == ConnectDone(false) || e == AuthRejected || (e == LoginRejected && s.uri.confirmed)
  }

  lemma CondemnedIsReported(run: seq<Session>, events: seq<Event>, addresses: nat, i: nat, j: nat)
    requires IsRun(run, events, addresses) && i < j < |run| && Condemns(run[i], events[i])
    ensures run[i + 1].disconnects == run[i].disconnects + 1
    ensures run[j].uri.unrecoverable
    ensures j < |events| && Finalizes(run[j], events[j]) ==> run[j + 1].reported && run[j + 1].starts <= run[j].starts
  {
    assert Enabled(run[i], events[i]) && run[i + 1] == Apply(run[i], events[i]);
    assert run[i + 1].uri.unrecoverable;
    hide Apply, Enabled;
    OneWay(run, events, addresses, i + 1, j);
    if j < |events| && Finalizes(run[j], events[j]) {
      assert Enabled(run[j], events[j]) && run[j + 1] == Apply(run[j], events[j]);
      SettledReports(run[j], events[j]);
    }
  }

  /** A refusal in a mode under test, and every other loss of the connection, posts one disconnect; only a timeout
      takes an address away. */
  lemma LossPostsDisconnect(s: Session, e: Event)
    requires Enabled(s, e) && ((e == LoginRejected && !s.uri.confirmed) || e.Dropped?)
    ensures var t := Apply(s, e);
            && t.disconnects == s.disconnects + 1 && t.starts == s.starts && t.uri.mode == s.uri.mode
            && t.endpoints == s.endpoints - (if e.Dropped? && e.pop then 1 else 0)
            && (t.uri.unrecoverable <==> s.uri.unrecoverable || (e.Dropped? && e.unrecoverable))
  {
  }

  /** A scheme that names the flavour has it confirmed by the first connection. */
  lemma NamedFlavourIsConfirmed(run: seq<Session>, events: seq<Event>, addresses: nat, i: nat, j: nat)
    requires IsRun(run, events, addresses) && i < j < |run|
    requires events[i] == ConnectDone(true) && run[i].uri.version != UNTESTED
    ensures run[j].uri.confirmed && run[j].uri.mode == run[i].uri.version
  {
    InvAlong(run, events, addresses, i);
    assert Enabled(run[i], events[i]) && run[i + 1] == Apply(run[i], events[i]);
    assert run[i + 1].uri.confirmed && run[i + 1].uri.mode == run[i].uri.version;
    hide Apply, Enabled;
    OneWay(run, events, addresses, i + 1, j);
  }

  /** A TLS shutdown only puts the finalize off. */
  lemma ShutdownOnlyDelays(s: Session, posted: bool)
    requires Enabled(s, Disconnect(posted, true)) && !s.disconnecting
    ensures var t := Apply(s, Disconnect(posted, true));
            && t.disconnecting && !t.connected && Enabled(t, Finalize)
            && Apply(t, Finalize) == Apply(s, Disconnect(posted, false))
  {
  }

  // ----- every posted handler runs once

  /** The disconnects posted by the first n events, and those of them that have run. */
  ghost function PostedDisconnects(events: seq<Event>, n: nat): nat
    requires n <= |events|
  {
    if n == 0 then 0
    else
      var e := events[n - 1];
      PostedDisconnects(events, n - 1)
      + (if e == ConnectDone(false) || e == LoginRejected || e == AuthRejected || e.Dropped? then 1 else 0)
  }

  ghost function DisconnectsRun(events: seq<Event>, n: nat): nat
    requires n <= |events|
  {
    if n == 0 then 0
    else DisconnectsRun(events, n - 1) + (if events[n - 1].Disconnect? && events[n - 1].posted then 1 else 0)
  }

  ghost function AttemptsRun(events: seq<Event>, n: nat): nat
    requires n <= |events|
  {
    if n == 0 then 0 else AttemptsRun(events, n - 1) + (if events[n - 1] == StartConnect then 1 else 0)
  }

  /** The attempts posted: the first, one for each refused address and one for each step down. */
  ghost function PostedAttempts(run: seq<Session>, events: seq<Event>, n: nat): nat
    requires n <= |events| < |run|
  {
    if n == 0 then 1
    else
      PostedAttempts(run, events, n - 1)
      + (if events[n - 1] == ConnectFailed || StepsDown(run, n - 1) then 1 else 0)
  }

  ghost predicate Lowered(s: Session, t: Session) {
    s.uri.mode != UNTESTED && t.uri.mode < s.uri.mode
  }

  lemma FinalizedPosts(s: Session)
    requires WellFormed(s.uri)
    ensures var t := Finalized(s);
            && t.calls == s.calls && t.disconnects == s.disconnects
            && t.starts == s.starts + (if Lowered(s, t) then 1 else 0)
  {
  }

  lemma HandlerStep(s: Session, e: Event)
    requires WellFormed(s.uri) && Enabled(s, e)
    ensures var t := Apply(s, e);
            && t.calls == s.calls + (if e == StartConnect then 1 else 0)
            && t.starts + t.calls == s.starts + s.calls + (if e == ConnectFailed || Lowered(s, t) then 1 else 0)
            && t.disconnects + (if e.Disconnect? && e.posted then 1 else 0)
               == s.disconnects
                  + (if e == ConnectDone(false) || e == LoginRejected || e == AuthRejected || e.Dropped? then 1 else 0)
  {
    hide Finalized;
    match e
    case StartConnect => FinalizedPosts(s.(starts := s.starts - 1, calls := s.calls + 1));
    case Disconnect(posted, _) =>
      var t := if posted then s.(disconnects := s.disconnects - 1) else s;
      FinalizedPosts(t.(disconnecting := true, connected := false));
    case Finalize => FinalizedPosts(s.(finalizes := s.finalizes - 1));
    case _ =>
  }

  /** In every run the handlers still to come are the ones posted less the ones that have run. */
  lemma {:induction false} HandlersBalance(run: seq<Session>, events: seq<Event>, addresses: nat, n: nat)
    requires IsRun(run, events, addresses) && n < |run|
    ensures run[n].calls == AttemptsRun(events, n)
    ensures run[n].starts + AttemptsRun(events, n) == PostedAttempts(run, events, n)
    ensures run[n].disconnects + DisconnectsRun(events, n) == PostedDisconnects(events, n)
    decreases n
  {
    hide Apply, Enabled;
    if n > 0 {
      HandlersBalance(run, events, addresses, n - 1);
      WellFormedAlong(run, events, addresses, n - 1);
      assert Enabled(run[n - 1], events[n - 1]) && run[n - 1 + 1] == Apply(run[n - 1], events[n - 1]);
      HandlerStep(run[n - 1], events[n - 1]);
    }
  }

  lemma OpenStep(s: Session, e: Event)
    requires Enabled(s, e) && s.connected && s.uri.responds && !e.Disconnect?
    ensures Apply(s, e).connected && Apply(s, e).uri.responds
  {
  }

  /** A completed connection, its handshake failed or not, counts as open and as an answer of the pool until the
      client disconnects. */
  lemma {:induction false} OpenUntilDisconnect(run: seq<Session>, events: seq<Event>, addresses: nat, i: nat, j: nat)
    requires IsRun(run, events, addresses) && i < j < |run| && events[i].ConnectDone?
    requires forall k :: i < k < j ==> !events[k].Disconnect?
    ensures run[j].connected && run[j].uri.responds
    decreases j
  {
    hide Apply, Enabled;
    assert Enabled(run[j - 1], events[j - 1]) && run[j - 1 + 1] == Apply(run[j - 1], events[j - 1]);
    if i + 1 < j {
      OpenUntilDisconnect(run, events, addresses, i, j - 1);
      OpenStep(run[j - 1], events[j - 1]);
    } else {
      DoneOpens(run[i], events[i]);
    }
  }

  lemma DoneOpens(s: Session, e: Event)
    requires Enabled(s, e) && e.ConnectDone?
    ensures Apply(s, e).connected && Apply(s, e).uri.responds
  {
  }
}
