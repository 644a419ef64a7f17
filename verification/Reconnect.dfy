/** The browser's WebSocket connection: reference counting, stale sockets, reconnect timers. */
module Reconnect {
  import opened Wrappers

  // ----- the connection's state -----

  datatype ReadyState = Connecting | Open | Closing | Closed

  /** A resync made by the connection itself, or a message from the server. */
  datatype Event = Resync | Message(kind: string)

  /** The store's variables, and the browser's side: every socket ever created and every timer still
      pending with its delay in milliseconds. */
  datatype Conn = Conn(
    connected: bool, events: seq<Event>, ws: Option<nat>, timer: Option<nat>, refCount: nat, delayIdx: nat,
    everConnected: bool, deadConns: nat,
    sockets: map<nat, ReadyState>, timers: map<nat, int>, nextId: nat)

  const RECONNECT_DELAYS := [3000, 10000, 30000]

  const INITIAL := Conn(false, [], None, None, 0, 0, false, 0, map[], map[], 0)

  /** What can happen to the connection. A message that is no JSON carries None. */
  datatype Input =
    | Connect
    | Disconnect
    | SocketOpened(s: nat)
    | SocketClosed(s: nat)
    | SocketFailed(s: nat)
    | SocketMessage(s: nat, kind: Option<string>)
    | TimerFired(t: nat)
    | Visible(shown: bool)
    | PageShown(persisted: bool)

  function Min(a: nat, b: nat): nat { if a < b then a else b }

  /** The last hundred of a list. */
  function Last100(log: seq<Event>): seq<Event> { if |log| > 100 then log[|log| - 100..] else log }

  function Push(c: Conn, e: Event): Conn { c.(events := Last100(c.events + [e])) }

  /** The state of a socket that was told to close. */
  function Told(r: ReadyState): ReadyState { if r == Closed then Closed else Closing }

  function NoTimer(c: Conn): Conn {
    c.(timer := None, timers := if c.timer.Some? then c.timers - {c.timer.value} else c.timers)
  }

  /** No current socket, no pending timer, the delay back at its start; the old socket is told to close. */
  function Killed(c: Conn): Conn {
    var d := NoTimer(c);
    d.(connected := false, ws := None, delayIdx := 0,
       sockets := if c.ws.Some? && c.ws.value in c.sockets
                  then c.sockets[c.ws.value := Told(c.sockets[c.ws.value])] else c.sockets)
  }

  function WithSocket(c: Conn): Conn {
    c.(ws := Some(c.nextId), sockets := c.sockets[c.nextId := Connecting], nextId := c.nextId + 1)
  }

  function DelayAt(idx: nat): int { RECONNECT_DELAYS[Min(idx, 2)] }

  function WithTimer(c: Conn): Conn {
    c.(timer := Some(c.nextId), timers := c.timers[c.nextId := DelayAt(c.delayIdx)], nextId := c.nextId + 1)
  }

  predicate OpenNow(c: Conn) { c.ws.Some? && c.ws.value in c.sockets && c.sockets[c.ws.value] == Open }

  predicate Current(c: Conn, s: nat) { s in c.sockets && c.ws == Some(s) }

  /** The connection lost its socket: wait unless already waiting or unwanted; the next wait is longer. */
  function Lost(c: Conn): Conn {
    var down := c.(connected := false, ws := None, deadConns := c.deadConns + 1);
    var waiting := if c.timer.Some? || c.refCount == 0 then down else WithTimer(down);
    waiting.(delayIdx := Min(c.delayIdx + 1, 2))
  }

  /** The net effect of one input and the events it emits. Socket and timer inputs name things the
      browser knows; others cannot occur and change nothing. */
  function Step(c: Conn, i: Input): (Conn, seq<Event>) {
    match i
    case Connect =>
      var d := NoTimer(c).(refCount := c.refCount + 1);
      (if c.ws.Some? then d else WithSocket(d), [])
    case Disconnect =>
      if c.refCount > 1 then (c.(refCount := c.refCount - 1), [])
      else (Killed(c).(refCount := 0, everConnected := false), [])
    case SocketOpened(s) =>
      if s !in c.sockets then (c, [])
      else
        var d := c.(sockets := c.sockets[s := if c.sockets[s] == Connecting then Open else c.sockets[s]]);
        if c.ws != Some(s) then (d, [])
        else
          var up := d.(deadConns := 0, everConnected := true, delayIdx := 0);
          if c.everConnected then (Push(up, Resync), [Resync]) else (up, [])
    case SocketClosed(s) =>
      if s !in c.sockets then (c, [])
      else
        var d := c.(sockets := c.sockets[s := Closed]);
        if c.ws != Some(s) then (d, []) else (Lost(d), [])
    case SocketFailed(s) =>
      if !Current(c, s) then (c, [])
      else (c.(sockets := c.sockets[s := Told(c.sockets[s])]), [])
    case SocketMessage(s, kind) =>
      if !Current(c, s) || kind.None? then (c, [])
      else (Push(c.(connected := c.connected || kind.value == "connected"), Message(kind.value)), [Message(kind.value)])
    case TimerFired(t) =>
      if t !in c.timers then (c, [])
      else
        var d := c.(timer := None, timers := c.timers - {t});
        (if c.refCount > 0 && c.ws.None? then WithSocket(d) else d, [])
    case Visible(shown) =>
      if !shown || c.refCount == 0 || OpenNow(c) then (c, []) else (WithSocket(Killed(c)), [])
    case PageShown(persisted) =>
      if !persisted then (c, [])
      else (if c.refCount > 0 then WithSocket(Killed(c)) else Killed(c), [])
  }

  /** The state after a list of inputs, and everything emitted on the way. */
  function Run(c: Conn, inputs: seq<Input>): (Conn, seq<Event>)
    decreases |inputs|
  {
    if inputs == [] then (c, [])
    else
      var (d, out) := Step(c, inputs[0]);
      var (r, rest) := Run(d, inputs[1..]);
      (r, out + rest)
  }

  // ----- the invariant -----

  /** While someone is connected there is exactly one of a current socket and a pending timer, else
      neither; connected implies a current socket; the store's timer is the browser's only one. */
  predicate Exclusive(c: Conn) {
    && (c.refCount > 0 ==> c.ws.Some? != c.timer.Some?)
    && (c.refCount == 0 ==> c.ws.None? && c.timer.None? && !c.everConnected)
    && (c.connected ==> c.ws.Some?)
    && c.timers.Keys == (if c.timer.Some? then {c.timer.value} else {})
    && c.delayIdx <= 2
  }

  /** Every socket ever created other than the current one is closed or was told to close. */
  predicate Abandoned(c: Conn) {
    && (c.ws.Some? ==> c.ws.value in c.sockets && c.sockets[c.ws.value] != Closed)
    && (forall s :: s in c.sockets ==> s < c.nextId)
    && (forall s :: s in c.sockets && c.ws != Some(s) ==> c.sockets[s] == Closing || c.sockets[s] == Closed)
  }

  predicate Inv(c: Conn) { Exclusive(c) && Abandoned(c) }

  lemma KilledInv(c: Conn)
    requires Inv(c)
    ensures Abandoned(Killed(c)) && Killed(c).timers == map[]
    ensures Abandoned(WithSocket(Killed(c)))
  {
    var k := Killed(c);
    assert k.timers.Keys == {};
    WithSocketAbandons(k);
  }

  lemma WithSocketAbandons(c: Conn)
    requires Abandoned(c) && c.ws.None?
    ensures Abandoned(WithSocket(c))
  {
    var d := WithSocket(c);
    forall s | s in d.sockets && d.ws != Some(s)
      ensures d.sockets[s] == Closing || d.sockets[s] == Closed
    {
      assert s in c.sockets;
    }
  }

  lemma SocketEventKeepsInv(c: Conn, i: Input)
    requires Inv(c)
    requires i.SocketOpened? || i.SocketFailed? || i.SocketMessage?
    ensures Inv(Step(c, i).0)
  {
  }

  lemma ClosedKeepsInv(c: Conn, s: nat)
    requires Inv(c)
    ensures Inv(Step(c, SocketClosed(s)).0)
  {
    if s in c.sockets && c.ws == Some(s) {
      var d := Step(c, SocketClosed(s)).0;
      assert c.timers == map[] by { assert c.timers.Keys == {}; }
      assert d.sockets == c.sockets[s := Closed];
    }
  }

  lemma StepKeepsInv(c: Conn, i: Input)
    requires Inv(c)
    ensures Inv(Step(c, i).0)
  {
    match i
    case Connect =>
      var d := NoTimer(c).(refCount := c.refCount + 1);
      assert d.timers.Keys == {};
      if c.ws.None? { WithSocketAbandons(d); }
    case Disconnect => KilledInv(c);
    case SocketOpened(s) => SocketEventKeepsInv(c, i);
    case SocketClosed(s) => ClosedKeepsInv(c, s);
    case SocketFailed(s) => SocketEventKeepsInv(c, i);
    case SocketMessage(s, kind) => SocketEventKeepsInv(c, i);
    case TimerFired(t) =>
      if t in c.timers {
        var d := c.(timer := None, timers := c.timers - {t});
        assert d.timers.Keys == {};
        WithSocketAbandons(d);
      }
    case Visible(shown) => KilledInv(c);
    case PageShown(persisted) => KilledInv(c);
  }

  /** The invariant holds after every interleaving of inputs. */
  lemma {:induction false} RunKeepsInv(c: Conn, inputs: seq<Input>)
    requires Inv(c)
    ensures Inv(Run(c, inputs).0)
    decreases |inputs|
  {
    if inputs != [] {
      StepKeepsInv(c, inputs[0]);
      RunKeepsInv(Step(c, inputs[0]).0, inputs[1..]);
    }
  }

  /** A socket that is no longer current changes nothing the store can see and emits nothing. */
  lemma StaleSocketsAreIgnored(c: Conn, i: Input)
    requires (i.SocketOpened? || i.SocketClosed? || i.SocketFailed? || i.SocketMessage?) && c.ws != Some(i.s)
    ensures Step(c, i).1 == [] && Step(c, i).0 == c.(sockets := Step(c, i).0.sockets)
  {
  }

  // ----- the event log -----

  lemma Last100Append(log: seq<Event>, e: Event)
    ensures Last100(Last100(log) + [e]) == Last100(log + [e])
  {
  }

  /** A step emits nothing, and keeps the log, or emits one event, and logs it. */
  lemma StepLogs(c: Conn, i: Input)
    ensures Step(c, i).1 == [] ==> Step(c, i).0.events == c.events
    ensures Step(c, i).1 != [] ==> |Step(c, i).1| == 1 && Step(c, i).0.events == Last100(c.events + Step(c, i).1)
  {
  }

  lemma Emitted(c: Conn, inputs: seq<Input>)
    requires inputs != []
    ensures Run(c, inputs).0 == Run(Step(c, inputs[0]).0, inputs[1..]).0
    ensures Run(c, inputs).1 == Step(c, inputs[0]).1 + Run(Step(c, inputs[0]).0, inputs[1..]).1
  {
  }

  /** The kept events are always the last hundred of all emitted ones. */
  lemma {:induction false} LogIsLastHundred(c: Conn, inputs: seq<Input>, log: seq<Event>)
    requires c.events == Last100(log)
    ensures Run(c, inputs).0.events == Last100(log + Run(c, inputs).1)
    decreases |inputs|
  {
    if inputs == [] {
      assert log + [] == log;
    } else {
      var d, out := Step(c, inputs[0]).0, Step(c, inputs[0]).1;
      var rest := Run(d, inputs[1..]).1;
      Emitted(c, inputs);
      StepLogs(c, inputs[0]);
      if out == [] {
        assert out + rest == rest;
        LogIsLastHundred(d, inputs[1..], log);
      } else {
        assert out == [out[0]];
        Last100Append(log, out[0]);
        LogIsLastHundred(d, inputs[1..], log + out);
        assert (log + out) + rest == log + (out + rest);
      }
    }
  }

  // ----- resync and backoff over a run -----

  /** Counts since the last complete disconnect: openings of current sockets, resyncs; and the
      failures in a row since the connection last opened or was restarted. */
  datatype Tally = Tally(opens: nat, resyncs: nat, failures: nat)

  predicate Opens(c: Conn, i: Input) { i.SocketOpened? && Current(c, i.s) }

  predicate Fails(c: Conn, i: Input) { i.SocketClosed? && Current(c, i.s) }

  predicate LastLeaves(c: Conn, i: Input) { i.Disconnect? && c.refCount <= 1 }

  /** The tab became visible, or came back from the cache, without an open socket. */
  predicate Restarts(c: Conn, i: Input) {
    (i.Visible? && i.shown && c.refCount > 0 && !OpenNow(c)) || (i.PageShown? && i.persisted)
  }

  function ResyncsIn(out: seq<Event>): nat {
    if out == [] then 0 else (if out[0] == Resync then 1 else 0) + ResyncsIn(out[1..])
  }

  function CountStep(t: Tally, c: Conn, i: Input): Tally {
    if LastLeaves(c, i) then Tally(0, 0, 0)
    else Tally(
      if Opens(c, i) then t.opens + 1 else t.opens,
      t.resyncs + ResyncsIn(Step(c, i).1),
      if Opens(c, i) || Restarts(c, i) then 0 else if Fails(c, i) then t.failures + 1 else t.failures)
  }

  function Count(t: Tally, c: Conn, inputs: seq<Input>): Tally
    decreases |inputs|
  {
    if inputs == [] then t else Count(CountStep(t, c, inputs[0]), Step(c, inputs[0]).0, inputs[1..])
  }

  /** The n-th wait in a row, in milliseconds. */
  function NthWait(n: nat): int { if n <= 1 then 3000 else if n == 2 then 10000 else 30000 }

  /** One resync for every opening but the first; the pending wait after n failures in a row is the
      n-th of 3 s, 10 s, 30 s, 30 s and so on. */
  predicate Counted(t: Tally, c: Conn) {
    && (c.everConnected <==> t.opens > 0)
    && t.resyncs == (if t.opens == 0 then 0 else t.opens - 1)
    && c.delayIdx == Min(t.failures, 2)
    && (forall k :: k in c.timers ==> t.failures > 0 && c.timers[k] == NthWait(t.failures))
  }

  lemma FailureIsCounted(t: Tally, c: Conn, i: Input)
    requires Inv(c) && Counted(t, c) && Fails(c, i)
    ensures Counted(CountStep(t, c, i), Step(c, i).0)
  {
    assert c.timers == map[] by { assert c.timers.Keys == {}; }
    assert Step(c, i).0.timers == map[c.nextId := DelayAt(c.delayIdx)];
  }

  lemma OpeningIsCounted(t: Tally, c: Conn, i: Input)
    requires Inv(c) && Counted(t, c) && Opens(c, i)
    ensures Counted(CountStep(t, c, i), Step(c, i).0)
  {
    assert c.timers == map[] by { assert c.timers.Keys == {}; }
  }

  lemma OtherIsCounted(t: Tally, c: Conn, i: Input)
    requires Inv(c) && Counted(t, c) && !Fails(c, i) && !Opens(c, i) && !Restarts(c, i) && !LastLeaves(c, i)
    ensures Counted(CountStep(t, c, i), Step(c, i).0)
  {
    var d, out := Step(c, i).0, Step(c, i).1;
    assert d.everConnected == c.everConnected && d.delayIdx == c.delayIdx;
    assert forall k :: k in d.timers ==> k in c.timers && d.timers[k] == c.timers[k];
    if out != [] {
      assert out == [out[0]] && out[0].Message?;
      assert ResyncsIn(out[1..]) == 0;
    }
  }

  lemma CountedStep(t: Tally, c: Conn, i: Input)
    requires Inv(c) && Counted(t, c)
    ensures Counted(CountStep(t, c, i), Step(c, i).0)
  {
    if Fails(c, i) {
      FailureIsCounted(t, c, i);
    } else if Opens(c, i) {
      OpeningIsCounted(t, c, i);
    } else if Restarts(c, i) || LastLeaves(c, i) {
      KilledInv(c);
    } else {
      OtherIsCounted(t, c, i);
    }
  }

  lemma {:induction false} RunIsCounted(t: Tally, c: Conn, inputs: seq<Input>)
    requires Inv(c) && Counted(t, c)
    ensures Inv(Run(c, inputs).0) && Counted(Count(t, c, inputs), Run(c, inputs).0)
    decreases |inputs|
  {
    if inputs != [] {
      var d := Step(c, inputs[0]).0;
      CountedStep(t, c, inputs[0]);
      StepKeepsInv(c, inputs[0]);
      RunIsCounted(CountStep(t, c, inputs[0]), d, inputs[1..]);
      Emitted(c, inputs);
    }
  }

  /** Every run from the start. */
  lemma EveryRun(inputs: seq<Input>)
    ensures Inv(Run(INITIAL, inputs).0)
    ensures Counted(Count(Tally(0, 0, 0), INITIAL, inputs), Run(INITIAL, inputs).0)
    ensures var (c, emitted) := Run(INITIAL, inputs);
      c.events == if |emitted| > 100 then emitted[|emitted| - 100..] else emitted
  {
    RunIsCounted(Tally(0, 0, 0), INITIAL, inputs);
    LogIsLastHundred(INITIAL, inputs, []);
    assert [] + Run(INITIAL, inputs).1 == Run(INITIAL, inputs).1;
  }
}

/** The connection store itself: closures over mutable variables. */
module WebSocketStore {
  import opened Wrappers
  import opened Reconnect

  class Store {
    var connected: bool
    var events: seq<Event>
    var ws: Option<nat>
    var reconnectTimer: Option<nat>
    var refCount: nat
    var delayIdx: nat
    var everConnected: bool
    var deadConns: nat
    // the browser
    var sockets: map<nat, ReadyState>
    var timers: map<nat, int>
    var nextId: nat
    // everything ever passed to the listeners
    var emitted: seq<Event>

    ghost function State(): Conn
      reads this
    {
      Conn(connected, events, ws, reconnectTimer, refCount, delayIdx, everConnected, deadConns, sockets, timers, nextId)
    }

    ghost predicate Valid()
      reads this
    {
      Inv(State()) && |events| <= 100
    }

    constructor ()
      ensures State() == INITIAL && emitted == [] && Valid()
    {
      connected, events, ws, reconnectTimer, refCount := false, [], None, None, 0;
      delayIdx, everConnected, deadConns := 0, false, 0;
      sockets, timers, nextId, emitted := map[], map[], 0, [];
    }

    method Emit(event: Event)
      requires |events| <= 100
      modifies this`events, this`emitted
      ensures State() == Push(old(State()), event)
      ensures emitted == old(emitted) + [event] && |events| <= 100
    {
      events := events + [event];
      if |events| > 100 { events := events[1..]; }
      emitted := emitted + [event];
    }

    method ResetTimer()
      modifies this`reconnectTimer, this`timers
      ensures State() == NoTimer(old(State()))
    {
      if reconnectTimer.Some? {
        timers := timers - {reconnectTimer.value};
        reconnectTimer := None;
      }
    }

    method ScheduleReconnect(delay: int)
      modifies this`reconnectTimer, this`timers, this`nextId
      ensures old(reconnectTimer.Some? || refCount == 0) ==> State() == old(State())
      ensures old(reconnectTimer.None? && refCount > 0) ==> State() == old(State()).(timer := Some(old(nextId)),
        timers := old(timers)[old(nextId) := delay], nextId := old(nextId) + 1)
    {
      if reconnectTimer.Some? || refCount == 0 { return; }
      timers := timers[nextId := delay];
      reconnectTimer, nextId := Some(nextId), nextId + 1;
    }

    method EnsureSocket()
      modifies this`ws, this`sockets, this`nextId
      ensures State() == (if old(ws.Some? || reconnectTimer.Some?) then old(State()) else WithSocket(old(State())))
    {
      if ws.Some? || reconnectTimer.Some? { return; }
      sockets := sockets[nextId := Connecting];
      ws, nextId := Some(nextId), nextId + 1;
    }

    method Close(s: nat)
      requires s in sockets
      modifies this`sockets
      ensures sockets == old(sockets)[s := Told(old(sockets)[s])]
    {
      if sockets[s] != Closed { sockets := sockets[s := Closing]; }
    }

    method KillSocket()
      requires ws.Some? ==> ws.value in sockets
      modifies this
      ensures State() == Killed(old(State())) && emitted == old(emitted)
    {
      ResetTimer();
      connected := false;
      if ws.Some? {
        var sock := ws.value;
        ws := None;
        Close(sock);
      }
      delayIdx := 0;
    }

    method Teardown()
      requires ws.Some? ==> ws.value in sockets
      modifies this
      ensures State() == Killed(old(State())).(everConnected := false) && emitted == old(emitted)
    {
      KillSocket();
      everConnected := false;
    }

    /** The method did what the connection's step says, and the invariant still holds. */
    twostate predicate Did(i: Input)
      reads this
    {
      State() == Step(old(State()), i).0 && emitted == old(emitted) + Step(old(State()), i).1 && Valid()
    }

    method Join()
      requires Valid()
      modifies this
      ensures Did(Connect)
    {
      StepKeepsInv(State(), Connect);
      refCount := refCount + 1;
      ResetTimer();
      EnsureSocket();
    }

    method Leave()
      requires Valid()
      modifies this
      ensures Did(Disconnect)
    {
      StepKeepsInv(State(), Disconnect);
      if refCount > 0 { refCount := refCount - 1; }
      if refCount > 0 { return; }
      Teardown();
    }

    /** The browser opened a socket and calls its handler. */
    method OnOpen(sock: nat)
      requires Valid() && sock in sockets
      modifies this
      ensures Did(SocketOpened(sock))
    {
      StepKeepsInv(State(), SocketOpened(sock));
      if sockets[sock] == Connecting { sockets := sockets[sock := Open]; }
      if ws != Some(sock) { return; }
      deadConns := 0;
      if everConnected { Emit(Resync); }
      everConnected := true;
      delayIdx := 0;
    }

    /** The part of the close handler that concerns the current socket. */
    method LoseSocket()
      modifies this`connected, this`ws, this`deadConns, this`reconnectTimer, this`timers, this`nextId, this`delayIdx
      ensures State() == Lost(old(State()))
    {
      connected := false;
      ws := None;
      deadConns := deadConns + 1;
      ScheduleReconnect(RECONNECT_DELAYS[Min(delayIdx, |RECONNECT_DELAYS| - 1)]);
      delayIdx := Min(delayIdx + 1, |RECONNECT_DELAYS| - 1);
    }

    /** The browser closed a socket and calls its handler. */
    method OnClose(sock: nat)
      requires Valid() && sock in sockets
      modifies this
      ensures Did(SocketClosed(sock))
    {
      ClosedKeepsInv(State(), sock);
      sockets := sockets[sock := Closed];
      if ws != Some(sock) { return; }
      LoseSocket();
    }

    method OnError(sock: nat)
      requires Valid() && sock in sockets
      modifies this
      ensures Did(SocketFailed(sock))
    {
      StepKeepsInv(State(), SocketFailed(sock));
      if ws != Some(sock) { return; }
      Close(sock);
    }

    method OnMessage(sock: nat, kind: Option<string>)
      requires Valid() && sock in sockets
      modifies this
      ensures Did(SocketMessage(sock, kind))
    {
      StepKeepsInv(State(), SocketMessage(sock, kind));
      if ws != Some(sock) { return; }
      if kind.None? { return; }
      if kind.value == "connected" { connected := true; }
      Emit(Message(kind.value));
    }

    /** A timer runs out: the browser forgets it and calls back. */
    method OnTimer(timer: nat)
      requires Valid() && timer in timers
      modifies this
      ensures Did(TimerFired(timer))
    {
      StepKeepsInv(State(), TimerFired(timer));
      timers := timers - {timer};
      reconnectTimer := None;
      if refCount > 0 { EnsureSocket(); }
    }

    method HandleVisible(shown: bool)
      requires Valid()
      modifies this
      ensures Did(Visible(shown))
    {
      StepKeepsInv(State(), Visible(shown));
      if !shown { return; }
      if refCount == 0 { return; }
      if ws.Some? && sockets[ws.value] == Open { return; }
      KillSocket();
      EnsureSocket();
    }

    method OnPageShow(persisted: bool)
      requires Valid()
      modifies this
      ensures Did(PageShown(persisted))
    {
      StepKeepsInv(State(), PageShown(persisted));
      if !persisted { return; }
      KillSocket();
      if refCount > 0 { EnsureSocket(); }
    }
  }
}
