/**
 * The dashboard's WebSocket manager: one connection for the current set of vehicles, reopened when
 * the set changes and after failures. Sockets and timers are numbered in the order they are made.
 */
module WsManagers {
  import opened Bytes

  type Id = seq<char>

  datatype Status = Disconnected | Connecting | Connected

  datatype ReadyState = CONNECTING | OPEN | CLOSING | CLOSED

  /** `attached` tells whether the socket still has its onclose handler, `sent` what was last sent on it. */
  datatype Socket = Socket(state: ReadyState, attached: bool, sent: Option<set<Id>>)

  datatype Timer = Timer(armed: bool, delay: nat)

  /**
   * The manager's fields and the sockets and timers it has made; `retries` counts the retries since
   * the last open or teardown.
   */
  datatype View = View(
    ws: Option<nat>, ids: set<Id>, retryDelay: nat, retryTimer: Option<nat>, destroyed: bool, status: Status,
    sockets: seq<Socket>, timers: seq<Timer>, retries: nat)
  {
    ghost predicate WellFormed() {
      (ws.Some? ==> ws.value < |sockets|) && (retryTimer.Some? ==> retryTimer.value < |timers|)
    }
  }

  const FIRST_DELAY := 1000
  const MAX_DELAY := 30000

  const INITIAL := View(None, {}, FIRST_DELAY, None, false, Disconnected, [], [], 0)

  // ---------------------------------------------------------------- the manager's operations

  function TimerCleared(v: View): View
    requires v.WellFormed()
  {
    match v.retryTimer
    case None => v
    case Some(t) => v.(timers := v.timers[t := v.timers[t].(armed := false)], retryTimer := None)
  }

  /** Detaching the handler and closing; closing a closed socket does nothing. */
  function Detached(s: Socket): Socket {
    s.(attached := false, state := if s.state.CLOSED? then CLOSED else CLOSING)
  }

  function SocketDropped(v: View): View
    requires v.WellFormed()
  {
    match v.ws
    case None => v
    case Some(i) => v.(sockets := v.sockets[i := Detached(v.sockets[i])], ws := None)
  }

  function Reopened(v: View): View {
    if v.destroyed || v.ids == {} then v else
    v.(status := Connecting, sockets := v.sockets + [Socket(CONNECTING, true, None)], ws := Some(|v.sockets|))
  }

  function TornDown(v: View): View
    requires v.WellFormed()
  {
    SocketDropped(TimerCleared(v.(destroyed := true, retryDelay := FIRST_DELAY, retries := 0))).(status := Disconnected)
  }

  function Reconnected(v: View): View
    requires v.WellFormed()
  {
    var u := TimerCleared(v);
    Reopened(if u.ws.Some? && !u.sockets[u.ws.value].state.CLOSED? then SocketDropped(u) else u)
  }

  function RetryScheduled(v: View): View {
    if v.destroyed || v.ids == {} then v else
    v.(status := Connecting, timers := v.timers + [Timer(true, v.retryDelay)], retryTimer := Some(|v.timers|))
  }

  function Subscribed(v: View, id: Id): View
    requires v.WellFormed()
  {
    if id in v.ids then v else Reconnected(v.(ids := v.ids + {id}, destroyed := false))
  }

  function Unsubscribed(v: View, id: Id): View
    requires v.WellFormed()
  {
    if id !in v.ids then v else
    var u := v.(ids := v.ids - {id});
    if u.ids == {} then TornDown(u) else Reconnected(u)
  }

  // ---------------------------------------------------------------- what the browser does

  /** Sending on a socket that is not open throws. */
  function Send(v: View): View
    requires v.WellFormed()
  {
    if v.ws.Some? && v.sockets[v.ws.value].state.OPEN? then
      v.(sockets := v.sockets[v.ws.value := v.sockets[v.ws.value].(sent := Some(v.ids))])
    else v
  }

  /** A connection is established: only for a socket that is still connecting. */
  function Opened(v: View, i: nat): View
    requires v.WellFormed()
  {
    if i < |v.sockets| && v.sockets[i].state.CONNECTING? then
      Send(v.(sockets := v.sockets[i := v.sockets[i].(state := OPEN)],
              retryDelay := FIRST_DELAY, retries := 0, status := Connected))
    else v
  }

  /** The peer starts the closing handshake. */
  function CloseStarts(v: View, i: nat): View {
    if i < |v.sockets| && v.sockets[i].state.OPEN? then
      v.(sockets := v.sockets[i := v.sockets[i].(state := CLOSING)])
    else v
  }

  /** A socket is closed, for whatever reason; its handler runs if it is still attached. */
  function ClosedNow(v: View, i: nat): View {
    if i < |v.sockets| && !v.sockets[i].state.CLOSED? then
      var u := v.(sockets := v.sockets[i := v.sockets[i].(state := CLOSED)]);
      if v.sockets[i].attached then RetryScheduled(u.(status := Disconnected)) else u
    else v
  }

  function TimerFires(v: View, t: nat): View {
    if t < |v.timers| && v.timers[t].armed then
      Reopened(v.(timers := v.timers[t := v.timers[t].(armed := false)],
              retryDelay := if v.retryDelay * 2 < MAX_DELAY then v.retryDelay * 2 else MAX_DELAY,
              retries := v.retries + 1))
    else v
  }

  datatype Event =
    | CallSubscribe(id: Id)
    | CallUnsubscribe(id: Id)
    | SocketOpens(i: nat)
    | SocketCloses(i: nat)
    | SocketClosed(i: nat)
    | TimerRuns(t: nat)

  function Next(v: View, e: Event): View
    requires v.WellFormed()
  {
    match e
    case CallSubscribe(id) => Subscribed(v, id)
    case CallUnsubscribe(id) => Unsubscribed(v, id)
    case SocketOpens(i) => Opened(v, i)
    case SocketCloses(i) => CloseStarts(v, i)
    case SocketClosed(i) => ClosedNow(v, i)
    case TimerRuns(t) => TimerFires(v, t)
  }

  // ---------------------------------------------------------------- what every run keeps

  function Pow2(k: nat): nat {
    if k == 0 then 1 else 2 * Pow2(k - 1)
  }

  function Backoff(k: nat): nat {
    if FIRST_DELAY * Pow2(k) < MAX_DELAY then FIRST_DELAY * Pow2(k) else MAX_DELAY
  }

  lemma BackoffDoubles(k: nat)
    ensures Backoff(k + 1) == if Backoff(k) * 2 < MAX_DELAY then Backoff(k) * 2 else MAX_DELAY
    ensures Backoff(0) == FIRST_DELAY
  {
    assert Pow2(k + 1) == 2 * Pow2(k);
  }

  /** A socket whose close will schedule a retry. */
  predicate Live(s: Socket) {
    s.attached && !s.state.CLOSED?
  }

  /** Sockets that were replaced are detached and closing; timers that were replaced are disarmed. */
  ghost predicate Tidy(v: View) {
    && v.WellFormed()
    && (forall i: nat :: i < |v.sockets| && v.ws != Some(i) ==> !Live(v.sockets[i]))
    && (forall i: nat :: i < |v.sockets| && !v.sockets[i].attached ==>
          v.sockets[i].state.CLOSING? || v.sockets[i].state.CLOSED?)
    && (forall t: nat :: t < |v.timers| && v.timers[t].armed ==> v.retryTimer == Some(t))
    && (v.ws.Some? ==> v.sockets[v.ws.value].attached)
  }

  predicate HasSocket(v: View)
    requires v.WellFormed()
  {
    v.ws.Some? && Live(v.sockets[v.ws.value])
  }

  predicate HasTimer(v: View)
    requires v.WellFormed()
  {
    v.retryTimer.Some? && v.timers[v.retryTimer.value].armed
  }

  ghost predicate Consistent(v: View) {
    && Tidy(v)
    && (v.ids != {} ==> !v.destroyed)
    && (HasSocket(v) ==> !HasTimer(v))
    && (HasSocket(v) || HasTimer(v) <==> v.ids != {})
    && (v.status == Disconnected <==> v.ids == {})
    && (v.status == Connected <==> HasSocket(v) && !v.sockets[v.ws.value].state.CONNECTING?)
    && (v.status == Connected ==> v.sockets[v.ws.value].sent == Some(v.ids))
    && (HasTimer(v) ==> v.timers[v.retryTimer.value].delay == v.retryDelay)
    && v.retryDelay == Backoff(v.retries)
  }

  lemma ClearKeeps(v: View)
    requires Tidy(v)
    ensures Tidy(TimerCleared(v)) && !HasTimer(TimerCleared(v))
  {}

  lemma DropKeeps(v: View)
    requires Tidy(v)
    ensures Tidy(SocketDropped(v)) && !HasSocket(SocketDropped(v)) && (HasTimer(SocketDropped(v)) <==> HasTimer(v))
  {}

  lemma OpenKeeps(v: View)
    requires Tidy(v) && !HasSocket(v) && !HasTimer(v)
    requires v.ids != {} && !v.destroyed && v.retryDelay == Backoff(v.retries)
    ensures Consistent(Reopened(v))
  {}

  lemma ReconnectKeeps(v: View)
    requires Tidy(v) && v.ids != {} && !v.destroyed && v.retryDelay == Backoff(v.retries)
    ensures Consistent(Reconnected(v))
  {
    hide Backoff;
    var u := TimerCleared(v);
    ClearKeeps(v);
    DropKeeps(u);
    OpenKeeps(if u.ws.Some? && !u.sockets[u.ws.value].state.CLOSED? then SocketDropped(u) else u);
  }

  lemma TeardownKeeps(v: View)
    requires Tidy(v) && v.ids == {}
    ensures Consistent(TornDown(v))
  {
    hide Backoff;
    BackoffDoubles(0);
    var u := v.(destroyed := true, retryDelay := FIRST_DELAY, retries := 0);
    ClearKeeps(u);
    DropKeeps(TimerCleared(u));
  }

  lemma OpenedKeeps(v: View, i: nat)
    requires Consistent(v)
    ensures Consistent(Opened(v, i))
  {
    hide Backoff;
    BackoffDoubles(0);
  }

  lemma CloseStartsKeeps(v: View, i: nat)
    requires Consistent(v)
    ensures Consistent(CloseStarts(v, i))
  {
    hide Backoff;
  }

  lemma ClosedKeeps(v: View, i: nat)
    requires Consistent(v)
    ensures Consistent(ClosedNow(v, i))
  {
    hide Backoff;
  }

  lemma TimerKeeps(v: View, t: nat)
    requires Consistent(v)
    ensures Consistent(TimerFires(v, t))
  {
    hide Backoff, Reopened;
    if t < |v.timers| && v.timers[t].armed {
      BackoffDoubles(v.retries);
      OpenKeeps(v.(timers := v.timers[t := v.timers[t].(armed := false)],
                   retryDelay := Backoff(v.retries + 1), retries := v.retries + 1));
    }
  }

  lemma StepKeeps(v: View, e: Event)
    requires Consistent(v)
    ensures Consistent(Next(v, e))
  {
    hide Backoff, Reconnected, TornDown, Tidy;
    match e {
      case CallSubscribe(id) =>
        if id !in v.ids {
          TidyFields(v, v.ids + {id}, false);
          ReconnectKeeps(v.(ids := v.ids + {id}, destroyed := false));
        }
      case CallUnsubscribe(id) =>
        if id in v.ids {
          var u := v.(ids := v.ids - {id});
          TidyFields(v, u.ids, v.destroyed);
          if u.ids == {} {
            TeardownKeeps(u);
          } else {
            ReconnectKeeps(u);
          }
        }
      case SocketOpens(i) => OpenedKeeps(v, i);
      case SocketCloses(i) => CloseStartsKeeps(v, i);
      case SocketClosed(i) => ClosedKeeps(v, i);
      case TimerRuns(t) => TimerKeeps(v, t);
    }
  }

  lemma TidyFields(v: View, ids: set<Id>, destroyed: bool)
    requires Tidy(v)
    ensures Tidy(v.(ids := ids, destroyed := destroyed))
  {}

  /** A run, which keeps what every event keeps. */
  function Run(v: View, events: seq<Event>): (r: View)
    requires Consistent(v)
    ensures Consistent(r)
    decreases |events|
  {
    if events == [] then v else
    StepKeeps(v, events[0]);
    Run(Next(v, events[0]), events[1..])
  }

  lemma InitiallyConsistent()
    ensures Consistent(INITIAL)
  {
    BackoffDoubles(0);
  }

  function Start(): (v: View)
    ensures Consistent(v)
  {
    InitiallyConsistent();
    INITIAL
  }

  function LiveSockets(v: View): set<nat> {
    set i: nat | i < |v.sockets| && Live(v.sockets[i])
  }

  function ArmedTimers(v: View): set<nat> {
    set t: nat | t < |v.timers| && v.timers[t].armed
  }

  /**
   * After any sequence of calls and events: with a nonempty set of vehicles exactly one thing can
   * bring the next connection, a live socket or an armed timer, and with an empty set none can. The
   * status is `disconnected` exactly if the set is empty, and `connected` exactly if the live socket
   * is past connecting; then the gateway was last told exactly the current set on it. All other
   * sockets are closing or closed.
   */
  lemma OneSourceOfReconnection(events: seq<Event>)
    ensures var v := Run(Start(), events);
            && |LiveSockets(v)| + |ArmedTimers(v)| == (if v.ids == {} then 0 else 1)
            && (v.status == Disconnected <==> v.ids == {})
            && (v.status == Connected <==> exists i :: i in LiveSockets(v) && v.sockets[i].state != CONNECTING)
            && (v.status == Connected ==> exists i: nat :: LiveSockets(v) == {i} && v.sockets[i].sent == Some(v.ids))
            && (forall i: nat :: i < |v.sockets| && i !in LiveSockets(v) ==> v.sockets[i].state in {CLOSING, CLOSED})
  {
    hide Next, Backoff;
    var v := Run(Start(), events);
    SourcesOf(v);
  }

  lemma SourcesOf(v: View)
    requires Consistent(v)
    ensures LiveSockets(v) == if HasSocket(v) then {v.ws.value} else {}
    ensures ArmedTimers(v) == if HasTimer(v) then {v.retryTimer.value} else {}
  {}

  /**
   * The retries since the last open or teardown, counted on the events: an armed timer that runs
   * adds one, a socket that opens and a call that empties the set start over.
   */
  function Retries(events: seq<Event>): nat
    decreases |events|
  {
    if events == [] then 0 else
    var v, before := Run(Start(), events[..|events| - 1]), Retries(events[..|events| - 1]);
    match events[|events| - 1]
    case TimerRuns(t) => if t in ArmedTimers(v) then before + 1 else before
    case SocketOpens(i) => if i < |v.sockets| && v.sockets[i].state == CONNECTING then 0 else before
    case CallUnsubscribe(id) => if v.ids == {id} then 0 else before
    case _ => before
  }

  lemma NextRetries(v: View, e: Event)
    requires Consistent(v)
    ensures Next(v, e).retries == match e
      case TimerRuns(t) => if t in ArmedTimers(v) then v.retries + 1 else v.retries
      case SocketOpens(i) => if i < |v.sockets| && v.sockets[i].state == CONNECTING then 0 else v.retries
      case CallUnsubscribe(id) => if v.ids == {id} then 0 else v.retries
      case _ => v.retries
  {
    match e {
      case CallUnsubscribe(id) => assert v.ids == {id} <==> id in v.ids && v.ids - {id} == {};
      case _ =>
    }
  }

  lemma {:induction false} RunRetries(events: seq<Event>)
    ensures Run(Start(), events).retries == Retries(events)
    decreases |events|
  {
    hide Next, Consistent;
    if events != [] {
      RunRetries(events[..|events| - 1]);
      RunLast(Start(), events);
      NextRetries(Run(Start(), events[..|events| - 1]), events[|events| - 1]);
    }
  }

  /** The next retry waits min(1000 * 2^k, 30000) after k retries since the last open or teardown. */
  lemma RetriesBackOff(events: seq<Event>)
    ensures var v, k := Run(Start(), events), Retries(events);
            && v.retryDelay == (if 1000 * Pow2(k) < 30000 then 1000 * Pow2(k) else 30000)
            && forall t: nat :: t in ArmedTimers(v) ==> v.timers[t].delay == v.retryDelay
  {
    hide Next, Run;
    RunRetries(events);
    SourcesOf(Run(Start(), events));
  }

  /**
   * From every reachable state in which a socket is live: if it is closed, a timer is armed with the
   * current delay; when that runs, the delay doubles up to its bound and a new socket connects; when
   * that opens, the delay is 1000 again and the gateway is sent the current set.
   */
  lemma ConnectionRecovers(events: seq<Event>, i: nat)
    requires i in LiveSockets(Run(Start(), events))
    ensures var v := Run(Start(), events);
            var a := Next(v, SocketClosed(i));
            && ArmedTimers(a) == {|v.timers|} && a.timers[|v.timers|].delay == v.retryDelay
            && LiveSockets(a) == {} && a.status == Connecting && a.ids == v.ids
    ensures var v := Run(Start(), events);
            var b := Next(Next(v, SocketClosed(i)), TimerRuns(|v.timers|));
            && LiveSockets(b) == {|v.sockets|} && b.sockets[|v.sockets|] == Socket(CONNECTING, true, None)
            && ArmedTimers(b) == {} && b.status == Connecting && b.ids == v.ids
            && b.retryDelay == if v.retryDelay < 15000 then 2 * v.retryDelay else 30000
    ensures var v := Run(Start(), events);
            var c := Next(Next(Next(v, SocketClosed(i)), TimerRuns(|v.timers|)), SocketOpens(|v.sockets|));
            && LiveSockets(c) == {|v.sockets|} && c.sockets[|v.sockets|] == Socket(OPEN, true, Some(v.ids))
            && ArmedTimers(c) == {} && c.status == Connected && c.ids == v.ids && c.retryDelay == 1000
  {
    var v := Run(Start(), events);
    Recovers(v, i);
  }

  /** While the peer closes an open socket, the manager still counts on it and stays connected. */
  lemma PeerCloses(events: seq<Event>, i: nat)
    requires var v := Run(Start(), events); i in LiveSockets(v) && v.sockets[i].state == OPEN
    ensures var v := Run(Start(), events);
            var t := Next(v, SocketCloses(i));
            && t == v.(sockets := v.sockets[i := v.sockets[i].(state := CLOSING)])
            && LiveSockets(t) == {i} && t.status == Connected
  {
    hide Backoff;
    var v := Run(Start(), events);
    StepKeeps(v, SocketCloses(i));
    SourcesOf(v);
    SourcesOf(Next(v, SocketCloses(i)));
  }

  lemma Recovers(v: View, i: nat)
    requires Consistent(v) && i in LiveSockets(v)
    ensures var a := Next(v, SocketClosed(i));
            && Consistent(a) && ArmedTimers(a) == {|v.timers|} && a.timers[|v.timers|].delay == v.retryDelay
            && LiveSockets(a) == {} && a.status == Connecting && a.ids == v.ids
    ensures var b := Next(Next(v, SocketClosed(i)), TimerRuns(|v.timers|));
            && Consistent(b) && LiveSockets(b) == {|v.sockets|}
            && b.sockets[|v.sockets|] == Socket(CONNECTING, true, None)
            && ArmedTimers(b) == {} && b.status == Connecting && b.ids == v.ids
            && b.retryDelay == if v.retryDelay < 15000 then 2 * v.retryDelay else 30000
    ensures var c := Next(Next(Next(v, SocketClosed(i)), TimerRuns(|v.timers|)), SocketOpens(|v.sockets|));
            && LiveSockets(c) == {|v.sockets|} && c.sockets[|v.sockets|] == Socket(OPEN, true, Some(v.ids))
            && ArmedTimers(c) == {} && c.status == Connected && c.ids == v.ids && c.retryDelay == 1000
  {
    hide Backoff;
    var a := Next(v, SocketClosed(i));
    var b := Next(a, TimerRuns(|v.timers|));
    StepKeeps(v, SocketClosed(i));
    ClosedArms(v, i);
    StepKeeps(a, TimerRuns(|v.timers|));
    TimerConnects(a, |v.timers|);
    StepKeeps(b, SocketOpens(|v.sockets|));
    OpenSends(b, |v.sockets|);
  }

  lemma ClosedArms(v: View, i: nat)
    requires Consistent(v) && i in LiveSockets(v) && Consistent(ClosedNow(v, i))
    ensures var a := ClosedNow(v, i);
            && ArmedTimers(a) == {|v.timers|} && a.timers[|v.timers|].delay == v.retryDelay == a.retryDelay
            && LiveSockets(a) == {} && a.status == Connecting && a.ids == v.ids && |a.sockets| == |v.sockets|
  {
    SourcesOf(v);
    SourcesOf(ClosedNow(v, i));
  }

  lemma TimerConnects(v: View, t: nat)
    requires Consistent(v) && t in ArmedTimers(v) && Consistent(TimerFires(v, t))
    ensures var b := TimerFires(v, t);
            && LiveSockets(b) == {|v.sockets|} && b.sockets[|v.sockets|] == Socket(CONNECTING, true, None)
            && ArmedTimers(b) == {} && b.status == Connecting && b.ids == v.ids
            && b.retryDelay == if v.retryDelay < 15000 then 2 * v.retryDelay else 30000
  {
    SourcesOf(v);
    SourcesOf(TimerFires(v, t));
  }

  lemma OpenSends(v: View, i: nat)
    requires Consistent(v) && i in LiveSockets(v) && v.sockets[i].state == CONNECTING && Consistent(Opened(v, i))
    ensures var c := Opened(v, i);
            && LiveSockets(c) == {i} && c.sockets[i] == v.sockets[i].(state := OPEN, sent := Some(v.ids))
            && ArmedTimers(c) == {} && c.status == Connected && c.ids == v.ids && c.retryDelay == 1000
  {
    SourcesOf(v);
    SourcesOf(Opened(v, i));
  }

  /**
   * What the calls do, after any history: a known vehicle subscribed, or an unknown one unsubscribed,
   * changes nothing; a call that changes the set to a nonempty one leaves a new connecting socket as
   * the only source of the next connection; one that empties it leaves none and resets the delay.
   */
  lemma CallsReconnect(events: seq<Event>, id: Id)
    ensures var v := Run(Start(), events);
            var t := Next(v, CallSubscribe(id));
            if id in v.ids then t == v
            else t.ids == v.ids + {id} && Reconnecting(v, t)
    ensures var v := Run(Start(), events);
            var t := Next(v, CallUnsubscribe(id));
            if id !in v.ids then t == v
            else if v.ids == {id} then
              && t.ids == {} && LiveSockets(t) == {} && ArmedTimers(t) == {}
              && t.status == Disconnected && t.retryDelay == 1000
            else t.ids == v.ids - {id} && Reconnecting(v, t)
  {
    var v := Run(Start(), events);
    SubscribeConnects(v, id);
    UnsubscribeConnects(v, id);
  }

  /** A new socket is the only source of the next connection. */
  ghost predicate Reconnecting(v: View, t: View) {
    && LiveSockets(t) == {|v.sockets|} && |t.sockets| == |v.sockets| + 1
    && t.sockets[|v.sockets|] == Socket(CONNECTING, true, None)
    && ArmedTimers(t) == {} && t.status == Connecting && t.retryDelay == v.retryDelay
  }

  lemma ReconnectedConnects(v: View)
    requires v.WellFormed() && v.ids != {} && !v.destroyed && Consistent(Reconnected(v))
    ensures Reconnecting(v, Reconnected(v)) && Reconnected(v).ids == v.ids
  {
    SourcesOf(Reconnected(v));
  }

  lemma SubscribeConnects(v: View, id: Id)
    requires Consistent(v)
    ensures var t := Subscribed(v, id);
            if id in v.ids then t == v
            else t.ids == v.ids + {id} && Reconnecting(v, t)
  {
    hide Reconnected, Reconnecting, Backoff;
    if id !in v.ids {
      var u := v.(ids := v.ids + {id}, destroyed := false);
      StepKeeps(v, CallSubscribe(id));
      ReconnectedConnects(u);
      SameReconnecting(v, u, Reconnected(u));
    }
  }

  lemma UnsubscribeConnects(v: View, id: Id)
    requires Consistent(v)
    ensures var t := Unsubscribed(v, id);
            if id !in v.ids then t == v
            else if v.ids == {id} then
              && t.ids == {} && LiveSockets(t) == {} && ArmedTimers(t) == {}
              && t.status == Disconnected && t.retryDelay == 1000
            else t.ids == v.ids - {id} && Reconnecting(v, t)
  {
    hide Reconnected, Reconnecting;
    if id in v.ids {
      var u := v.(ids := v.ids - {id});
      StepKeeps(v, CallUnsubscribe(id));
      assert v.ids == {id} <==> u.ids == {};
      if u.ids == {} {
        SourcesOf(TornDown(u));
      } else {
        ReconnectedConnects(u);
        SameReconnecting(v, u, Reconnected(u));
      }
    }
  }

  lemma SameReconnecting(v: View, u: View, t: View)
    requires Reconnecting(u, t) && u.sockets == v.sockets && u.retryDelay == v.retryDelay
    ensures Reconnecting(v, t)
  {}

  lemma SubscribedIds(v: View, id: Id)
    requires v.WellFormed()
    ensures Subscribed(v, id).ids == v.ids + {id} && Subscribed(v, id).WellFormed()
  {}

  lemma UnsubscribedIds(v: View, id: Id)
    requires v.WellFormed()
    ensures Unsubscribed(v, id).ids == v.ids - {id}
  {}

  lemma NextIds(v: View, e: Event)
    requires v.WellFormed()
    ensures Next(v, e).ids == match e
      case CallSubscribe(id) => v.ids + {id}
      case CallUnsubscribe(id) => v.ids - {id}
      case _ => v.ids
  {
    hide Subscribed, Unsubscribed;
    match e {
      case CallSubscribe(id) => SubscribedIds(v, id);
      case CallUnsubscribe(id) => UnsubscribedIds(v, id);
      case _ =>
    }
  }

  /** The last call about `id` was a subscription. */
  function LastSubscribed(events: seq<Event>, id: Id): bool {
    if events == [] then false else
    var e := events[|events| - 1];
    if e == CallSubscribe(id) then true
    else if e == CallUnsubscribe(id) then false
    else LastSubscribed(events[..|events| - 1], id)
  }

  lemma {:induction false} RunLast(v: View, events: seq<Event>)
    requires Consistent(v) && events != []
    ensures var m := Run(v, events[..|events| - 1]);
            Consistent(m) && Run(v, events) == Next(m, events[|events| - 1])
    decreases |events|
  {
    hide Next;
    var init := events[..|events| - 1];
    StepKeeps(v, events[0]);
    if |events| == 1 {
      assert init == [] && |events[1..]| == 0;
    } else {
      assert events[1..][..|events| - 2] == init[1..];
      RunLast(Next(v, events[0]), events[1..]);
    }
  }

  /** After every run a vehicle is in the set if and only if the last call about it was a subscription. */
  lemma {:induction false} LastCallDecides(events: seq<Event>, id: Id)
    ensures id in Run(Start(), events).ids <==> LastSubscribed(events, id)
    decreases |events|
  {
    hide Next;
    if events != [] {
      var init := events[..|events| - 1];
      LastCallDecides(init, id);
      RunLast(Start(), events);
      NextIds(Run(Start(), init), events[|events| - 1]);
    }
  }

  /** Subscriptions are a set: after any history, one unsubscribe ends them all. */
  lemma NotReferenceCounted(events: seq<Event>, id: Id)
    ensures id !in Run(Start(), events + [CallUnsubscribe(id)]).ids
  {
    LastCallDecides(events + [CallUnsubscribe(id)], id);
  }

  /** The count the comments speak of: subscriptions not yet undone. */
  function References(events: seq<Event>, id: Id): nat {
    if events == [] then 0 else
    var before, e := References(events[..|events| - 1], id), events[|events| - 1];
    if e == CallSubscribe(id) then before + 1
    else if e == CallUnsubscribe(id) && before > 0 then before - 1
    else before
  }

  /** No unsubscribe of `id` comes while more than one subscription of it is outstanding. */
  ghost predicate NeverNested(events: seq<Event>, id: Id) {
    forall k :: 0 <= k < |events| && events[k] == CallUnsubscribe(id) ==> References(events[..k], id) <= 1
  }

  /** The set agrees with the count at every point of the run. */
  ghost predicate Counted(events: seq<Event>, id: Id) {
    forall k :: 0 <= k <= |events| ==> (id in Run(Start(), events[..k]).ids <==> References(events[..k], id) > 0)
  }

  lemma {:induction false} NeverNestedCounted(events: seq<Event>, id: Id)
    requires NeverNested(events, id)
    ensures LastSubscribed(events, id) <==> References(events, id) > 0
    ensures Counted(events, id)
    decreases |events|
  {
    hide Consistent, Run, Next;
    LastCallDecides(events, id);
    assert events[..|events|] == events;
    if events != [] {
      var init := events[..|events| - 1];
      assert forall k :: 0 <= k <= |init| ==> init[..k] == events[..k];
      NeverNestedEarlier(events, id);
      NeverNestedCounted(init, id);
    }
  }

  lemma NeverNestedEarlier(events: seq<Event>, id: Id)
    requires NeverNested(events, id) && events != []
    ensures NeverNested(events[..|events| - 1], id)
    ensures events[|events| - 1] == CallUnsubscribe(id) ==> References(events[..|events| - 1], id) <= 1
  {
    var init := events[..|events| - 1];
    assert forall k :: 0 <= k <= |init| ==> init[..k] == events[..k];
  }

  /**
   * The documented reference counting is what the manager does, at every point of a run, if and
   * only if no vehicle is unsubscribed while more than one subscription of it is outstanding.
   */
  lemma CountedUnlessNested(events: seq<Event>, id: Id)
    ensures Counted(events, id) <==> NeverNested(events, id)
  {
    if NeverNested(events, id) {
      NeverNestedCounted(events, id);
    }
    if Counted(events, id) {
      forall k | 0 <= k < |events| && events[k] == CallUnsubscribe(id)
        ensures References(events[..k], id) <= 1
      {
        assert events[..k + 1][..k] == events[..k] && events[..k + 1][k] == CallUnsubscribe(id);
        assert id in Run(Start(), events[..k + 1]).ids <==> References(events[..k + 1], id) > 0;
        LastCallDecides(events[..k + 1], id);
      }
    }
  }

  // ---------------------------------------------------------------- the manager

  class WsManager {
    var ws: Option<nat>
    var ids: set<Id>
    var retryDelay: nat
    var retryTimer: Option<nat>
    var destroyed: bool
    var status: Status
    var sockets: seq<Socket>
    var timers: seq<Timer>
    ghost var retries: nat

    ghost function V(): View
      reads this
    {
      View(ws, ids, retryDelay, retryTimer, destroyed, status, sockets, timers, retries)
    }

    constructor ()
      ensures V() == INITIAL
    {
      ws, ids, retryDelay, retryTimer, destroyed := None, {}, FIRST_DELAY, None, false;
      status, sockets, timers, retries := Disconnected, [], [], 0;
    }

    method Subscribe(id: Id)
      requires V().WellFormed()
      modifies this
      ensures V() == Subscribed(old(V()), id)
    {
      if id in ids {
        return;
      }
      ids := ids + {id};
      destroyed := false;
      Reconnect();
    }

    method Unsubscribe(id: Id)
      requires V().WellFormed()
      modifies this
      ensures V() == Unsubscribed(old(V()), id)
    {
      if id !in ids {
        return;
      }
      ids := ids - {id};
      if ids == {} {
        Teardown();
      } else {
        Reconnect();
      }
    }

    method Teardown()
      requires V().WellFormed()
      modifies this
      ensures V() == TornDown(old(V()))
    {
      destroyed := true;
      retryDelay := FIRST_DELAY;
      retries := 0;
      ClearTimer();
      if ws.Some? {
        DropSocket();
      }
      status := Disconnected;
    }

    method ClearTimer()
      requires V().WellFormed()
      modifies this`timers, this`retryTimer
      ensures V() == TimerCleared(old(V()))
    {
      if retryTimer.Some? {
        timers := timers[retryTimer.value := timers[retryTimer.value].(armed := false)];
        retryTimer := None;
      }
    }

    method DropSocket()
      requires V().WellFormed() && ws.Some?
      modifies this`sockets, this`ws
      ensures V() == SocketDropped(old(V()))
    {
      sockets := sockets[ws.value := sockets[ws.value].(attached := false)];
      if !sockets[ws.value].state.CLOSED? {
        sockets := sockets[ws.value := sockets[ws.value].(state := CLOSING)];
      }
      ws := None;
    }

    method Reconnect()
      requires V().WellFormed()
      modifies this
      ensures V() == Reconnected(old(V()))
    {
      ClearTimer();
      if ws.Some? && !sockets[ws.value].state.CLOSED? {
        DropSocket();
      }
      Open();
    }

    method Open()
      modifies this`status, this`sockets, this`ws
      ensures V() == Reopened(old(V()))
    {
      if destroyed || ids == {} {
        return;
      }
      status := Connecting;
      ws := Some(|sockets|);
      sockets := sockets + [Socket(CONNECTING, true, None)];
    }

    method ScheduleReconnect()
      modifies this`status, this`timers, this`retryTimer
      ensures V() == RetryScheduled(old(V()))
    {
      if destroyed || ids == {} {
        return;
      }
      status := Connecting;
      retryTimer := Some(|timers|);
      timers := timers + [Timer(true, retryDelay)];
    }

    /** Socket `i` is established and its onopen handler runs. */
    method OnOpen(i: nat)
      requires V().WellFormed() && i < |sockets| && sockets[i].state.CONNECTING?
      modifies this
      ensures V() == Opened(old(V()), i)
    {
      sockets := sockets[i := sockets[i].(state := OPEN)];
      retryDelay := FIRST_DELAY;
      retries := 0;
      status := Connected;
      if ws.Some? && sockets[ws.value].state.OPEN? {
        sockets := sockets[ws.value := sockets[ws.value].(sent := Some(ids))];
      }
    }

    /** Socket `i` is closed and its onclose handler, if it still has one, runs. */
    method OnClose(i: nat)
      requires i < |sockets| && !sockets[i].state.CLOSED?
      modifies this
      ensures V() == ClosedNow(old(V()), i)
    {
      sockets := sockets[i := sockets[i].(state := CLOSED)];
      if sockets[i].attached {
        status := Disconnected;
        ScheduleReconnect();
      }
    }

    /** Timer `t` expires. */
    method OnTimer(t: nat)
      requires t < |timers| && timers[t].armed
      modifies this
      ensures V() == TimerFires(old(V()), t)
    {
      timers := timers[t := timers[t].(armed := false)];
      retryDelay := if retryDelay * 2 < MAX_DELAY then retryDelay * 2 else MAX_DELAY;
      retries := retries + 1;
      Open();
    }
  }
}
