/**
 * The waiter table of the command service's REST side: acknowledgements arrive, stream requests
 * register a channel and wait on it, entries expire, clients disconnect.
 *
 * Every step below is one region the service runs without interruption. The listener keeps the
 * lock while it sends to the waiting channels one by one, and receivers, which need no lock, run
 * between those sends.
 */
module RestAcks {
  import opened Bytes

  type Id = seq<Byte>

  datatype Entry = Entry(commandId: Id, status: int, message: seq<Byte>, receivedAt: int)

  datatype Phase = Waiting | Leaving(got: Option<Entry>) | Done(got: Option<Entry>)

  /** One stream request with its channel, which holds at most one entry; `sent` counts the sends that went in. */
  datatype Handler = Handler(id: Id, phase: Phase, buffer: Option<Entry>, sent: nat)

  /** `next` is the listener's position in the list it walks. */
  datatype Lock = Free | Notifying(entry: Entry, next: nat)

  /** `dropped` counts the sends that found their channel full. */
  datatype State = State(
    acks: map<Id, Entry>, waiters: map<Id, seq<nat>>, handlers: seq<Handler>, lock: Lock, dropped: nat)

  datatype Step =
    | AckArrives(entry: Entry)
    | Notify
    | AckDone
    | Expire(cutoff: int)
    | Request(id: Id)
    | Receive(h: nat)
    | Disconnect(h: nat)
    | Cleanup(h: nat)

  const INITIAL := State(map[], map[], [], Free, 0)

  /** Looking up a missing key gives the empty list. */
  function List(waiters: map<Id, seq<nat>>, id: Id): seq<nat> {
    if id in waiters then waiters[id] else []
  }

  function Without(list: seq<nat>, h: nat): (r: seq<nat>)
    ensures forall x :: x in r ==> x in list
  {
    if list == [] then [] else if list[0] == h then list[1..] else [list[0]] + Without(list[1..], h)
  }

  /** A send that gives up on a full channel. */
  function SendTo(s: State, h: nat, e: Entry): State
    requires h < |s.handlers|
  {
    var x := s.handlers[h];
    if x.buffer.Some? then s.(dropped := s.dropped + 1)
    else s.(handlers := s.handlers[h := x.(buffer := Some(e), sent := x.sent + 1)])
  }

  function NotifyOne(s: State): State {
    if s.lock.Free? then s else
    var list := List(s.waiters, s.lock.entry.commandId);
    if s.lock.next < |list| && list[s.lock.next] < |s.handlers| then
      SendTo(s, list[s.lock.next], s.lock.entry).(lock := s.lock.(next := s.lock.next + 1))
    else s
  }

  function Release(s: State): State {
    if s.lock.Free? || s.lock.next < |List(s.waiters, s.lock.entry.commandId)| then s
    else s.(waiters := s.waiters - {s.lock.entry.commandId}, lock := Free)
  }

  function Register(s: State, id: Id): State {
    if id in s.acks then
      s.(handlers := s.handlers + [Handler(id, Done(Some(s.acks[id])), None, 0)])
    else
      s.(handlers := s.handlers + [Handler(id, Waiting, None, 0)],
         waiters := s.waiters[id := List(s.waiters, id) + [|s.handlers|]])
  }

  function Leave(s: State, h: nat): State
    requires h < |s.handlers| && s.handlers[h].phase.Leaving?
  {
    var x := s.handlers[h];
    s.(handlers := s.handlers[h := x.(phase := Done(x.phase.got))],
       waiters := if h in List(s.waiters, x.id) then s.waiters[x.id := Without(s.waiters[x.id], h)] else s.waiters)
  }

  /** One step; a step whose guard does not hold (a locked lock, an empty channel) waits and changes nothing. */
  function Next(s: State, step: Step): State {
    match step
    case AckArrives(e) => if s.lock.Free? then s.(acks := s.acks[e.commandId := e], lock := Notifying(e, 0)) else s
    case Notify => NotifyOne(s)
    case AckDone => Release(s)
    case Expire(cutoff) =>
      if s.lock.Free? then s.(acks := map id | id in s.acks && !(s.acks[id].receivedAt < cutoff) :: s.acks[id]) else s
    case Request(id) => if s.lock.Free? then Register(s, id) else s
    case Receive(h) =>
      if h < |s.handlers| && s.handlers[h].phase.Waiting? && s.handlers[h].buffer.Some? then
        s.(handlers := s.handlers[h := s.handlers[h].(phase := Leaving(s.handlers[h].buffer), buffer := None)])
      else s
    case Disconnect(h) =>
      if h < |s.handlers| && s.handlers[h].phase.Waiting? then
        s.(handlers := s.handlers[h := s.handlers[h].(phase := Leaving(None))])
      else s
    case Cleanup(h) =>
      if s.lock.Free? && h < |s.handlers| && s.handlers[h].phase.Leaving? then Leave(s, h) else s
  }

  function Run(s: State, steps: seq<Step>): State
    decreases |steps|
  {
    if steps == [] then s else Run(Next(s, steps[0]), steps[1..])
  }

  // ---------------------------------------------------------------- what every run keeps

  ghost predicate Distinct(list: seq<nat>) {
    forall i, j :: 0 <= i < j < |list| ==> list[i] != list[j]
  }

  /** How many of the waiters of `id` the listener has already sent to. */
  function Progress(lock: Lock, id: Id): nat {
    if lock.Notifying? && lock.entry.commandId == id then lock.next else 0
  }

  ghost predicate ListOk(s: State, id: Id)
    requires id in s.waiters
  {
    && Distinct(s.waiters[id])
    && forall i :: 0 <= i < |s.waiters[id]| ==>
         && s.waiters[id][i] < |s.handlers|
         && s.handlers[s.waiters[id][i]].id == id
         && !s.handlers[s.waiters[id][i]].phase.Done?
         && s.handlers[s.waiters[id][i]].sent == (if i < Progress(s.lock, id) then 1 else 0)
  }

  ghost predicate Carries(got: Option<Entry>, id: Id) {
    got.Some? ==> got.value.commandId == id
  }

  ghost predicate HandlerOk(x: Handler, h: nat, waiters: map<Id, seq<nat>>) {
    && x.sent <= 1
    && Carries(x.buffer, x.id) && (x.buffer.Some? ==> x.sent == 1)
    && (x.phase.Waiting? && x.sent == 1 ==> x.buffer.Some?)
    && (!x.phase.Waiting? ==> Carries(x.phase.got, x.id))
    && (x.phase.Leaving? && x.phase.got.Some? ==> x.sent == 1)
    && (!x.phase.Done? && x.sent == 0 ==> h in List(waiters, x.id))
  }

  /**
   * No identifier has both an entry and waiters, except the one being announced; every waiting
   * channel stands in its own list exactly once and is empty until its turn.
   */
  ghost predicate Consistent(s: State) {
    && s.dropped == 0
    && (forall id :: id in s.acks ==> s.acks[id].commandId == id)
    && (forall id :: id in s.acks && id in s.waiters ==> s.lock.Notifying? && s.lock.entry.commandId == id)
    && (s.lock.Notifying? ==> s.lock.next <= |List(s.waiters, s.lock.entry.commandId)|)
    && (forall id :: id in s.waiters ==> ListOk(s, id))
    && (forall h: nat :: h < |s.handlers| ==> HandlerOk(s.handlers[h], h, s.waiters))
  }

  lemma {:induction false} WithoutKeeps(list: seq<nat>, h: nat, x: nat)
    requires x in list && x != h
    ensures x in Without(list, h)
  {
    if list[0] != h && list[0] != x {
      WithoutKeeps(list[1..], h, x);
    }
  }

  lemma DistinctTail(list: seq<nat>)
    requires Distinct(list) && list != []
    ensures Distinct(list[1..]) && list[0] !in list[1..]
  {
    assert forall i :: 0 <= i < |list[1..]| ==> list[1..][i] == list[i + 1];
  }

  lemma {:induction false} WithoutRemoves(list: seq<nat>, h: nat)
    requires Distinct(list)
    ensures Distinct(Without(list, h)) && h !in Without(list, h)
    ensures forall x :: x in list && x != h ==> x in Without(list, h)
  {
    forall x | x in list && x != h
      ensures x in Without(list, h)
    {
      WithoutKeeps(list, h, x);
    }
    if list != [] {
      DistinctTail(list);
      WithoutRemoves(list[1..], h);
    }
  }

  lemma {:induction false} WithoutAbsent(list: seq<nat>, h: nat)
    requires h !in list
    ensures Without(list, h) == list
  {
    if list != [] {
      WithoutAbsent(list[1..], h);
      assert [list[0]] + list[1..] == list;
    }
  }

  /** A request that leaves is taken out of the list of its identifier, and stood in no other one. */
  lemma LeftLists(s: State, h: nat)
    requires Consistent(s) && s.lock.Free? && h < |s.handlers| && s.handlers[h].phase.Leaving?
    ensures var t, own := Leave(s, h), s.handlers[h].id;
            forall id :: List(t.waiters, id) == if id == own then Without(List(s.waiters, id), h)
                                                else List(s.waiters, id)
    ensures forall id :: h !in List(Leave(s, h).waiters, id)
  {
    hide HandlerOk;
    var t, own := Leave(s, h), s.handlers[h].id;
    if h !in List(s.waiters, own) {
      WithoutAbsent(List(s.waiters, own), h);
    }
    forall id
      ensures h !in List(t.waiters, id)
    {
      if id in s.waiters {
        assert ListOk(s, id);
        WithoutRemoves(s.waiters[id], h);
      }
    }
  }

  lemma NotifyKeeps(s: State)
    requires Consistent(s)
    ensures Consistent(NotifyOne(s))
  {
    if s.lock.Notifying? {
      var id := s.lock.entry.commandId;
      var list := List(s.waiters, id);
      if s.lock.next < |list| {
        var h := list[s.lock.next];
        assert ListOk(s, id) && HandlerOk(s.handlers[h], h, s.waiters);
        assert s.handlers[h].sent == 0;
        var t := NotifyOne(s);
        forall other | other in t.waiters
          ensures ListOk(t, other)
        {
          assert ListOk(s, other);
        }
      }
    }
  }

  lemma ReleaseKeeps(s: State)
    requires Consistent(s)
    ensures Consistent(Release(s))
  {
    var t := Release(s);
    if t != s {
      var id := s.lock.entry.commandId;
      forall other | other in t.waiters
        ensures ListOk(t, other)
      {
        assert ListOk(s, other);
      }
      forall h: nat | h < |t.handlers|
        ensures HandlerOk(t.handlers[h], h, t.waiters)
      {
        var x := s.handlers[h];
        assert HandlerOk(x, h, s.waiters);
        if x.id == id && h in List(s.waiters, id) {
          assert ListOk(s, id);
        }
      }
    }
  }

  lemma RegisterList(s: State, id: Id, other: Id)
    requires s.lock.Free? && (other in s.waiters ==> ListOk(s, other))
    ensures other in Register(s, id).waiters ==> ListOk(Register(s, id), other)
  {}

  lemma RegisterKeeps(s: State, id: Id)
    requires Consistent(s) && s.lock.Free?
    ensures Consistent(Register(s, id))
  {
    hide ListOk;
    var t := Register(s, id);
    forall h: nat | h < |t.handlers|
      ensures HandlerOk(t.handlers[h], h, t.waiters)
    {
      if h < |s.handlers| {
        assert HandlerOk(s.handlers[h], h, s.waiters);
      }
    }
    forall other | other in t.waiters
      ensures ListOk(t, other)
    {
      RegisterList(s, id, other);
    }
  }

  lemma LeaveKeeps(s: State, h: nat)
    requires Consistent(s) && s.lock.Free? && h < |s.handlers| && s.handlers[h].phase.Leaving?
    ensures Consistent(Leave(s, h))
  {
    var t := Leave(s, h);
    var id := s.handlers[h].id;
    if h in List(s.waiters, id) {
      assert ListOk(s, id);
      WithoutRemoves(s.waiters[id], h);
    }
    forall other | other in t.waiters
      ensures ListOk(t, other)
    {
      assert ListOk(s, other);
      if other == id {
        var was, now := s.waiters[id], t.waiters[id];
        forall i | 0 <= i < |now|
          ensures now[i] < |t.handlers| && t.handlers[now[i]].id == id
          ensures !t.handlers[now[i]].phase.Done? && t.handlers[now[i]].sent == 0
        {
          assert now[i] in was && now[i] != h;
        }
      }
    }
    forall k: nat | k < |t.handlers|
      ensures HandlerOk(t.handlers[k], k, t.waiters)
    {
      assert HandlerOk(s.handlers[k], k, s.waiters);
    }
  }

  lemma TouchKeeps(s: State, h: nat, x: Handler)
    requires Consistent(s) && h < |s.handlers|
    requires x.id == s.handlers[h].id && x.sent == s.handlers[h].sent && !x.phase.Done? && !s.handlers[h].phase.Done?
    requires HandlerOk(x, h, s.waiters)
    ensures Consistent(s.(handlers := s.handlers[h := x]))
  {
    var t := s.(handlers := s.handlers[h := x]);
    forall id | id in t.waiters
      ensures ListOk(t, id)
    {
      assert ListOk(s, id);
    }
  }

  lemma StepKeeps(s: State, step: Step)
    requires Consistent(s)
    ensures Consistent(Next(s, step))
  {
    hide HandlerOk;
    var t := Next(s, step);
    match step {
      case Notify => NotifyKeeps(s);
      case AckDone => ReleaseKeeps(s);
      case Request(id) => if s.lock.Free? { RegisterKeeps(s, id); }
      case Receive(h) => if t != s { ReceiveOk(s, h); TouchKeeps(s, h, t.handlers[h]); }
      case Disconnect(h) => if t != s { ReceiveOk(s, h); TouchKeeps(s, h, t.handlers[h]); }
      case Cleanup(h) => if t != s { LeaveKeeps(s, h); }
      case _ =>
        forall id | id in t.waiters ensures ListOk(t, id) {
          assert ListOk(s, id);
        }
    }
  }

  lemma ReceiveOk(s: State, h: nat)
    requires Consistent(s) && h < |s.handlers| && s.handlers[h].phase.Waiting?
    ensures var x := s.handlers[h];
            && HandlerOk(x.(phase := Leaving(None)), h, s.waiters)
            && (x.buffer.Some? ==> HandlerOk(x.(phase := Leaving(x.buffer), buffer := None), h, s.waiters))
  {
    assert HandlerOk(s.handlers[h], h, s.waiters);
  }

  lemma {:induction false} RunFrom(s: State, steps: seq<Step>)
    requires Consistent(s)
    ensures Consistent(Run(s, steps))
    decreases |steps|
  {
    hide Consistent, Next;
    if steps != [] {
      StepKeeps(s, steps[0]);
      RunFrom(Next(s, steps[0]), steps[1..]);
    }
  }

  /**
   * Over every run: an identifier with an entry has no waiters once the listener is done; no channel
   * is sent to twice, so no send is ever dropped; whatever a request is served carries its identifier.
   */
  lemma RunConsistent(steps: seq<Step>)
    ensures var s := Run(INITIAL, steps);
            && Consistent(s) && s.dropped == 0
            && (s.lock.Free? ==> s.acks.Keys !! s.waiters.Keys)
            && forall h :: 0 <= h < |s.handlers| ==>
                 && s.handlers[h].sent <= 1
                 && (s.handlers[h].phase.Done? ==> Carries(s.handlers[h].phase.got, s.handlers[h].id))
  {
    RunFrom(INITIAL, steps);
    var s := Run(INITIAL, steps);
    forall h | 0 <= h < |s.handlers|
      ensures s.handlers[h].sent <= 1
      ensures s.handlers[h].phase.Done? ==> Carries(s.handlers[h].phase.got, s.handlers[h].id)
    {
      assert HandlerOk(s.handlers[h], h, s.waiters);
    }
  }

  /**
   * A request that waits with an empty channel has missed nothing: no entry for it is held, and the
   * next one will find it.
   */
  lemma WaitingMissedNothing(steps: seq<Step>, h: nat)
    requires var s := Run(INITIAL, steps);
             && s.lock.Free? && h < |s.handlers| && s.handlers[h].phase.Waiting? && s.handlers[h].buffer.None?
    ensures var s := Run(INITIAL, steps);
            && s.handlers[h].id !in s.acks
            && s.handlers[h].id in s.waiters && multiset(s.waiters[s.handlers[h].id])[h] == 1
  {
    RunFrom(INITIAL, steps);
    var s := Run(INITIAL, steps);
    assert HandlerOk(s.handlers[h], h, s.waiters);
    assert ListOk(s, s.handlers[h].id);
    DistinctOnce(s.waiters[s.handlers[h].id], h);
  }

  lemma {:induction false} DistinctOnce(list: seq<nat>, h: nat)
    requires Distinct(list)
    ensures multiset(list)[h] == if h in list then 1 else 0
  {
    if list != [] {
      assert list == [list[0]] + list[1..];
      assert Distinct(list[1..]) by {
        assert forall i :: 0 <= i < |list[1..]| ==> list[1..][i] == list[i + 1];
      }
      DistinctOnce(list[1..], h);
      assert list[0] !in list[1..];
    }
  }

  // ---------------------------------------------------------------- no lost wake-up

  /** The request holds or has been served `e`, or the listener announces `e` and is on its way to it. */
  ghost predicate Told(s: State, h: nat, e: Entry) {
    && h < |s.handlers| && s.handlers[h].id == e.commandId
    && var x := s.handlers[h];
       if x.phase.Waiting? && x.sent == 0 then s.lock.Notifying? && s.lock.entry == e
       else if x.phase.Waiting? then x.buffer == Some(e)
       else x.phase.got == Some(e)
  }

  lemma ToldKept(s: State, step: Step, h: nat, e: Entry)
    requires Consistent(s) && Told(s, h, e) && step != Disconnect(h)
    ensures Told(Next(s, step), h, e)
  {
    assert HandlerOk(s.handlers[h], h, s.waiters);
    if s.lock.Notifying? && s.lock.next < |List(s.waiters, s.lock.entry.commandId)| {
      var other := s.lock.entry.commandId;
      assert ListOk(s, other);
      var k := s.waiters[other][s.lock.next];
      assert HandlerOk(s.handlers[k], k, s.waiters);
    } else if s.lock.Notifying? && e.commandId in s.waiters {
      assert ListOk(s, e.commandId);
    }
  }

  lemma {:induction false} ToldKeptRun(s: State, steps: seq<Step>, h: nat, e: Entry)
    requires Consistent(s) && Told(s, h, e) && Disconnect(h) !in steps
    ensures Told(Run(s, steps), h, e)
    decreases |steps|
  {
    hide Consistent, Next, Told;
    if steps != [] {
      assert steps[0] in steps;
      ToldKept(s, steps[0], h, e);
      StepKeeps(s, steps[0]);
      ToldKeptRun(Next(s, steps[0]), steps[1..], h, e);
    }
  }

  /**
   * No lost wake-up. Take any run, any request still waiting after it, and an acknowledgement for
   * its identifier. However the run goes on, once the listener has released the lock the request
   * holds or has been served exactly this acknowledgement, or the earlier one that its channel held
   * already, unless its client disconnected.
   */
  lemma NoLostWakeUp(before: seq<Step>, h: nat, e: Entry, after: seq<Step>)
    requires var s := Run(INITIAL, before);
             && s.lock.Free? && h < |s.handlers| && s.handlers[h].phase.Waiting? && s.handlers[h].id == e.commandId
    requires Run(Next(Run(INITIAL, before), AckArrives(e)), after).lock.Free?
    requires Disconnect(h) !in after
    ensures var s, t := Run(INITIAL, before), Run(Next(Run(INITIAL, before), AckArrives(e)), after);
            && h < |t.handlers|
            && var x := t.handlers[h];
               (if x.phase.Waiting? then x.buffer else x.phase.got)
                 == if s.handlers[h].buffer.Some? then s.handlers[h].buffer else Some(e)
  {
    RunFrom(INITIAL, before);
    var s := Run(INITIAL, before);
    var u := Next(s, AckArrives(e));
    var heard := if s.handlers[h].buffer.Some? then s.handlers[h].buffer.value else e;
    StepKeeps(s, AckArrives(e));
    assert HandlerOk(s.handlers[h], h, s.waiters);
    ToldKeptRun(u, after, h, heard);
    RunFrom(u, after);
    var t := Run(u, after);
    assert HandlerOk(t.handlers[h], h, t.waiters);
  }

  lemma RunOne(s: State, a: Step)
    ensures Run(s, [a]) == Next(s, a)
  {
    hide Next;
    assert Run(Next(s, a), [a][1..]) == Next(s, a);
  }

  lemma RunPair(s: State, a: Step, b: Step)
    ensures Run(s, [a, b]) == Next(Next(s, a), b)
  {
    hide Next;
    assert [a, b][1..] == [b];
    RunOne(Next(s, a), b);
  }

  /**
   * A waiting request is served what its channel holds, and one whose client disconnects nothing;
   * either way it then stands in no list.
   */
  lemma WaitingEnds(before: seq<Step>, h: nat)
    requires var s := Run(INITIAL, before); s.lock.Free? && h < |s.handlers| && s.handlers[h].phase.Waiting?
    ensures var s := Run(INITIAL, before);
            var t := Run(s, [Receive(h), Cleanup(h)]);
            s.handlers[h].buffer.Some? ==>
              && t.handlers == s.handlers[h := s.handlers[h].(phase := Done(s.handlers[h].buffer), buffer := None)]
              && t.acks == s.acks && forall id :: h !in List(t.waiters, id)
    ensures var s := Run(INITIAL, before);
            var t := Run(s, [Disconnect(h), Cleanup(h)]);
            && t.handlers == s.handlers[h := s.handlers[h].(phase := Done(None))]
            && t.acks == s.acks && forall id :: h !in List(t.waiters, id)
  {
    RunFrom(INITIAL, before);
    var s := Run(INITIAL, before);
    RunPair(s, Receive(h), Cleanup(h));
    RunPair(s, Disconnect(h), Cleanup(h));
    if s.handlers[h].buffer.Some? {
      LeavesLists(s, Receive(h), h);
    }
    LeavesLists(s, Disconnect(h), h);
  }

  lemma LeavesLists(s: State, step: Step, h: nat)
    requires Consistent(s) && s.lock.Free? && h < |s.handlers| && s.handlers[h].phase.Waiting?
    requires step == Disconnect(h) || (step == Receive(h) && s.handlers[h].buffer.Some?)
    ensures var t := Next(Next(s, step), Cleanup(h));
            && t.handlers == s.handlers[h := s.handlers[h].(
                 phase := Done(if step.Receive? then s.handlers[h].buffer else None),
                 buffer := if step.Receive? then None else s.handlers[h].buffer)]
            && t.acks == s.acks && forall id :: h !in List(t.waiters, id)
  {
    hide HandlerOk;
    var u := Next(s, step);
    var t := Next(u, Cleanup(h));
    StepKeeps(s, step);
    StepKeeps(u, Cleanup(h));
    forall id
      ensures h !in List(t.waiters, id)
    {
      if id in t.waiters {
        assert ListOk(t, id);
      }
    }
  }

  /**
   * A request is served the entry held for its identifier, or waits with an empty channel at the end
   * of the list the next acknowledgement walks.
   */
  lemma RequestServedOrWaits(before: seq<Step>, id: Id)
    requires Run(INITIAL, before).lock.Free?
    ensures var s := Run(INITIAL, before);
            var t := Next(s, Request(id));
            && (id in s.acks ==> t == s.(handlers := s.handlers + [Handler(id, Done(Some(s.acks[id])), None, 0)]))
            && (id !in s.acks ==>
                  t == s.(handlers := s.handlers + [Handler(id, Waiting, None, 0)],
                          waiters := s.waiters[id := List(s.waiters, id) + [|s.handlers|]]))
            && (id in s.acks ==> id !in s.waiters)
  {
    RunFrom(INITIAL, before);
  }

  /** Expiry removes exactly the entries received before the cutoff. */
  lemma ExpiryExactly(s: State, cutoff: int)
    requires s.lock.Free?
    ensures var t := Next(s, Expire(cutoff));
            && t == s.(acks := t.acks)
            && (forall id :: id in t.acks <==> id in s.acks && s.acks[id].receivedAt >= cutoff)
            && (forall id :: id in t.acks ==> t.acks[id] == s.acks[id])
  {}

  /** What the listener has read for the waiters and the entries it keeps. */
  ghost predicate Heard(got: Option<Entry>, steps: seq<Step>) {
    got.Some? ==> AckArrives(got.value) in steps
  }

  ghost predicate AllHeard(s: State, steps: seq<Step>) {
    && (forall id :: id in s.acks ==> Heard(Some(s.acks[id]), steps))
    && (s.lock.Notifying? ==> Heard(Some(s.lock.entry), steps))
    && (forall x :: x in s.handlers ==> Heard(x.buffer, steps) && (!x.phase.Waiting? ==> Heard(x.phase.got, steps)))
  }

  lemma HeardLater(s: State, steps: seq<Step>, step: Step)
    requires AllHeard(s, steps)
    ensures AllHeard(s, steps + [step])
  {}

  lemma StepHeard(s: State, step: Step, steps: seq<Step>)
    requires AllHeard(s, steps) && step in steps
    ensures AllHeard(Next(s, step), steps)
  {
    var t := Next(s, step);
    forall x | x in t.handlers
      ensures Heard(x.buffer, steps) && (!x.phase.Waiting? ==> Heard(x.phase.got, steps))
    {
      var k :| 0 <= k < |t.handlers| && t.handlers[k] == x;
      if k < |s.handlers| {
        assert s.handlers[k] in s.handlers;
      }
    }
  }

  lemma {:induction false} RunHeard(s: State, past: seq<Step>, steps: seq<Step>)
    requires AllHeard(s, past)
    ensures AllHeard(Run(s, steps), past + steps)
    decreases |steps|
  {
    hide AllHeard, Next;
    if steps == [] {
      assert past + steps == past;
    } else {
      HeardLater(s, past, steps[0]);
      assert (past + [steps[0]])[|past|] == steps[0];
      StepHeard(s, steps[0], past + [steps[0]]);
      RunHeard(Next(s, steps[0]), past + [steps[0]], steps[1..]);
      assert past + [steps[0]] + steps[1..] == past + steps;
    }
  }

  /** Over every run: whatever is kept, announced, held or served is an acknowledgement that was read, whole. */
  lemma NothingInvented(steps: seq<Step>)
    ensures AllHeard(Run(INITIAL, steps), steps)
  {
    RunHeard(INITIAL, [], steps);
    assert [] + steps == steps;
  }

  // ---------------------------------------------------------------- the server

  function NotifyAll(s: State, n: nat): State {
    if n == 0 then s else NotifyOne(NotifyAll(s, n - 1))
  }

  /** What one acknowledgement does when nobody else runs meanwhile: a run of the steps above. */
  function Acknowledged(s: State, e: Entry): State {
    Release(NotifyAll(Next(s, AckArrives(e)), |List(s.waiters, e.commandId)|))
  }

  lemma {:induction false} NotifyAllKeeps(s: State, n: nat)
    requires Consistent(s)
    ensures Consistent(NotifyAll(s, n))
  {
    hide Consistent, NotifyOne;
    if n > 0 {
      NotifyAllKeeps(s, n - 1);
      NotifyKeeps(NotifyAll(s, n - 1));
    }
  }

  lemma OneMoreOf(list: seq<nat>, n: nat)
    requires 0 < n <= |list| && Distinct(list)
    ensures list[n - 1] in list && list[n - 1] !in list[..n - 1]
    ensures forall x :: x in list[..n] <==> x in list[..n - 1] || x == list[n - 1]
  {
    assert list[..n] == list[..n - 1] + [list[n - 1]];
  }

  /** After `n` sends into empty channels, the first `n` waiters hold the entry and nobody else has changed. */
  lemma {:induction false} NotifyAllTells(s: State, n: nat, e: Entry)
    requires s.lock == Notifying(e, 0) && n <= |List(s.waiters, e.commandId)| && Distinct(List(s.waiters, e.commandId))
    requires forall h :: h in List(s.waiters, e.commandId) ==>
               h < |s.handlers| && s.handlers[h].buffer.None? && s.handlers[h].sent == 0
    ensures var t, list := NotifyAll(s, n), List(s.waiters, e.commandId);
            && t.lock == Notifying(e, n) && t.acks == s.acks && t.waiters == s.waiters && t.dropped == s.dropped
            && |t.handlers| == |s.handlers|
            && forall h: nat :: h < |s.handlers| ==>
                 t.handlers[h] == if h in list[..n] then s.handlers[h].(buffer := Some(e), sent := 1) else s.handlers[h]
  {
    if n > 0 {
      hide Distinct;
      NotifyAllTells(s, n - 1, e);
      var list := List(s.waiters, e.commandId);
      OneMoreOf(list, n);
    }
  }

  /**
   * Undisturbed, the listener stores the entry, puts it into the channel of every waiter and of
   * nobody else, and forgets the waiters.
   */
  lemma AcknowledgedEnds(s: State, e: Entry)
    requires Consistent(s) && s.lock.Free?
    ensures Consistent(Acknowledged(s, e))
    ensures var t := Acknowledged(s, e);
            && t.lock.Free? && t.acks == s.acks[e.commandId := e] && t.waiters == s.waiters - {e.commandId}
            && |t.handlers| == |s.handlers| && t.dropped == 0
            && forall h: nat :: h < |s.handlers| ==>
                 t.handlers[h] == if h in List(s.waiters, e.commandId) then s.handlers[h].(buffer := Some(e), sent := 1)
                                  else s.handlers[h]
  {
    WaitersAreEmpty(s, e.commandId);
    var list := List(s.waiters, e.commandId);
    assert list[..|list|] == list;
    NotifyAllTells(Next(s, AckArrives(e)), |list|, e);
    AcknowledgedKeeps(s, e);
  }

  lemma WaitersAreEmpty(s: State, id: Id)
    requires Consistent(s) && s.lock.Free?
    ensures Distinct(List(s.waiters, id))
    ensures forall h :: h in List(s.waiters, id) ==>
              h < |s.handlers| && s.handlers[h].buffer.None? && s.handlers[h].sent == 0
  {
    if id in s.waiters {
      assert ListOk(s, id);
      forall h | h in s.waiters[id]
        ensures h < |s.handlers| && s.handlers[h].buffer.None? && s.handlers[h].sent == 0
      {
        assert HandlerOk(s.handlers[h], h, s.waiters);
      }
    }
  }

  lemma AcknowledgedKeeps(s: State, e: Entry)
    requires Consistent(s) && s.lock.Free?
    ensures Consistent(Acknowledged(s, e))
  {
    hide Consistent, NotifyOne, Next;
    var t := Next(s, AckArrives(e));
    var n := |List(s.waiters, e.commandId)|;
    StepKeeps(s, AckArrives(e));
    NotifyAllKeeps(t, n);
    ReleaseKeeps(NotifyAll(t, n));
  }

  /** How often the listener runs. */
  function Notifies(steps: seq<Step>): nat {
    if steps == [] then 0 else (if steps[0].Notify? then 1 else 0) + Notifies(steps[1..])
  }

  lemma LockedStep(s: State, step: Step)
    requires Consistent(s) && s.lock.Notifying? && step != AckDone
    ensures var t := Next(s, step);
            && t.acks == s.acks && t.waiters == s.waiters
            && t.lock == if step.Notify? && s.lock.next < |List(s.waiters, s.lock.entry.commandId)|
                         then s.lock.(next := s.lock.next + 1) else s.lock
  {
    var id := s.lock.entry.commandId;
    if id in s.waiters {
      assert ListOk(s, id);
    }
  }

  lemma {:induction false} ListenerAdvances(s: State, steps: seq<Step>)
    requires Consistent(s) && s.lock.Notifying? && AckDone !in steps
    ensures var t, n, size := Run(s, steps), s.lock.next + Notifies(steps), |List(s.waiters, s.lock.entry.commandId)|;
            && t.acks == s.acks && t.waiters == s.waiters
            && t.lock == s.lock.(next := if n < size then n else size)
    decreases |steps|
  {
    hide Next, ListOk, HandlerOk;
    if steps != [] {
      assert steps[0] in steps;
      LockedStep(s, steps[0]);
      StepKeeps(s, steps[0]);
      ListenerAdvances(Next(s, steps[0]), steps[1..]);
    }
  }

  /**
   * The listener always finishes: from every reachable state in which it holds the lock, whatever
   * receivers and clients do in between, once it has run as often as waiters are left it releases
   * the lock, with the entries unchanged and the waiters gone.
   */
  lemma ListenerEnds(before: seq<Step>, steps: seq<Step>)
    requires Run(INITIAL, before).lock.Notifying? && AckDone !in steps
    requires var s := Run(INITIAL, before);
             s.lock.next + Notifies(steps) >= |List(s.waiters, s.lock.entry.commandId)|
    ensures var s := Run(INITIAL, before);
            var t := Next(Run(s, steps), AckDone);
            && t.lock.Free? && t.acks == s.acks && t.waiters == s.waiters - {s.lock.entry.commandId}
  {
    RunFrom(INITIAL, before);
    ListenerAdvances(Run(INITIAL, before), steps);
  }

  /** Every registered channel belongs to a request. */
  ghost predicate Registered(waiters: map<Id, seq<nat>>, n: nat) {
    forall id :: id in waiters ==> forall i :: 0 <= i < |waiters[id]| ==> waiters[id][i] < n
  }

  lemma RegisteredList(waiters: map<Id, seq<nat>>, n: nat, id: Id)
    requires Registered(waiters, n)
    ensures forall i :: 0 <= i < |List(waiters, id)| ==> List(waiters, id)[i] < n
  {}

  lemma ConsistentRegistered(s: State)
    requires Consistent(s)
    ensures Registered(s.waiters, |s.handlers|)
  {
    forall id | id in s.waiters
      ensures forall i :: 0 <= i < |s.waiters[id]| ==> s.waiters[id][i] < |s.handlers|
    {
      assert ListOk(s, id);
    }
  }

  /** The search for one channel in its list. */
  method RemoveChannel(list: seq<nat>, h: nat) returns (r: seq<nat>, found: bool)
    ensures r == Without(list, h) && (found <==> h in list)
  {
    var i := 0;
    while i < |list|
      invariant 0 <= i <= |list|
      invariant h !in list[..i] && Without(list, h) == list[..i] + Without(list[i..], h)
    {
      if list[i] == h {
        assert list[i..][1..] == list[i + 1..];
        return list[..i] + list[i + 1..], true;
      }
      assert list[..i + 1] == list[..i] + [list[i]];
      assert list[i..][1..] == list[i + 1..];
      ConcatAssoc(list[..i], [list[i]], Without(list[i + 1..], h));
      i := i + 1;
    }
    assert list[..i] == list && Without(list[i..], h) == [];
    return list, false;
  }

  class RestServer {
    var acks: map<Id, Entry>
    var waiters: map<Id, seq<nat>>
    var handlers: seq<Handler>
    ghost var dropped: nat

    ghost function Under(lock: Lock): State
      reads this
    {
      State(acks, waiters, handlers, lock, dropped)
    }

    /** The state between two locked regions. */
    ghost function View(): State
      reads this
    {
      Under(Free)
    }

    /** What every run keeps. */
    ghost predicate Valid()
      reads this
    {
      Consistent(View())
    }

    constructor ()
      ensures Valid() && View() == INITIAL
    {
      acks, waiters, handlers, dropped := map[], map[], [], 0;
    }

    /** A send on the channel of request `h` that does not block. */
    method Send(h: nat, entry: Entry, ghost lock: Lock)
      requires h < |handlers|
      modifies this`handlers, this`dropped
      ensures Under(lock) == SendTo(old(Under(lock)), h, entry) && |handlers| == old(|handlers|)
    {
      var x := handlers[h];
      if x.buffer.None? {
        handlers := handlers[h := x.(buffer := Some(entry), sent := x.sent + 1)];
      } else {
        dropped := dropped + 1;
      }
    }

    /** One message for the listener: store, tell every waiter, forget the waiters. */
    method OnAck(entry: Entry)
      requires Valid()
      modifies this
      ensures Valid() && View() == Acknowledged(old(View()), entry)
      ensures acks == old(acks)[entry.commandId := entry] && waiters == old(waiters) - {entry.commandId}
      ensures |handlers| == old(|handlers|)
      ensures forall h: nat :: h < |handlers| ==>
                handlers[h] == if h in List(old(waiters), entry.commandId)
                               then old(handlers)[h].(buffer := Some(entry), sent := 1) else old(handlers)[h]
    {
      hide Registered, SendTo, Consistent;
      ghost var s := Next(View(), AckArrives(entry));
      ConsistentRegistered(View());
      AcknowledgedEnds(View(), entry);
      RegisteredList(waiters, |handlers|, entry.commandId);
      acks := acks[entry.commandId := entry];
      var list := if entry.commandId in waiters then waiters[entry.commandId] else [];
      assert list == List(waiters, entry.commandId);
      assert forall k :: 0 <= k < |list| ==> list[k] < |handlers|;
      var i := 0;
      while i < |list|
        invariant 0 <= i <= |list|
        invariant acks == s.acks && waiters == s.waiters && |handlers| == |s.handlers|
        invariant NotifyAll(s, i) == Under(Notifying(entry, i))
      {
        Send(list[i], entry, Notifying(entry, i));
        i := i + 1;
      }
      waiters := waiters - {entry.commandId};
    }

    /** One tick of the expiry loop. */
    method OnExpiry(cutoff: int)
      requires Valid()
      modifies this
      ensures Valid() && View() == Next(old(View()), Expire(cutoff))
      ensures acks == map id | id in old(acks) && old(acks)[id].receivedAt >= cutoff :: old(acks)[id]
      ensures waiters == old(waiters) && handlers == old(handlers)
    {
      hide Consistent;
      StepKeeps(View(), Expire(cutoff));
      var todo := acks.Keys;
      while todo != {}
        invariant todo <= acks.Keys <= old(acks).Keys
        invariant forall id :: id in acks ==> acks[id] == old(acks)[id]
        invariant forall id :: id in old(acks) && id !in todo ==>
          (id in acks <==> !(old(acks)[id].receivedAt < cutoff))
        invariant waiters == old(waiters) && handlers == old(handlers) && dropped == old(dropped)
        decreases |todo|
      {
        var id :| id in todo;
        todo := todo - {id};
        if acks[id].receivedAt < cutoff {
          acks := acks - {id};
        }
      }
      assert acks == Next(old(View()), Expire(cutoff)).acks;
    }

    /** A stream request: serve what is there, or register a channel, under one lock. */
    method OnRequest(id: Id) returns (served: Option<Entry>)
      requires Valid()
      modifies this
      ensures Valid() && View() == Next(old(View()), Request(id))
      ensures served.Some? <==> id in acks
      ensures served.Some? ==> served.value == acks[id]
      ensures acks == old(acks) && handlers == old(handlers)
                + [if served.Some? then Handler(id, Done(served), None, 0) else Handler(id, Waiting, None, 0)]
      ensures waiters == if served.Some? then old(waiters)
                         else old(waiters)[id := List(old(waiters), id) + [|old(handlers)|]]
    {
      hide Consistent;
      StepKeeps(View(), Request(id));
      if id in acks {
        handlers := handlers + [Handler(id, Done(Some(acks[id])), None, 0)];
        return Some(acks[id]);
      }
      waiters := waiters[id := (if id in waiters then waiters[id] else []) + [|handlers|]];
      handlers := handlers + [Handler(id, Waiting, None, 0)];
      return None;
    }

    /** The deferred removal of a request's channel. */
    method OnLeave(h: nat)
      requires Valid() && h < |handlers| && handlers[h].phase.Leaving?
      modifies this
      ensures Valid() && View() == Next(old(View()), Cleanup(h))
      ensures acks == old(acks)
      ensures handlers == old(handlers)[h := old(handlers)[h].(phase := Done(old(handlers)[h].phase.got))]
      ensures forall id :: List(waiters, id) == if id == old(handlers)[h].id then Without(List(old(waiters), id), h)
                                                else List(old(waiters), id)
      ensures forall id :: h !in List(waiters, id)
    {
      hide Consistent;
      StepKeeps(View(), Cleanup(h));
      LeftLists(View(), h);
      var id := handlers[h].id;
      var list, found := RemoveChannel(if id in waiters then waiters[id] else [], h);
      if found {
        waiters := waiters[id := list];
      }
      handlers := handlers[h := handlers[h].(phase := Done(handlers[h].phase.got))];
    }
  }
}
