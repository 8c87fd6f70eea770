/**
 * The SDK's command wrapper: however a handler acknowledges, from however many goroutines, and
 * however it ends, one acknowledgement is sent for its command.
 */
module AckOnce {
  import opened Bytes

  datatype Status = Completed | Rejected | Failed

  /** A call of sendACK: before its locked region, between it and the send, or over. */
  datatype Call = Entering(status: Status) | Claimed(status: Status) | Over

  /**
   * The goroutine that runs the handler. `Checking` reads the flag once the handler has returned,
   * `Failing` is inside its own call of Fail, `Recovering` inside the one of the deferred function.
   */
  datatype Runner = InHandler | Checking | Failing(call: Call) | Recovering(call: Call) | Finished

  /** `sent` lists the acknowledgements handed to the transport, `winner` the call that set the flag. */
  datatype State = State(acked: bool, calls: seq<Call>, runner: Runner, sent: seq<Status>, winner: Option<Status>)

  datatype Step =
    | Start(status: Status)     // the handler, or a goroutine it started, calls sendACK
    | Proceed(k: nat)           // call k runs its next region
    | Return                    // the handler returns, with an error or without
    | Panic                     // the handler panics
    | Run                       // the runner's next region
    | SendPanics                // the transport panics under the runner's own Fail

  const INITIAL := State(false, [], InHandler, [], None)

  /** The locked region, then the send. */
  function Advance(s: State, c: Call): (State, Call) {
    match c
    case Entering(status) =>
      if s.acked then (s, Over) else (s.(acked := true, winner := Some(status)), Claimed(status))
    case Claimed(status) => (s.(sent := s.sent + [status]), Over)
    case Over => (s, Over)
  }

  function RunnerStep(s: State): State {
    match s.runner
    case Checking => s.(runner := if s.acked then Finished else Failing(Entering(Failed)))
    case Failing(c) => var (t, d) := Advance(s, c); t.(runner := if d.Over? then Finished else Failing(d))
    case Recovering(c) => var (t, d) := Advance(s, c); t.(runner := if d.Over? then Finished else Recovering(d))
    case _ => s
  }

  function Next(s: State, step: Step): State {
    match step
    case Start(status) => s.(calls := s.calls + [Entering(status)])
    case Proceed(k) =>
      if k < |s.calls| then var (t, d) := Advance(s, s.calls[k]); t.(calls := t.calls[k := d]) else s
    case Return => if s.runner.InHandler? then s.(runner := Checking) else s
    case Panic => if s.runner.InHandler? then s.(runner := Recovering(Entering(Failed))) else s
    case Run => RunnerStep(s)
    case SendPanics =>
      if s.runner.Failing? && s.runner.call.Claimed? then
        s.(sent := s.sent + [s.runner.call.status], runner := Recovering(Entering(Failed)))
      else s
  }

  function After(s: State, steps: seq<Step>): State
    decreases |steps|
  {
    if steps == [] then s else After(Next(s, steps[0]), steps[1..])
  }

  // ---------------------------------------------------------------- what every run keeps

  function RunnerCall(r: Runner): Call {
    if r.Failing? || r.Recovering? then r.call else Over
  }

  function Holds(c: Call): nat {
    if c.Claimed? then 1 else 0
  }

  /** How many calls hold a claim they have not sent yet. */
  function Holding(calls: seq<Call>): nat {
    if calls == [] then 0 else Holds(calls[0]) + Holding(calls[1..])
  }

  lemma {:induction false} HoldingUpdate(calls: seq<Call>, k: nat, c: Call)
    requires k < |calls|
    ensures Holding(calls[k := c]) == Holding(calls) - Holds(calls[k]) + Holds(c)
  {
    if k == 0 {
      assert calls[0 := c][1..] == calls[1..];
    } else {
      assert calls[k := c][1..] == calls[1..][k - 1 := c];
      HoldingUpdate(calls[1..], k - 1, c);
    }
  }

  lemma {:induction false} HoldingAppend(calls: seq<Call>, c: Call)
    ensures Holding(calls + [c]) == Holding(calls) + Holds(c)
  {
    if calls == [] {
      assert calls + [c] == [c] && |[c][1..]| == 0;
    } else {
      assert (calls + [c])[1..] == calls[1..] + [c];
      HoldingAppend(calls[1..], c);
    }
  }

  lemma {:induction false} HoldingAt(calls: seq<Call>, k: nat)
    requires k < |calls|
    ensures Holds(calls[k]) <= Holding(calls)
  {
    if k > 0 {
      HoldingAt(calls[1..], k - 1);
    }
  }

  /** The flag stands for exactly one claim, which is held by one call or has been sent once. */
  ghost predicate Consistent(s: State) {
    && (s.acked <==> s.winner.Some?)
    && |s.sent| + Holding(s.calls) + Holds(RunnerCall(s.runner)) == (if s.acked then 1 else 0)
    && (s.runner.Finished? ==> s.acked)
    && (forall status :: status in s.sent ==> s.winner == Some(status))
    && (forall k :: 0 <= k < |s.calls| && s.calls[k].Claimed? ==> s.winner == Some(s.calls[k].status))
    && (RunnerCall(s.runner).Claimed? ==> s.winner == Some(RunnerCall(s.runner).status))
    && ((s.runner.Failing? || s.runner.Recovering?) ==> !s.runner.call.Over?)
  }

  lemma ProceedKeeps(s: State, k: nat)
    requires Consistent(s)
    ensures Consistent(Next(s, Proceed(k)))
    ensures s.winner.Some? ==> Next(s, Proceed(k)).winner == s.winner
  {
    if k < |s.calls| {
      HoldingAt(s.calls, k);
      HoldingUpdate(s.calls, k, Advance(s, s.calls[k]).1);
    }
  }

  lemma StepKeeps(s: State, step: Step)
    requires Consistent(s)
    ensures Consistent(Next(s, step))
    ensures s.winner.Some? ==> Next(s, step).winner == s.winner
  {
    match step {
      case Start(status) => HoldingAppend(s.calls, Entering(status));
      case Proceed(k) => ProceedKeeps(s, k);
      case _ =>
    }
  }

  lemma {:induction false} AfterKeeps(s: State, steps: seq<Step>)
    requires Consistent(s)
    ensures Consistent(After(s, steps))
    ensures s.winner.Some? ==> After(s, steps).winner == s.winner
    decreases |steps|
  {
    hide Consistent, Next;
    if steps != [] {
      StepKeeps(s, steps[0]);
      AfterKeeps(Next(s, steps[0]), steps[1..]);
    }
  }

  /**
   * Over every interleaving of any number of calls, and however the handler ends: at most one
   * acknowledgement is ever sent, and when callHandler is over exactly one call has claimed it,
   * so that once the calls still under way are over exactly one has been sent, the claimed one.
   */
  lemma ExactlyOneAck(steps: seq<Step>)
    ensures var s := After(INITIAL, steps);
            && |s.sent| <= 1
            && (s.runner.Finished? ==>
                  && s.winner.Some? && |s.sent| + Holding(s.calls) == 1
                  && ((forall k :: 0 <= k < |s.calls| ==> !s.calls[k].Claimed?) ==> s.sent == [s.winner.value]))
  {
    AfterKeeps(INITIAL, steps);
    var s := After(INITIAL, steps);
    if forall k :: 0 <= k < |s.calls| ==> !s.calls[k].Claimed? {
      NoneHeld(s.calls);
      assert s.runner.Finished? ==> s.sent[0] in s.sent;
    }
  }

  lemma {:induction false} NoneHeld(calls: seq<Call>)
    requires forall k :: 0 <= k < |calls| ==> !calls[k].Claimed?
    ensures Holding(calls) == 0
  {
    if calls != [] {
      NoneHeld(calls[1..]);
    }
  }

  /** The first claim decides: whatever runs afterwards, nothing but its status is ever sent. */
  lemma FirstClaimWins(before: seq<Step>, after: seq<Step>)
    requires After(INITIAL, before).acked
    ensures var s, t := After(INITIAL, before), After(After(INITIAL, before), after);
            && t.winner == s.winner && s.winner.Some?
            && forall status :: status in t.sent ==> status == s.winner.value
  {
    AfterKeeps(INITIAL, before);
    AfterKeeps(After(INITIAL, before), after);
  }

  // ---------------------------------------------------------------- whose status it is

  /** The status a call acts for, if it is not over. */
  ghost predicate ActsFor(c: Call, statuses: set<Status>) {
    !c.Over? ==> c.status in statuses
  }

  function Started(steps: seq<Step>): set<Status> {
    set step | step in steps && step.Start? :: step.status
  }

  /** Calls act for a status they were started with, and the runner's own call for `Failed`. */
  ghost predicate Honest(s: State, started: set<Status>) {
    && (forall c :: c in s.calls ==> ActsFor(c, started))
    && ActsFor(RunnerCall(s.runner), {Failed})
    && (s.winner.Some? ==> s.winner.value in started + {Failed})
    && (s.winner.Some? && s.runner.InHandler? ==> s.winner.value in started)
    && (started == {} ==> s.calls == [])
  }

  lemma AdvanceHonest(s: State, c: Call)
    ensures var (t, d) := Advance(s, c);
            && (d.Over? || (!c.Over? && d.status == c.status))
            && (t.winner == s.winner || (!c.Over? && t.winner == Some(c.status)))
            && t.calls == s.calls && t.runner == s.runner
  {}

  lemma StepHonest(s: State, step: Step, started: set<Status>)
    requires Honest(s, started) && (step.Start? ==> step.status in started)
    ensures Honest(Next(s, step), started)
  {
    match step {
      case Proceed(k) =>
        if k < |s.calls| {
          AdvanceHonest(s, s.calls[k]);
          assert s.calls[k] in s.calls;
        }
      case Run => AdvanceHonest(s, RunnerCall(s.runner));
      case _ =>
    }
  }

  lemma {:induction false} AfterHonest(s: State, steps: seq<Step>, started: set<Status>)
    requires Honest(s, started) && Started(steps) <= started
    ensures Honest(After(s, steps), started)
    decreases |steps|
  {
    hide Honest, Next;
    if steps != [] {
      assert steps[0] in steps && forall step :: step in steps[1..] ==> step in steps;
      StepHonest(s, steps[0], started);
      AfterHonest(Next(s, steps[0]), steps[1..], started);
    }
  }

  /**
   * Over every run: what is sent is the status of a call that the handler or one of its goroutines
   * started, or `failed` once the handler is over; and a handler that never acknowledges, whether
   * it returns, fails or panics, is reported as failed, once.
   */
  lemma SilentHandlerFails(steps: seq<Step>)
    ensures var s := After(INITIAL, steps);
            && (forall status :: status in s.sent ==>
                  Start(status) in steps || (status == Failed && !s.runner.InHandler?))
            && (s.runner.Finished? && (forall status :: Start(status) !in steps) ==> s.sent == [Failed])
  {
    AfterKeeps(INITIAL, steps);
    AfterHonest(INITIAL, steps, Started(steps));
    var s := After(INITIAL, steps);
    if s.runner.Finished? && forall status :: Start(status) !in steps {
      assert Started(steps) == {};
      assert s.sent[0] in s.sent;
    }
  }

  lemma AfterTwo(s: State, a: Step, b: Step)
    ensures After(s, [a, b]) == Next(Next(s, a), b)
  {
    hide Next;
    assert [a, b][1..] == [b] && |[b][1..]| == 0;
    assert After(Next(s, a), [b]) == After(Next(Next(s, a), b), [b][1..]);
  }

  /**
   * Undisturbed, a call on a command without an acknowledgement sends its status, and one on an
   * acknowledged command nothing.
   */
  lemma CallSends(s: State, status: Status)
    ensures var k := |s.calls|;
            var t := After(Next(s, Start(status)), [Proceed(k), Proceed(k)]);
            t == s.(acked := true, calls := s.calls + [Over],
                    winner := if s.acked then s.winner else Some(status),
                    sent := if s.acked then s.sent else s.sent + [status])
  {
    AfterTwo(Next(s, Start(status)), Proceed(|s.calls|), Proceed(|s.calls|));
  }

  /**
   * Undisturbed, the handler's end is followed by one `failed` if the command has no acknowledgement
   * yet, and by nothing if it has, whether the handler returns, panics, or the transport panics.
   */
  lemma EndSends(s: State)
    requires s.runner.InHandler?
    ensures var t := s.(acked := true, runner := Finished,
                        winner := if s.acked then s.winner else Some(Failed),
                        sent := if s.acked then s.sent else s.sent + [Failed]);
            && After(After(s, [Return, Run]), [Run, Run]) == t
            && After(After(s, [Panic, Run]), [Run, Run]) == t
            && After(After(After(s, [Return, Run]), [Run, SendPanics]), [Run, Run]) == t
    ensures !s.acked ==>
              var u := After(After(s, [Return, Run]), [Run, SendPanics]);
              u.runner == Recovering(Entering(Failed)) && u.sent == s.sent + [Failed]
  {
    AfterTwo(s, Return, Run);
    AfterTwo(s, Panic, Run);
    var a, b := After(s, [Return, Run]), After(s, [Panic, Run]);
    AfterTwo(a, Run, Run);
    AfterTwo(b, Run, Run);
    AfterTwo(a, Run, SendPanics);
    AfterTwo(After(a, [Run, SendPanics]), Run, Run);
  }

  /** The runner is never stuck: from any reachable state after the handler, at most four of its own steps end it. */
  lemma RunnerEnds(steps: seq<Step>)
    requires !After(INITIAL, steps).runner.InHandler?
    ensures RunnerStep(RunnerStep(RunnerStep(RunnerStep(After(INITIAL, steps))))).runner.Finished?
  {}

  // ---------------------------------------------------------------- one goroutine

  datatype End = Nil | Error | Panics

  class Command {
    var acked: bool
    var sent: seq<Status>

    constructor ()
      ensures !acked && sent == []
    {
      acked, sent := false, [];
    }

    method SendAck(status: Status) returns (ok: bool)
      modifies this
      ensures ok == !old(acked) && acked
      ensures sent == if ok then old(sent) + [status] else old(sent)
    {
      if acked {
        return false;
      }
      acked := true;
      sent := sent + [status];
      return true;
    }
  }

  /** Running a handler that makes `calls` and ends in one of the three ways. */
  method CallHandler(cmd: Command, calls: seq<Status>, end: End)
    requires !cmd.acked && cmd.sent == []
    modifies cmd
    ensures cmd.acked && cmd.sent == if |calls| > 0 then [calls[0]] else [Failed]
  {
    var ok;
    var i := 0;
    while i < |calls|
      invariant 0 <= i <= |calls|
      invariant cmd.acked == (i > 0) && cmd.sent == if i > 0 then [calls[0]] else []
    {
      ok := cmd.SendAck(calls[i]);
      i := i + 1;
    }
    match end {
      case Panics => ok := cmd.SendAck(Failed);
      case _ =>
        if !cmd.acked {
          ok := cmd.SendAck(Failed);
        }
    }
  }

  const QUEUE_CAPACITY := 256

  /** A command that arrives: handled if there is a handler, else queued, else failed for want of room. */
  method HandleEvent(cmd: Command, handler: Option<(seq<Status>, End)>, queue: seq<Command>)
    returns (queue': seq<Command>)
    requires !cmd.acked && cmd.sent == []
    modifies cmd
    ensures handler.Some? ==>
              queue' == queue && cmd.sent == if |handler.value.0| > 0 then [handler.value.0[0]] else [Failed]
    ensures handler.None? && |queue| < 256 ==> queue' == queue + [cmd] && cmd.sent == []
    ensures handler.None? && |queue| >= 256 ==> queue' == queue && cmd.sent == [Failed]
    ensures cmd.acked <==> cmd.sent != []
  {
    queue' := queue;
    match handler {
      case Some((calls, end)) => CallHandler(cmd, calls, end);
      case None =>
        if |queue| < QUEUE_CAPACITY {
          queue' := queue + [cmd];
        } else {
          var _ := cmd.SendAck(Failed);
        }
    }
  }
}
