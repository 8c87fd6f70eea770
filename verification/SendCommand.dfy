/**
 * One operator session of the command service: commands are published one after the other, each
 * with a goroutine that waits for its acknowledgement, while a router hands the acknowledgements
 * of all vehicles to the goroutines they belong to. The steps below interleave freely; each is
 * either one region under the session's mutex or one channel operation.
 */
module SendCommand {
  import opened Bytes

  type Id = seq<Byte>

  datatype Ack = Ack(commandId: Id, vehicleId: seq<Byte>, status: int, message: seq<Byte>)

  const FAILED := 3
  const TIMEOUT := 4

  datatype Source = Refused | PublishFailed | Routed | TimedOut

  /** A message handed to the operator's stream, with the branch that sent it. */
  datatype Reply = Reply(source: Source, ack: Ack)

  datatype Phase =
    | Waiting
    | Removing(got: Option<Ack>)
    | Replying(got: Option<Ack>)
    | Ended(got: Option<Ack>)
    | Cancelled

  /** The goroutine of one published command; its channel holds at most one acknowledgement. */
  datatype Job = Job(id: Id, vehicleId: seq<Byte>, phase: Phase, buffer: Option<Ack>)

  /** The receive loop is between publishing a command and registering its channel, or is not. */
  datatype Loop = Ready | Published(id: Id, vehicleId: seq<Byte>)

  /** The router looks a channel up under the mutex and sends to it afterwards. */
  datatype Router = Idle | Holding(ack: Ack, channel: Option<nat>)

  /** `used` are the identifiers drawn so far, `received` the acknowledgements the router has read. */
  datatype State = State(
    pending: map<Id, nat>, jobs: seq<Job>, loop: Loop, router: Router, out: seq<Reply>,
    cancelled: bool, used: set<Id>, received: set<Ack>)

  datatype Step =
    | Refuse(chosen: Id, vehicle: seq<Byte>)
    | Publish(drawn: Id, vehicle: seq<Byte>)
    | PublishFails(drawn: Id, vehicle: seq<Byte>)
    | Register
    | AckArrives(ack: Ack)
    | Route
    | TakeAck(j: nat)
    | TimerFires(j: nat)
    | Remove(j: nat)
    | Answer(j: nat)
    | CancelSession
    | Cancel(j: nat)

  const INITIAL := State(map[], [], Ready, Idle, [], false, {}, {})

  function TimeoutAck(id: Id, vehicle: seq<Byte>): Ack {
    Ack(id, vehicle, TIMEOUT, [])
  }

  /** What a goroutine that is past its select says to the operator. */
  function ReplyOf(job: Job): Reply
    requires job.phase.Replying? || job.phase.Ended?
  {
    match job.phase.got
    case Some(ack) => Reply(Routed, ack)
    case None => Reply(TimedOut, TimeoutAck(job.id, job.vehicleId))
  }

  function Deliver(s: State): State {
    match s.router
    case Idle => s
    case Holding(ack, None) => s.(router := Idle)
    case Holding(ack, Some(ch)) =>
      if ch < |s.jobs| && s.jobs[ch].buffer.None? then
        s.(router := Idle, jobs := s.jobs[ch := s.jobs[ch].(buffer := Some(ack))])
      else s.(router := Idle)
  }

  function Lookup(pending: map<Id, nat>, id: Id): Option<nat> {
    if id in pending then Some(pending[id]) else None
  }

  function WithPhase(s: State, j: nat, phase: Phase): State
    requires j < |s.jobs|
  {
    s.(jobs := s.jobs[j := s.jobs[j].(phase := phase)])
  }

  /** One step; a step whose guard does not hold changes nothing. Identifiers are drawn fresh. */
  function Next(s: State, step: Step): State {
    match step
    case Refuse(id, v) =>
      if s.loop.Ready? then s.(out := s.out + [Reply(Refused, Ack(id, v, FAILED, []))]) else s
    case Publish(id, v) =>
      if s.loop.Ready? && id !in s.used then s.(loop := Published(id, v), used := s.used + {id}) else s
    case PublishFails(id, v) =>
      if s.loop.Ready? && id !in s.used then
        s.(used := s.used + {id}, out := s.out + [Reply(PublishFailed, Ack(id, v, FAILED, []))])
      else s
    case Register =>
      if s.loop.Published? then
        s.(pending := s.pending[s.loop.id := |s.jobs|],
           jobs := s.jobs + [Job(s.loop.id, s.loop.vehicleId, Waiting, None)], loop := Ready)
      else s
    case AckArrives(ack) =>
      if s.router.Idle? then
        s.(router := Holding(ack, Lookup(s.pending, ack.commandId)), received := s.received + {ack})
      else s
    case Route => Deliver(s)
    case TakeAck(j) =>
      if j < |s.jobs| && s.jobs[j].phase.Waiting? && s.jobs[j].buffer.Some? then
        s.(jobs := s.jobs[j := s.jobs[j].(phase := Removing(s.jobs[j].buffer), buffer := None)])
      else s
    case TimerFires(j) => if j < |s.jobs| && s.jobs[j].phase.Waiting? then WithPhase(s, j, Removing(None)) else s
    case Remove(j) =>
      if j < |s.jobs| && s.jobs[j].phase.Removing? then
        WithPhase(s, j, Replying(s.jobs[j].phase.got)).(pending := s.pending - {s.jobs[j].id})
      else s
    case Answer(j) =>
      if j < |s.jobs| && s.jobs[j].phase.Replying? then
        WithPhase(s, j, Ended(s.jobs[j].phase.got)).(out := s.out + [ReplyOf(s.jobs[j])])
      else s
    case CancelSession => s.(cancelled := true)
    case Cancel(j) => if s.cancelled && j < |s.jobs| && s.jobs[j].phase.Waiting? then WithPhase(s, j, Cancelled) else s
  }

  function Run(s: State, steps: seq<Step>): State
    decreases |steps|
  {
    if steps == [] then s else Run(Next(s, steps[0]), steps[1..])
  }

  /** Refusals are not counted, for they repeat an identifier of the operator's choice. */
  function Counts(r: Reply, id: Id): nat {
    if r.source != Refused && r.ack.commandId == id then 1 else 0
  }

  function Replies(out: seq<Reply>, id: Id): nat {
    if out == [] then 0 else Replies(out[..|out| - 1], id) + Counts(out[|out| - 1], id)
  }

  lemma RepliesAppended(out: seq<Reply>, r: Reply)
    ensures forall id :: Replies(out + [r], id) == Replies(out, id) + Counts(r, id)
  {
    assert (out + [r])[..|out|] == out;
  }

  // ---------------------------------------------------------------- what every run keeps

  /** The phases in which a command stands in the pending table; a cancelled one is never removed. */
  predicate InTable(phase: Phase) {
    phase.Waiting? || phase.Removing? || phase.Cancelled?
  }

  ghost predicate Genuine(ack: Option<Ack>, id: Id, received: set<Ack>) {
    ack.Some? ==> ack.value.commandId == id && ack.value in received
  }

  ghost predicate JobOk(job: Job, j: nat, s: State) {
    && job.id in s.used
    && (s.loop.Published? ==> job.id != s.loop.id)
    && (InTable(job.phase) <==> job.id in s.pending)
    && (job.id in s.pending ==> s.pending[job.id] == j)
    && Genuine(job.buffer, job.id, s.received)
    && (job.phase.Removing? || job.phase.Replying? || job.phase.Ended? ==> Genuine(job.phase.got, job.id, s.received))
    && (job.phase.Ended? ==> Replies(s.out, job.id) == 1 && ReplyOf(job) in s.out)
    && (!job.phase.Ended? ==> Replies(s.out, job.id) == 0)
    && (job.phase.Cancelled? ==> s.cancelled)
  }

  ghost predicate Consistent(s: State) {
    && (forall j: nat :: j < |s.jobs| ==> JobOk(s.jobs[j], j, s))
    && (forall i: nat, j: nat :: i < j < |s.jobs| ==> s.jobs[i].id != s.jobs[j].id)
    && (forall id :: id in s.pending ==> s.pending[id] < |s.jobs| && s.jobs[s.pending[id]].id == id)
    && (s.loop.Published? ==> s.loop.id in s.used && Replies(s.out, s.loop.id) == 0)
    && (s.router.Holding? ==> s.router.ack in s.received)
    && (s.router.Holding? && s.router.channel.Some? ==>
          s.router.channel.value < |s.jobs| && s.jobs[s.router.channel.value].id == s.router.ack.commandId)
    && (forall id :: Replies(s.out, id) <= 1 && (id !in s.used ==> Replies(s.out, id) == 0))
    && (forall r :: r in s.out && r.source == Routed ==> r.ack in s.received)
    && (forall r :: r in s.out && r.source == TimedOut ==> r.ack.status == TIMEOUT)
  }

  /** Steps that change one goroutine and nothing else. */
  lemma TouchKeeps(s: State, j: nat, job: Job)
    requires Consistent(s) && j < |s.jobs| && job.id == s.jobs[j].id && JobOk(job, j, s)
    ensures Consistent(s.(jobs := s.jobs[j := job]))
  {
    var t := s.(jobs := s.jobs[j := job]);
    forall k: nat | k < |t.jobs|
      ensures JobOk(t.jobs[k], k, t)
    {
      assert JobOk(s.jobs[k], k, s);
    }
  }

  lemma LoopKeeps(s: State, step: Step)
    requires Consistent(s) && (step.Refuse? || step.Publish? || step.PublishFails?)
    ensures Consistent(Next(s, step))
  {
    hide Replies;
    var t := Next(s, step);
    if |t.out| > |s.out| {
      RepliesAppended(s.out, t.out[|s.out|]);
    }
    forall j: nat | j < |t.jobs|
      ensures JobOk(t.jobs[j], j, t)
    {
      assert JobOk(s.jobs[j], j, s);
    }
  }

  lemma RegisterKeeps(s: State)
    requires Consistent(s)
    ensures Consistent(Next(s, Register))
  {
    var t := Next(s, Register);
    forall j: nat | j < |t.jobs|
      ensures JobOk(t.jobs[j], j, t)
    {
      if j < |s.jobs| {
        assert JobOk(s.jobs[j], j, s);
      }
    }
    forall i: nat, j: nat | i < j < |t.jobs|
      ensures t.jobs[i].id != t.jobs[j].id
    {
      assert JobOk(s.jobs[i], i, s);
    }
  }

  lemma ReadKeeps(s: State, ack: Ack)
    requires Consistent(s)
    ensures Consistent(Next(s, AckArrives(ack)))
  {
    var t := Next(s, AckArrives(ack));
    forall j: nat | j < |t.jobs|
      ensures JobOk(t.jobs[j], j, t)
    {
      assert JobOk(s.jobs[j], j, s);
    }
  }

  lemma IdleKeeps(s: State)
    requires Consistent(s)
    ensures Consistent(s.(router := Idle))
  {
    forall j: nat | j < |s.jobs|
      ensures JobOk(s.jobs[j], j, s.(router := Idle))
    {
      assert JobOk(s.jobs[j], j, s);
    }
  }

  lemma RouteKeeps(s: State)
    requires Consistent(s)
    ensures Consistent(Deliver(s))
  {
    hide JobOk;
    if s.router.Holding? && s.router.channel.Some? {
      var ch := s.router.channel.value;
      var job := s.jobs[ch].(buffer := Some(s.router.ack));
      FilledOk(s, ch, s.router.ack);
      TouchKeeps(s, ch, job);
      IdleKeeps(s.(jobs := s.jobs[ch := job]));
    }
    IdleKeeps(s);
  }

  lemma FilledOk(s: State, j: nat, ack: Ack)
    requires Consistent(s) && j < |s.jobs| && ack.commandId == s.jobs[j].id && ack in s.received
    ensures JobOk(s.jobs[j].(buffer := Some(ack)), j, s)
  {
    assert JobOk(s.jobs[j], j, s);
  }

  lemma RemoveKeeps(s: State, j: nat)
    requires Consistent(s) && j < |s.jobs| && s.jobs[j].phase.Removing?
    ensures Consistent(Next(s, Remove(j)))
  {
    var t := Next(s, Remove(j));
    forall k: nat | k < |t.jobs|
      ensures JobOk(t.jobs[k], k, t)
    {
      assert JobOk(s.jobs[k], k, s);
      assert k < j ==> s.jobs[k].id != s.jobs[j].id;
      assert j < k ==> s.jobs[j].id != s.jobs[k].id;
    }
  }

  lemma AnswerKeeps(s: State, j: nat)
    requires Consistent(s) && j < |s.jobs| && s.jobs[j].phase.Replying?
    ensures Consistent(Next(s, Answer(j)))
  {
    hide Replies;
    var t := Next(s, Answer(j));
    assert JobOk(s.jobs[j], j, s);
    RepliesAppended(s.out, ReplyOf(s.jobs[j]));
    forall k: nat | k < |t.jobs|
      ensures JobOk(t.jobs[k], k, t)
    {
      assert JobOk(s.jobs[k], k, s);
      assert k < j ==> s.jobs[k].id != s.jobs[j].id;
      assert j < k ==> s.jobs[j].id != s.jobs[k].id;
    }
  }

  lemma StepKeeps(s: State, step: Step)
    requires Consistent(s)
    ensures Consistent(Next(s, step))
  {
    match step {
      case Register => RegisterKeeps(s);
      case AckArrives(ack) => ReadKeeps(s, ack);
      case Route => RouteKeeps(s);
      case TakeAck(j) => WaitingKeeps(s, step, j);
      case TimerFires(j) => WaitingKeeps(s, step, j);
      case Cancel(j) => WaitingKeeps(s, step, j);
      case Remove(j) => if j < |s.jobs| && s.jobs[j].phase.Removing? { RemoveKeeps(s, j); }
      case Answer(j) => if j < |s.jobs| && s.jobs[j].phase.Replying? { AnswerKeeps(s, j); }
      case CancelSession => CancelSessionKeeps(s);
      case _ => LoopKeeps(s, step);
    }
  }

  lemma CancelSessionKeeps(s: State)
    requires Consistent(s)
    ensures Consistent(s.(cancelled := true))
  {
    forall j: nat | j < |s.jobs|
      ensures JobOk(s.jobs[j], j, s.(cancelled := true))
    {
      assert JobOk(s.jobs[j], j, s);
    }
  }

  lemma WaitingKeeps(s: State, step: Step, j: nat)
    requires Consistent(s) && (step == TakeAck(j) || step == TimerFires(j) || step == Cancel(j))
    ensures Consistent(Next(s, step))
  {
    var t := Next(s, step);
    if t != s {
      assert JobOk(s.jobs[j], j, s);
      TouchKeeps(s, j, t.jobs[j]);
    }
  }

  lemma {:induction false} RunKeeps(s: State, steps: seq<Step>)
    requires Consistent(s)
    ensures Consistent(Run(s, steps))
    decreases |steps|
  {
    hide Consistent, Next;
    if steps != [] {
      StepKeeps(s, steps[0]);
      RunKeeps(Next(s, steps[0]), steps[1..]);
    }
  }

  /**
   * Over every interleaving: no issued identifier is replied to twice; a goroutine that has ended
   * has replied exactly once, with an acknowledgement the router received for its identifier or
   * with TIMEOUT for it; and its identifier is no longer in the pending table. Only a cancelled
   * session leaves a command behind.
   */
  lemma OneReplyPerCommand(steps: seq<Step>)
    ensures var s := Run(INITIAL, steps);
            && (forall id :: Replies(s.out, id) <= 1)
            && (forall j: nat :: j < |s.jobs| && s.jobs[j].phase.Ended? ==>
                  && Replies(s.out, s.jobs[j].id) == 1 && s.jobs[j].id !in s.pending
                  && ReplyOf(s.jobs[j]) in s.out && ReplyOf(s.jobs[j]).ack.commandId == s.jobs[j].id
                  && (ReplyOf(s.jobs[j]).ack in s.received || ReplyOf(s.jobs[j]).ack.status == TIMEOUT))
            && (forall j: nat :: j < |s.jobs| && !s.jobs[j].phase.Ended? ==> Replies(s.out, s.jobs[j].id) == 0)
            && (forall j: nat :: j < |s.jobs| && s.jobs[j].phase.Cancelled? ==> s.cancelled)
            && (forall id :: id in s.pending ==> s.pending[id] < |s.jobs| && InTable(s.jobs[s.pending[id]].phase))
  {
    RunKeeps(INITIAL, steps);
    var s := Run(INITIAL, steps);
    forall j: nat | j < |s.jobs|
      ensures JobOk(s.jobs[j], j, s)
    {}
  }

  // ---------------------------------------------------------------- every command is answered

  lemma RunOne(s: State, a: Step)
    ensures Run(s, [a]) == Next(s, a)
  {
    hide Next;
    assert Run(Next(s, a), [a][1..]) == Next(s, a);
  }

  lemma {:induction false} RunTwo(s: State, x: seq<Step>, y: seq<Step>)
    ensures Run(s, x + y) == Run(Run(s, x), y)
    decreases |x|
  {
    hide Next;
    if x == [] {
      assert x + y == y;
    } else {
      assert (x + y)[1..] == x[1..] + y;
      RunTwo(Next(s, x[0]), x[1..], y);
    }
  }

  /** How far a goroutine past its select has come: it removes its entry, replies, ends. */
  function Stage(phase: Phase): nat {
    match phase
    case Removing(_) => 1
    case Replying(_) => 2
    case Ended(_) => 3
    case _ => 0
  }

  lemma StageKept(s: State, step: Step, j: nat)
    requires j < |s.jobs| && Stage(s.jobs[j].phase) > 0
    ensures j < |Next(s, step).jobs| && Stage(Next(s, step).jobs[j].phase) >= Stage(s.jobs[j].phase)
    ensures Next(s, step).jobs[j].phase.got == s.jobs[j].phase.got
    ensures Next(s, step).jobs[j].id == s.jobs[j].id && Next(s, step).jobs[j].vehicleId == s.jobs[j].vehicleId
    ensures step == Remove(j) ==> Stage(Next(s, step).jobs[j].phase) >= 2
    ensures step == Answer(j) && Stage(s.jobs[j].phase) >= 2 ==> Stage(Next(s, step).jobs[j].phase) == 3
  {}

  lemma {:induction false} StageKeptRun(s: State, steps: seq<Step>, j: nat)
    requires j < |s.jobs| && Stage(s.jobs[j].phase) > 0
    ensures var t := Run(s, steps);
            && j < |t.jobs| && Stage(t.jobs[j].phase) >= Stage(s.jobs[j].phase)
            && t.jobs[j].phase.got == s.jobs[j].phase.got
            && t.jobs[j].id == s.jobs[j].id && t.jobs[j].vehicleId == s.jobs[j].vehicleId
    decreases |steps|
  {
    hide Next;
    if steps != [] {
      StageKept(s, steps[0], j);
      StageKeptRun(Next(s, steps[0]), steps[1..], j);
    }
  }

  /**
   * From every reachable state in which a goroutine has left its select, with an acknowledgement or
   * because its timer ran out, and whatever else runs in between: once it has run its two regions it
   * has ended, its command is no longer pending, and the operator has been told exactly once, either
   * that acknowledgement or a TIMEOUT (4) with the command's own id and vehicle.
   */
  lemma DecidedIsAnswered(before: seq<Step>, j: nat, between: seq<Step>, later: seq<Step>)
    requires var s := Run(INITIAL, before); j < |s.jobs| && s.jobs[j].phase.Removing?
    ensures var s := Run(INITIAL, before);
            var job, t := s.jobs[j], Run(s, between + [Remove(j)] + later + [Answer(j)]);
            && j < |t.jobs| && t.jobs[j].phase == Ended(job.phase.got) && t.jobs[j].id == job.id
            && job.id !in t.pending && Replies(t.out, job.id) == 1
            && match job.phase.got
               case Some(ack) => Reply(Routed, ack) in t.out
               case None => Reply(TimedOut, Ack(job.id, job.vehicleId, 4, [])) in t.out
  {
    hide Next, Consistent, Replies;
    var s := Run(INITIAL, before);
    RunTwo(s, between + [Remove(j)] + later, [Answer(j)]);
    RunTwo(s, between + [Remove(j)], later);
    RunTwo(s, between, [Remove(j)]);
    var a := Run(s, between);
    var b := Next(a, Remove(j));
    var c := Run(b, later);
    RunOne(a, Remove(j));
    RunOne(c, Answer(j));
    StageKeptRun(s, between, j);
    StageKept(a, Remove(j), j);
    StageKeptRun(b, later, j);
    StageKept(c, Answer(j), j);
    InitiallyConsistent();
    RunKeeps(INITIAL, before);
    RunKeeps(s, between + [Remove(j)] + later + [Answer(j)]);
    EndedIsAnswered(Next(c, Answer(j)), j);
  }

  lemma InitiallyConsistent()
    ensures Consistent(INITIAL)
  {}

  lemma EndedIsAnswered(t: State, j: nat)
    requires Consistent(t) && j < |t.jobs| && t.jobs[j].phase.Ended?
    ensures t.jobs[j].id !in t.pending && Replies(t.out, t.jobs[j].id) == 1
    ensures match t.jobs[j].phase.got
            case Some(ack) => Reply(Routed, ack) in t.out
            case None => Reply(TimedOut, Ack(t.jobs[j].id, t.jobs[j].vehicleId, 4, [])) in t.out
  {
    assert JobOk(t.jobs[j], j, t);
  }

  /** Undisturbed, the two regions remove the command and append the reply. */
  lemma DecidedEnds(s: State, j: nat)
    requires j < |s.jobs| && s.jobs[j].phase.Removing?
    ensures var job, t := s.jobs[j], Next(Next(s, Remove(j)), Answer(j));
            t == s.(jobs := s.jobs[j := job.(phase := Ended(job.phase.got))], pending := s.pending - {job.id},
                    out := s.out + [match job.phase.got
                                    case Some(ack) => Reply(Routed, ack)
                                    case None => Reply(TimedOut, Ack(job.id, job.vehicleId, 4, []))])
  {
    var t := Next(s, Remove(j));
    assert t.jobs[j] == s.jobs[j].(phase := Replying(s.jobs[j].phase.got));
  }

  lemma RunThree(s: State, a: Step, b: Step, c: Step)
    ensures Run(s, [a, b, c]) == Next(Next(Next(s, a), b), c)
  {
    hide Next;
    assert [a, b, c][1..] == [b, c] && [b, c][1..] == [c];
    RunOne(Next(Next(s, a), b), c);
  }

  /** Undisturbed, a goroutine whose timer runs out removes its command and appends one TIMEOUT (4). */
  lemma TimeoutIsAnswered(s: State, j: nat)
    requires j < |s.jobs| && s.jobs[j].phase.Waiting?
    ensures var t, job := Run(s, [TimerFires(j), Remove(j), Answer(j)]), s.jobs[j];
            t == s.(jobs := s.jobs[j := job.(phase := Ended(None))], pending := s.pending - {job.id},
                    out := s.out + [Reply(TimedOut, Ack(job.id, job.vehicleId, 4, []))])
  {
    RunThree(s, TimerFires(j), Remove(j), Answer(j));
    DecidedEnds(Next(s, TimerFires(j)), j);
  }

  /**
   * Undisturbed, an acknowledgement for a waiting command is routed to its goroutine, which takes it,
   * removes the command and appends that acknowledgement.
   */
  lemma AckIsAnswered(before: seq<Step>, j: nat, ack: Ack)
    requires var s := Run(INITIAL, before);
             && s.router.Idle? && j < |s.jobs| && s.jobs[j].phase.Waiting? && s.jobs[j].buffer.None?
             && s.jobs[j].id == ack.commandId
    ensures var s := Run(INITIAL, before);
            var t := Run(Run(s, [AckArrives(ack), Route, TakeAck(j)]), [Remove(j), Answer(j)]);
            t == s.(jobs := s.jobs[j := s.jobs[j].(phase := Ended(Some(ack)))], pending := s.pending - {ack.commandId},
                    received := s.received + {ack}, out := s.out + [Reply(Routed, ack)])
  {
    hide Next;
    RunKeeps(INITIAL, before);
    var s := Run(INITIAL, before);
    assert JobOk(s.jobs[j], j, s);
    AckIsTaken(s, j, ack);
    var u := Run(s, [AckArrives(ack), Route, TakeAck(j)]);
    assert [Remove(j), Answer(j)][1..] == [Answer(j)];
    RunOne(Next(u, Remove(j)), Answer(j));
    DecidedEnds(u, j);
  }

  lemma AckIsTaken(s: State, j: nat, ack: Ack)
    requires s.router.Idle? && j < |s.jobs| && s.jobs[j].phase.Waiting? && s.jobs[j].buffer.None?
    requires ack.commandId in s.pending && s.pending[ack.commandId] == j
    ensures Run(s, [AckArrives(ack), Route, TakeAck(j)])
         == s.(jobs := s.jobs[j := s.jobs[j].(phase := Removing(Some(ack)))], received := s.received + {ack})
  {
    RunThree(s, AckArrives(ack), Route, TakeAck(j));
    var u := Next(Next(s, AckArrives(ack)), Route);
    assert u == s.(jobs := s.jobs[j := s.jobs[j].(buffer := Some(ack))], received := s.received + {ack});
  }

  /** A command the loop takes is registered under a fresh identifier, with an empty channel and a waiting goroutine. */
  lemma PublishedWaits(before: seq<Step>, id: Id, vehicle: seq<Byte>)
    requires Run(INITIAL, before).loop.Ready? && id !in Run(INITIAL, before).used
    ensures var s := Run(INITIAL, before);
            var t := Next(Next(s, Publish(id, vehicle)), Register);
            && id !in s.pending
            && t == s.(pending := s.pending[id := |s.jobs|], jobs := s.jobs + [Job(id, vehicle, Waiting, None)],
                       used := s.used + {id})
  {
    RunKeeps(INITIAL, before);
    var s := Run(INITIAL, before);
    PendingIsUsed(s, id);
  }

  lemma PendingIsUsed(s: State, id: Id)
    requires Consistent(s)
    ensures id in s.pending ==> id in s.used
  {
    if id in s.pending {
      assert JobOk(s.jobs[s.pending[id]], s.pending[id], s);
    }
  }

  /**
   * A command that is refused, or cannot be published, is answered at once with one FAILED (3) that
   * carries its id and vehicle, and nothing is left pending for it.
   */
  lemma FailureIsAnswered(before: seq<Step>, id: Id, vehicle: seq<Byte>)
    requires Run(INITIAL, before).loop.Ready?
    ensures var s := Run(INITIAL, before);
            Next(s, Refuse(id, vehicle)) == s.(out := s.out + [Reply(Refused, Ack(id, vehicle, 3, []))])
    ensures var s := Run(INITIAL, before);
            id !in s.used ==>
              var t := Next(s, PublishFails(id, vehicle));
              && t == s.(used := s.used + {id}, out := s.out + [Reply(PublishFailed, Ack(id, vehicle, 3, []))])
              && id !in t.pending && Replies(t.out, id) == 1
  {
    RunKeeps(INITIAL, before);
    var s := Run(INITIAL, before);
    if id !in s.used {
      RepliesAppended(s.out, Reply(PublishFailed, Ack(id, vehicle, 3, [])));
      PendingIsUsed(s, id);
    }
  }

  lemma {:induction false} CancelledKeptRun(s: State, steps: seq<Step>, j: nat)
    requires j < |s.jobs| && s.jobs[j].phase.Cancelled?
    ensures j < |Run(s, steps).jobs| && Run(s, steps).jobs[j].phase.Cancelled?
    ensures Run(s, steps).jobs[j].id == s.jobs[j].id
    decreases |steps|
  {
    if steps != [] {
      CancelledKeptRun(Next(s, steps[0]), steps[1..], j);
    }
  }

  lemma CancelEnds(s: State, j: nat)
    requires j < |s.jobs| && s.jobs[j].phase.Waiting?
    ensures Next(Next(s, CancelSession), Cancel(j))
         == s.(cancelled := true, jobs := s.jobs[j := s.jobs[j].(phase := Cancelled)])
  {}

  /** When the session ends, a waiting goroutine ends without a reply, and none ever comes. */
  lemma CancelledIsSilent(before: seq<Step>, j: nat, after: seq<Step>)
    requires var s := Run(INITIAL, before); j < |s.jobs| && s.jobs[j].phase.Waiting?
    ensures var s := Run(INITIAL, before);
            var t := Next(Next(s, CancelSession), Cancel(j));
            && t == s.(cancelled := true, jobs := s.jobs[j := s.jobs[j].(phase := Cancelled)])
            && Replies(Run(t, after).out, s.jobs[j].id) == 0
  {
    hide Next, Consistent, Replies;
    InitiallyConsistent();
    RunKeeps(INITIAL, before);
    var s := Run(INITIAL, before);
    var t := Next(Next(s, CancelSession), Cancel(j));
    CancelEnds(s, j);
    StepKeeps(s, CancelSession);
    StepKeeps(Next(s, CancelSession), Cancel(j));
    RunKeeps(t, after);
    CancelledKeptRun(t, after, j);
    CancelledIsUnanswered(Run(t, after), j);
  }

  lemma CancelledIsUnanswered(t: State, j: nat)
    requires Consistent(t) && j < |t.jobs| && t.jobs[j].phase.Cancelled?
    ensures Replies(t.out, t.jobs[j].id) == 0
  {
    assert JobOk(t.jobs[j], j, t);
  }

  // ---------------------------------------------------------------- an acknowledgement in time is reported

  predicate Got(job: Job) {
    match job.phase
    case Waiting => job.buffer.Some?
    case Removing(got) => got.Some?
    case Replying(got) => got.Some?
    case Ended(got) => got.Some?
    case Cancelled => false
  }

  /** The goroutine has `ack`, or the router is about to send it to its empty channel. */
  ghost predicate Coming(s: State, j: nat, ack: Ack) {
    && j < |s.jobs|
    && match s.jobs[j].phase
       case Waiting =>
         || s.jobs[j].buffer == Some(ack)
         || (s.jobs[j].buffer.None? && s.router == Holding(ack, Some(j)))
       case Removing(got) => got == Some(ack)
       case Replying(got) => got == Some(ack)
       case Ended(got) => got == Some(ack)
       case Cancelled => false
  }

  lemma ComingKept(s: State, step: Step, j: nat, ack: Ack)
    requires Coming(s, j, ack) && step != TimerFires(j) && step != Cancel(j)
    ensures Coming(Next(s, step), j, ack) && Next(s, step).jobs[j].id == s.jobs[j].id
  {}

  lemma {:induction false} ComingKeptRun(s: State, steps: seq<Step>, j: nat, ack: Ack)
    requires Coming(s, j, ack) && TimerFires(j) !in steps && Cancel(j) !in steps
    ensures Coming(Run(s, steps), j, ack) && Run(s, steps).jobs[j].id == s.jobs[j].id
    decreases |steps|
  {
    hide Next;
    if steps != [] {
      ComingKept(s, steps[0], j, ack);
      assert steps[0] in steps;
      ComingKeptRun(Next(s, steps[0]), steps[1..], j, ack);
    }
  }

  /**
   * An acknowledgement the router reads while its command is registered and waiting is what the
   * operator hears, however the run goes on and whatever else is read for the command, unless the
   * channel holds an earlier one, which it then hears, or the command's timer or the session ends first.
   */
  lemma AckInTimeIsReported(before: seq<Step>, j: nat, ack: Ack, after: seq<Step>)
    requires var s := Run(INITIAL, before);
             s.router.Idle? && j < |s.jobs| && s.jobs[j].phase.Waiting? && s.jobs[j].id == ack.commandId
    requires TimerFires(j) !in after && Cancel(j) !in after
    requires var t := Run(Next(Run(INITIAL, before), AckArrives(ack)), after);
             j < |t.jobs| && t.jobs[j].phase.Ended?
    ensures var s, t := Run(INITIAL, before), Run(Next(Run(INITIAL, before), AckArrives(ack)), after);
            var heard := if s.jobs[j].buffer.Some? then s.jobs[j].buffer.value else ack;
            && ReplyOf(t.jobs[j]) == Reply(Routed, heard) && Reply(Routed, heard) in t.out
            && heard.commandId == ack.commandId && heard in t.received
  {
    RunKeeps(INITIAL, before);
    var s := Run(INITIAL, before);
    assert JobOk(s.jobs[j], j, s);
    var heard := if s.jobs[j].buffer.Some? then s.jobs[j].buffer.value else ack;
    var u := Next(s, AckArrives(ack));
    StepKeeps(s, AckArrives(ack));
    ComingKeptRun(u, after, j, heard);
    RunKeeps(u, after);
    var t := Run(u, after);
    assert JobOk(t.jobs[j], j, t);
  }

  /** Nothing has come for the goroutines of `id`, and nothing is on its way to one. */
  ghost predicate Silent(s: State, id: Id) {
    && (forall j: nat :: j < |s.jobs| && s.jobs[j].id == id ==> s.jobs[j].buffer.None? && !Got(s.jobs[j]))
    && (s.router.Holding? && s.router.ack.commandId == id ==> s.router.channel.None?)
  }

  lemma SilentKept(s: State, step: Step, id: Id)
    requires Consistent(s) && Silent(s, id)
    requires step.AckArrives? ==> step.ack.commandId != id
    ensures Silent(Next(s, step), id)
  {
    hide JobOk, Replies;
  }

  lemma {:induction false} SilentKeptRun(s: State, steps: seq<Step>, id: Id)
    requires Consistent(s) && Silent(s, id)
    requires forall ack :: AckArrives(ack) in steps ==> ack.commandId != id
    ensures Silent(Run(s, steps), id)
    decreases |steps|
  {
    hide Next, Consistent, Silent;
    if steps != [] {
      assert steps[0] in steps;
      SilentKept(s, steps[0], id);
      StepKeeps(s, steps[0]);
      SilentKeptRun(Next(s, steps[0]), steps[1..], id);
    }
  }

  /** The command of `id` has no goroutine yet: it is not published, or published and not registered. */
  predicate Unregistered(s: State, id: Id) {
    forall j :: 0 <= j < |s.jobs| ==> s.jobs[j].id != id
  }

  lemma UnregisteredIsSilent(s: State, ack: Ack)
    requires Consistent(s) && s.router.Idle? && Unregistered(s, ack.commandId)
    ensures Silent(Next(s, AckArrives(ack)), ack.commandId)
  {
    assert ack.commandId !in s.pending;
  }

  /**
   * Registration comes after publication, and an acknowledgement the router reads before it is
   * lost, in every interleaving of reading, routing and registering: unless another one is read,
   * whatever the operator hears about the command is TIMEOUT.
   */
  lemma EarlyAckIsLost(before: seq<Step>, ack: Ack, after: seq<Step>, j: nat)
    requires Run(INITIAL, before).router.Idle? && Unregistered(Run(INITIAL, before), ack.commandId)
    requires forall a :: AckArrives(a) in after ==> a.commandId != ack.commandId
    ensures var t := Run(Next(Run(INITIAL, before), AckArrives(ack)), after);
            && ack in Next(Run(INITIAL, before), AckArrives(ack)).received
            && (j < |t.jobs| && t.jobs[j].id == ack.commandId && t.jobs[j].phase.Ended? ==>
                  && ReplyOf(t.jobs[j]) in t.out
                  && ReplyOf(t.jobs[j]) == Reply(TimedOut, TimeoutAck(ack.commandId, t.jobs[j].vehicleId)))
  {
    var s := Run(INITIAL, before);
    RunKeeps(INITIAL, before);
    StepKeeps(s, AckArrives(ack));
    UnregisteredIsSilent(s, ack);
    SilentKeptRun(Next(s, AckArrives(ack)), after, ack.commandId);
    RunKeeps(Next(s, AckArrives(ack)), after);
    var t := Run(Next(s, AckArrives(ack)), after);
    if j < |t.jobs| {
      assert JobOk(t.jobs[j], j, t);
    }
  }

  /** The goroutine is registered and waits. */
  predicate InTime(s: State, j: nat) {
    j < |s.jobs| && s.jobs[j].phase.Waiting?
  }

  /** The goroutine has left its select without an acknowledgement. */
  predicate TooLate(s: State, j: nat) {
    j < |s.jobs| && !s.jobs[j].phase.Waiting? && !Got(s.jobs[j])
  }

  lemma {:induction false} TooLateKeptRun(s: State, steps: seq<Step>, j: nat)
    requires TooLate(s, j)
    ensures TooLate(Run(s, steps), j)
    decreases |steps|
  {
    if steps != [] {
      TooLateKeptRun(Next(s, steps[0]), steps[1..], j);
    }
  }

  lemma {:induction false} IdKeptRun(s: State, steps: seq<Step>, j: nat)
    requires j < |s.jobs|
    ensures j < |Run(s, steps).jobs| && Run(s, steps).jobs[j].id == s.jobs[j].id
    decreases |steps|
  {
    if steps != [] {
      IdKeptRun(Next(s, steps[0]), steps[1..], j);
    }
  }

  /** What the router has received, it has read. */
  lemma {:induction false} ReceivedWasRead(s: State, steps: seq<Step>, ack: Ack)
    requires ack in Run(s, steps).received
    ensures ack in s.received || AckArrives(ack) in steps
    decreases |steps|
  {
    if steps != [] {
      ReceivedWasRead(Next(s, steps[0]), steps[1..], ack);
      assert steps == [steps[0]] + steps[1..];
    }
  }

  /**
   * Exactly when an acknowledgement is reported: if it is the only one ever read for its command,
   * and the timer and the session do not run out on a goroutine that waits for it, what the operator
   * hears is this acknowledgement if and only if the goroutine was registered and waiting when the
   * router read it.
   */
  lemma ReportedExactlyIfInTime(before: seq<Step>, ack: Ack, after: seq<Step>, j: nat)
    requires Run(INITIAL, before).router.Idle?
    requires forall a :: AckArrives(a) in before + after ==> a.commandId != ack.commandId
    requires InTime(Run(INITIAL, before), j) ==> TimerFires(j) !in after && Cancel(j) !in after
    requires var t := Run(Next(Run(INITIAL, before), AckArrives(ack)), after);
             j < |t.jobs| && t.jobs[j].id == ack.commandId && t.jobs[j].phase.Ended?
    ensures var t := Run(Next(Run(INITIAL, before), AckArrives(ack)), after);
            && (ReplyOf(t.jobs[j]) == Reply(Routed, ack) <==> InTime(Run(INITIAL, before), j))
            && (ReplyOf(t.jobs[j]).source == Routed <==> InTime(Run(INITIAL, before), j))
  {
    hide Consistent, Next;
    var s := Run(INITIAL, before);
    var u := Next(s, AckArrives(ack));
    assert forall a :: AckArrives(a) in before ==> AckArrives(a) in before + after;
    assert forall a :: AckArrives(a) in after ==> AckArrives(a) in before + after;
    ReadKeepsJobs(s, ack);
    InitiallySilent(ack.commandId);
    if InTime(s, j) {
      IdKeptRun(u, after, j);
      AckInTimeIsReported(before, j, ack, after);
      var heard := ReplyOf(Run(u, after).jobs[j]).ack;
      ReceivedWasRead(u, after, heard);
      if heard in s.received {
        ReceivedWasRead(INITIAL, before, heard);
      }
    } else if j < |s.jobs| {
      IdKeptRun(u, after, j);
      SilentKeptRun(INITIAL, before, ack.commandId);
      TooLateKeptRun(u, after, j);
    } else {
      RunKeeps(INITIAL, before);
      StepKeeps(s, AckArrives(ack));
      RunKeeps(u, after);
      OthersHaveOtherIds(u, after, j);
      EarlyAckIsLost(before, ack, after, j);
    }
  }

  lemma ReadKeepsJobs(s: State, ack: Ack)
    ensures Next(s, AckArrives(ack)).jobs == s.jobs
    ensures Next(s, AckArrives(ack)).received <= s.received + {ack}
  {}

  lemma InitiallySilent(id: Id)
    ensures Consistent(INITIAL) && Silent(INITIAL, id)
  {}

  lemma OthersHaveOtherIds(s: State, steps: seq<Step>, j: nat)
    requires |s.jobs| <= j < |Run(s, steps).jobs| && Consistent(Run(s, steps))
    ensures Unregistered(s, Run(s, steps).jobs[j].id)
  {
    forall k: nat | k < |s.jobs|
      ensures s.jobs[k].id != Run(s, steps).jobs[j].id
    {
      IdKeptRun(s, steps, k);
    }
  }
}
