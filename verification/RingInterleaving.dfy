/**
 * The ring buffer's `push` and `pop` taken apart into their loads, slot accesses and fetch_adds,
 * interleaved in every possible way under sequential consistency.
 */
module RingInterleaving {
  import opened Bytes
  import opened RingBuffers

  /** Where the producer is: `Lapping` is about to advance the tail past a lapped frame. */
  datatype Producer = Idle | Writing(h: nat) | Written(h: nat) | Published(h: nat) | Lapping(h: nat)

  /** Where the consumer is; `Skip` has found a slot it will not use. */
  datatype Consumer =
    | Resting
    | LoadedTail(t: nat)
    | Reading(t: nat)
    | ReadingLength(t: nat)
    | Copying(t: nat, len: nat)
    | Copied(t: nat, bytes: seq<Byte>, clean: bool)
    | Skip(t: nat)
  {
    /** The consumer will add one to the tail. */
    predicate Pending() {
      !Resting? && !LoadedTail?
    }
  }

  /** What a pop handed out: frame number, bytes, and whether no lapping push had started by then. */
  datatype Delivery = Delivery(t: nat, bytes: seq<Byte>, clean: bool)

  /** `payloads` are the pushes that have started, in order. */
  datatype State = State(
    head: nat, tail: nat, slots: seq<seq<Byte>>, payloads: seq<seq<Byte>>,
    producer: Producer, consumer: Consumer, delivered: seq<Delivery>)

  datatype Event =
    | StartPush(payload: seq<Byte>)    // load head
    | Scribble(content: seq<Byte>)     // part of the slot is written
    | FinishWrite(content: seq<Byte>)  // the slot holds the frame
    | PublishHead                      // head.fetch_add
    | CheckLap                         // load tail and compare
    | DropOldest                       // tail.fetch_add by the producer
    | LoadTail
    | LoadHead
    | ReadMagic
    | ReadLength
    | CopyPayload
    | AdvanceTail                      // tail.fetch_add by the consumer

  ghost predicate Init(s: State, n: nat) {
    && n > 0 && |s.slots| == n
    && s.head == s.tail == 0 && s.payloads == [] && s.delivered == []
    && s.producer == Idle && s.consumer == Resting
  }

  function ProducerStep(s: State, e: Event): Option<State>
    requires |s.slots| > 0
  {
    var n := |s.slots|;
    match (e, s.producer)
    case (StartPush(p), Idle) => Some(s.(payloads := s.payloads + [p], producer := Writing(s.head)))
    case (Scribble(c), Writing(h)) => Some(s.(slots := s.slots[h % n := c]))
    case (FinishWrite(c), Writing(h)) =>
      if h < |s.payloads| && SlotHolds(c, s.payloads[h])
      then Some(s.(slots := s.slots[h % n := c], producer := Written(h))) else None
    case (PublishHead, Written(h)) => Some(s.(head := s.head + 1, producer := Published(h)))
    case (CheckLap, Published(h)) =>
      Some(s.(producer := if h + 1 > s.tail + n then Lapping(h) else Idle))
    case (DropOldest, Lapping(_)) => Some(s.(tail := s.tail + 1, producer := Idle))
    case _ => None
  }

  function ConsumerStep(s: State, e: Event): Option<State>
    requires |s.slots| > 0
  {
    var n := |s.slots|;
    match (e, s.consumer)
    case (LoadTail, Resting) => Some(s.(consumer := LoadedTail(s.tail)))
    case (LoadHead, LoadedTail(t)) => Some(s.(consumer := if t >= s.head then Resting else Reading(t)))
    case (ReadMagic, Reading(t)) =>
      var slot := s.slots[t % n];
      var good := |slot| >= HEADER_SIZE && slot[0..4] == LittleEndian(SLOT_MAGIC, 4);
      Some(s.(consumer := if good then ReadingLength(t) else Skip(t)))
    case (ReadLength, ReadingLength(t)) =>
      var slot := s.slots[t % n];
      var len := if |slot| >= HEADER_SIZE then FromLittleEndian(slot[4..8]) else |slot|;
      Some(s.(consumer := if HEADER_SIZE + len > |slot| then Skip(t) else Copying(t, len)))
    case (CopyPayload, Copying(t, len)) =>
      var slot := s.slots[t % n];
      if HEADER_SIZE + len > |slot| then None
      else Some(s.(consumer := Copied(t, slot[HEADER_SIZE..HEADER_SIZE + len], |s.payloads| <= t + n)))
    case (AdvanceTail, Copied(t, bytes, clean)) =>
      Some(s.(tail := s.tail + 1, consumer := Resting, delivered := s.delivered + [Delivery(t, bytes, clean)]))
    case (AdvanceTail, Skip(_)) => Some(s.(tail := s.tail + 1, consumer := Resting))
    case _ => None
  }

  predicate ByProducer(e: Event) {
    e.StartPush? || e.Scribble? || e.FinishWrite? || e.PublishHead? || e.CheckLap? || e.DropOldest?
  }

  /** One event, if the thread it belongs to is at that point. */
  function Step(s: State, e: Event): Option<State>
    requires |s.slots| > 0
  {
    if ByProducer(e) then ProducerStep(s, e) else ConsumerStep(s, e)
  }

  function Run(s: State, events: seq<Event>): Option<State>
    requires |s.slots| > 0
    decreases |events|
  {
    if events == [] then Some(s) else
    match Step(s, events[0])
    case None => None
    case Some(s') => if |s'.slots| > 0 then Run(s', events[1..]) else None
  }

  // ---------------------------------------------------------------- the invariant

  function LapPending(s: State): nat {
    if s.producer.Lapping? then 1 else 0
  }

  ghost predicate Counters(s: State) {
    var n := |s.slots|;
    && n > 0
    && (match s.producer
        case Idle => |s.payloads| == s.head <= s.tail + n
        case Writing(h) => h == s.head == |s.payloads| - 1 && s.head <= s.tail + n
        case Written(h) => h == s.head == |s.payloads| - 1 && s.head <= s.tail + n
        case Published(h) => h + 1 == s.head == |s.payloads| && s.head <= s.tail + n + 1
        case Lapping(h) => h + 1 == s.head == |s.payloads| && s.head <= s.tail + n + 1)
    && s.tail + LapPending(s) <= s.head + 1
    && (s.consumer.Pending() ==> s.consumer.t < s.head && s.consumer.t <= s.tail && s.tail + LapPending(s) <= s.head)
    && (s.consumer.LoadedTail? ==>
          && s.consumer.t <= s.tail
          && (s.tail + LapPending(s) <= s.consumer.t + 1 || s.tail + LapPending(s) + n <= s.head))
  }

  /** Frame `k` is published and no push that reuses its slot has started. */
  predicate Intact(s: State, k: nat) {
    k < s.head && |s.payloads| <= k + |s.slots|
  }

  ghost predicate Memory(s: State) {
    && |s.slots| > 0 && s.head <= |s.payloads|
    && (forall k: nat :: Intact(s, k) ==> SlotHolds(s.slots[k % |s.slots|], s.payloads[k]))
    && (s.producer.Written? ==>
          s.producer.h < |s.payloads| && SlotHolds(s.slots[s.producer.h % |s.slots|], s.payloads[s.producer.h]))
    && (forall k :: 0 <= k < |s.payloads| ==> |s.payloads[k]| < U32_LIMIT)
  }

  /** What the consumer holds is right as long as its frame is intact; skipping means it is not. */
  ghost predicate Reads(s: State) {
    match s.consumer
    case Copying(t, len) => Intact(s, t) ==> t < |s.payloads| && len == |s.payloads[t]|
    case Copied(t, bytes, clean) => clean ==> t < |s.payloads| && bytes == s.payloads[t]
    case Skip(t) => !Intact(s, t)
    case _ => true
  }

  ghost predicate Deliveries(s: State) {
    && (forall i :: 0 <= i < |s.delivered| ==> s.delivered[i].t < s.tail)
    && (forall i, j :: 0 <= i < j < |s.delivered| ==> s.delivered[i].t < s.delivered[j].t)
    && (!s.consumer.Resting? ==> forall i :: 0 <= i < |s.delivered| ==> s.delivered[i].t < s.consumer.t)
    && (forall i :: 0 <= i < |s.delivered| && s.delivered[i].clean ==>
          s.delivered[i].t < |s.payloads| && s.delivered[i].bytes == s.payloads[s.delivered[i].t])
  }

  ghost predicate Inv(s: State) {
    Counters(s) && Memory(s) && Reads(s) && Deliveries(s)
  }

  /** Payload lengths are written as 32-bit numbers. */
  predicate Fits(e: Event) {
    e.StartPush? ==> |e.payload| < U32_LIMIT
  }

  lemma CountersKept(s: State, e: Event)
    requires Counters(s) && Step(s, e).Some?
    ensures Counters(Step(s, e).value) && |Step(s, e).value.slots| == |s.slots|
  {
    hide SlotHolds;
  }

  lemma MemoryKept(s: State, e: Event)
    requires Counters(s) && Memory(s) && Fits(e) && Step(s, e).Some?
    ensures Memory(Step(s, e).value)
  {
    hide SlotHolds;
    var s' := Step(s, e).value;
    var n := |s.slots|;
    if e.Scribble? || e.FinishWrite? {
      forall k: nat | Intact(s', k)
        ensures SlotHolds(s'.slots[k % n], s'.payloads[k])
      {
        ResiduesDiffer(k, s.head, n);
        assert Intact(s, k);
      }
    } else {
      forall k: nat | Intact(s', k)
        ensures SlotHolds(s'.slots[k % n], s'.payloads[k])
      {
        assert Intact(s, k) || (e.PublishHead? && k == s.producer.h);
      }
    }
  }

  lemma ReadsKept(s: State, e: Event)
    requires Counters(s) && Memory(s) && Reads(s) && Step(s, e).Some?
    ensures Reads(Step(s, e).value)
  {
    hide SlotHolds;
    if e.ReadMagic? || e.ReadLength? || e.CopyPayload? {
      var t := s.consumer.t;
      if Intact(s, t) {
        IntactSlot(s.slots[t % |s.slots|], s.payloads[t]);
      }
    }
  }

  lemma IntactSlot(slot: seq<Byte>, payload: seq<Byte>)
    requires SlotHolds(slot, payload) && |payload| < U32_LIMIT
    ensures HEADER_SIZE + |payload| <= |slot|
    ensures slot[0..4] == LittleEndian(SLOT_MAGIC, 4)
    ensures FromLittleEndian(slot[4..8]) == |payload|
    ensures slot[HEADER_SIZE..HEADER_SIZE + |payload|] == payload
  {
    FixedWidths();
    LittleEndianRoundTrip(|payload|, 4);
  }

  lemma DeliveriesKept(s: State, e: Event)
    requires Counters(s) && Memory(s) && Reads(s) && Deliveries(s) && Step(s, e).Some?
    ensures Deliveries(Step(s, e).value)
  {
    hide SlotHolds, Memory;
  }

  lemma {:induction false} RunKeepsInv(s: State, events: seq<Event>)
    requires Inv(s) && (forall i :: 0 <= i < |events| ==> Fits(events[i])) && Run(s, events).Some?
    ensures Inv(Run(s, events).value)
    ensures |Run(s, events).value.slots| == |s.slots|
    decreases |events|
  {
    hide Counters, Memory, Reads, Deliveries, Step;
    if events != [] {
      CountersKept(s, events[0]);
      MemoryKept(s, events[0]);
      ReadsKept(s, events[0]);
      DeliveriesKept(s, events[0]);
      RunKeepsInv(Step(s, events[0]).value, events[1..]);
    }
  }

  // ---------------------------------------------------------------- what every interleaving keeps

  predicate PushInProgress(s: State) {
    s.producer.Published? || s.producer.Lapping?
  }

  /**
   * In every reachable state the tail is at most one past the head and at most one further behind
   * it than the capacity, and not even that once no push is between its two counter updates.
   */
  lemma CounterBounds(s: State, n: nat, events: seq<Event>)
    requires Init(s, n) && (forall i :: 0 <= i < |events| ==> Fits(events[i])) && Run(s, events).Some?
    ensures var r := Run(s, events).value;
            && r.head <= r.tail + n + 1
            && r.tail <= r.head + 1
            && (!PushInProgress(r) ==> r.head <= r.tail + n)
  {
    RunKeepsInv(s, events);
  }

  /**
   * In every run, frames are handed out in strictly increasing order, and a pop that finished
   * reading before any push that reuses its slot had started hands out exactly what was pushed.
   */
  lemma DeliveriesAreFrames(s: State, n: nat, events: seq<Event>)
    requires Init(s, n) && (forall i :: 0 <= i < |events| ==> Fits(events[i])) && Run(s, events).Some?
    ensures var r := Run(s, events).value;
            && (forall i, j :: 0 <= i < j < |r.delivered| ==> r.delivered[i].t < r.delivered[j].t)
            && (forall i :: 0 <= i < |r.delivered| && r.delivered[i].clean ==>
                  r.delivered[i].t < |r.payloads| && r.delivered[i].bytes == r.payloads[r.delivered[i].t])
  {
    RunKeepsInv(s, events);
  }

  /** A slot is skipped only if a push that reuses it has started: otherwise no frame is lost there. */
  lemma SkipsOnlyLapped(s: State, n: nat, events: seq<Event>)
    requires Init(s, n) && (forall i :: 0 <= i < |events| ==> Fits(events[i])) && Run(s, events).Some?
    requires Run(s, events).value.consumer.Skip?
    ensures var r := Run(s, events).value; |r.payloads| > r.consumer.t + n
  {
    RunKeepsInv(s, events);
  }

  // ---------------------------------------------------------------- when the tail stays behind the head

  ghost predicate AllFit(events: seq<Event>) {
    forall i :: 0 <= i < |events| ==> Fits(events[i])
  }

  /** The pops that have ended since the producer last checked for a lap. */
  function SinceCheck(events: seq<Event>): nat {
    if events == [] then 0 else
    var before := SinceCheck(events[..|events| - 1]);
    match events[|events| - 1]
    case CheckLap => 0
    case AdvanceTail => before + 1
    case _ => before
  }

  /** At most `b` pops end between the check for a lap and the drop that follows it. */
  ghost predicate DropsWithin(events: seq<Event>, b: nat) {
    forall i :: 0 <= i < |events| && events[i].DropOldest? ==> SinceCheck(events[..i]) <= b
  }

  /** A run and the run without its last event. */
  lemma {:induction false} RunLast(s: State, events: seq<Event>)
    requires |s.slots| > 0 && events != [] && Run(s, events).Some?
    ensures var m := Run(s, events[..|events| - 1]);
            m.Some? && |m.value.slots| > 0 && Step(m.value, events[|events| - 1]) == Run(s, events)
    decreases |events|
  {
    hide Step;
    var init := events[..|events| - 1];
    if |events| == 1 {
      assert init == [] && |events[1..]| == 0;
    } else {
      assert events[1..][..|events| - 2] == init[1..];
      RunLast(Step(s, events[0]).value, events[1..]);
    }
  }

  /** While the producer is lapping, the tail is behind by the whole buffer and one, less the pops since the check. */
  lemma {:induction false} LapWindow(s: State, n: nat, events: seq<Event>)
    requires Init(s, n) && AllFit(events) && Run(s, events).Some?
    ensures var r := Run(s, events).value;
            r.producer.Lapping? ==> r.tail + n + 1 == r.head + SinceCheck(events)
    decreases |events|
  {
    if events != [] {
      var init := events[..|events| - 1];
      RunLast(s, events);
      LapWindow(s, n, init);
      RunKeepsInv(s, init);
      LapWindowStep(Run(s, init).value, n, init, events[|events| - 1]);
      assert init + [events[|events| - 1]] == events;
    }
  }

  lemma SinceAppend(events: seq<Event>, e: Event)
    ensures SinceCheck(events + [e]) == match e
      case CheckLap => 0
      case AdvanceTail => SinceCheck(events) + 1
      case _ => SinceCheck(events)
  {
    assert (events + [e])[..|events|] == events;
  }

  lemma LapWindowStep(m: State, n: nat, events: seq<Event>, e: Event)
    requires Counters(m) && |m.slots| == n && Step(m, e).Some?
    requires m.producer.Lapping? ==> m.tail + n + 1 == m.head + SinceCheck(events)
    ensures var r := Step(m, e).value;
            r.producer.Lapping? ==> r.tail + n + 1 == r.head + SinceCheck(events + [e])
  {
    hide SlotHolds, SinceCheck;
    SinceAppend(events, e);
  }

  /** Every drop leaves the tail behind the head by the capacity, less the pops that ended since the check. */
  lemma DropMovesTail(s: State, n: nat, events: seq<Event>)
    requires Init(s, n) && AllFit(events) && Run(s, events + [DropOldest]).Some?
    ensures var r := Run(s, events + [DropOldest]).value; r.tail + n == r.head + SinceCheck(events)
  {
    var all := events + [DropOldest];
    RunLast(s, all);
    assert all[..|all| - 1] == events;
    LapWindow(s, n, events);
  }

  lemma InitiallyInv(s: State, n: nat)
    requires Init(s, n)
    ensures Inv(s)
  {}

  /** The tail is behind, and will be after the pop that is under way. */
  predicate Behind(s: State) {
    && s.tail <= s.head
    && (s.consumer.Pending() ==> s.tail < s.head)
    && (s.consumer.LoadedTail? ==> s.consumer.t == s.tail || s.tail < s.head)
  }

  lemma BehindKept(m: State, n: nat, e: Event)
    requires Counters(m) && |m.slots| == n && Behind(m) && Step(m, e).Some?
    requires e.DropOldest? ==> m.tail + 1 < m.head
    ensures Behind(Step(m, e).value)
  {
    hide SlotHolds;
  }

  lemma {:induction false} BehindThroughout(s: State, n: nat, events: seq<Event>, b: nat)
    requires Init(s, n) && AllFit(events) && Run(s, events).Some? && DropsWithin(events, b) && b < n
    ensures Behind(Run(s, events).value)
    decreases |events|
  {
    hide Step, Counters;
    if events != [] {
      var init, e := events[..|events| - 1], events[|events| - 1];
      RunLast(s, events);
      assert forall i :: 0 <= i < |init| ==> init[i] == events[i] && init[..i] == events[..i];
      BehindThroughout(s, n, init, b);
      InitiallyInv(s, n);
      RunKeepsInv(s, init);
      if e.DropOldest? {
        assert events == init + [DropOldest] && SinceCheck(events[..|events| - 1]) <= b;
        DropMovesTail(s, n, init);
        DropStep(Run(s, init).value);
      }
      BehindKept(Run(s, init).value, n, e);
    }
  }

  lemma DropStep(m: State)
    requires |m.slots| > 0 && Step(m, DropOldest).Some?
    ensures Step(m, DropOldest).value.tail == m.tail + 1 && Step(m, DropOldest).value.head == m.head
  {}

  ghost predicate Allowed(s: State, events: seq<Event>, b: nat)
    requires |s.slots| > 0
  {
    AllFit(events) && Run(s, events).Some? && DropsWithin(events, b)
  }

  /**
   * The documented bound, tail <= head, holds in every run in which at most `b` pops end between a
   * check for a lap and its drop, if and only if `b` is smaller than the number of slots. With
   * check and drop in one atomic step, `b` is 0 and the bound always holds.
   */
  lemma TailBehindHead(s: State, n: nat, b: nat)
    requires Init(s, n)
    ensures b < n <==> forall events :: Allowed(s, events, b) ==> Run(s, events).value.tail <= Run(s, events).value.head
  {
    if b < n {
      forall events | Allowed(s, events, b)
        ensures Run(s, events).value.tail <= Run(s, events).value.head
      {
        BehindThroughout(s, n, events, b);
      }
    } else {
      var events := TailCanPassHead(s, n);
      assert Allowed(s, events, b);
    }
  }

  // ---------------------------------------------------------------- the runs that break it

  /** The slot image of a payload. */
  function Image(p: seq<Byte>): (slot: seq<Byte>)
    requires |p| < U32_LIMIT
    ensures SlotHolds(slot, p)
  {
    LittleEndian(SLOT_MAGIC, 4) + LittleEndian(|p|, 4) + LittleEndian(0, 8) + p
  }

  /** No drop has happened yet. */
  ghost predicate Undropped(events: seq<Event>) {
    AllFit(events) && forall i :: 0 <= i < |events| ==> !events[i].DropOldest?
  }

  /** One more event at the end of a run. */
  lemma Then(s: State, events: seq<Event>, m: State, e: Event) returns (events': seq<Event>, m': State)
    requires |s.slots| > 0 && Run(s, events) == Some(m) && |m.slots| > 0
    requires Step(m, e).Some? && |Step(m, e).value.slots| > 0 && Fits(e)
    ensures events' == events + [e] && Step(m, e) == Some(m') && Run(s, events') == Some(m')
    ensures Undropped(events) && !e.DropOldest? ==> Undropped(events')
    ensures SinceCheck(events')
         == if e.CheckLap? then 0 else SinceCheck(events) + if e.AdvanceTail? then 1 else 0
  {
    events', m' := events + [e], Step(m, e).value;
    SinceAppend(events, e);
    RunThen(s, events, m, e, m');
  }

  lemma {:induction false} RunThen(s: State, events: seq<Event>, m: State, e: Event, m': State)
    requires |s.slots| > 0 && Run(s, events) == Some(m) && |m.slots| > 0
    requires Step(m, e) == Some(m') && |m'.slots| > 0
    ensures Run(s, events + [e]) == Some(m')
    decreases |events|
  {
    hide Step;
    if events == [] {
      assert events + [e] == [e] && [e][1..] == [];
    } else {
      assert (events + [e])[1..] == events[1..] + [e];
      RunThen(Step(s, events[0]).value, events[1..], m, e, m');
    }
  }

  /** A whole push, up to the check for a lap. */
  lemma PushOnce(s: State, events: seq<Event>, m: State, p: seq<Byte>) returns (events': seq<Event>, m': State)
    requires |s.slots| == |m.slots| > 0 && Run(s, events) == Some(m) && Undropped(events)
    requires m.producer == Idle && |m.payloads| == m.head && |p| < U32_LIMIT
    ensures Run(s, events') == Some(m') && Undropped(events') && SinceCheck(events') == 0
    ensures var n := |m.slots|;
            m' == m.(head := m.head + 1, slots := m.slots[m.head % n := Image(p)], payloads := m.payloads + [p],
                     producer := if m.head + 1 > m.tail + n then Lapping(m.head) else Idle)
  {
    hide SlotHolds, Undropped, SinceCheck, Run;
    events', m' := Then(s, events, m, StartPush(p));
    events', m' := Then(s, events', m', FinishWrite(Image(p)));
    events', m' := Then(s, events', m', PublishHead);
    events', m' := Then(s, events', m', CheckLap);
  }

  /** A pop up to the copy, with the slot holding `p`. */
  lemma ReadOnce(s: State, events: seq<Event>, m: State, p: seq<Byte>) returns (events': seq<Event>, m': State)
    requires |s.slots| == |m.slots| > 0 && Run(s, events) == Some(m) && Undropped(events)
    requires |p| < U32_LIMIT && m.consumer == Resting && m.tail < m.head && m.slots[m.tail % |m.slots|] == Image(p)
    ensures Run(s, events') == Some(m') && Undropped(events') && SinceCheck(events') == SinceCheck(events)
    ensures m' == m.(consumer := Copied(m.tail, p, |m.payloads| <= m.tail + |m.slots|))
  {
    hide SlotHolds, Undropped, SinceCheck, Run;
    IntactSlot(Image(p), p);
    events', m' := Then(s, events, m, LoadTail);
    events', m' := Then(s, events', m', LoadHead);
    events', m' := Then(s, events', m', ReadMagic);
    events', m' := Then(s, events', m', ReadLength);
    events', m' := Then(s, events', m', CopyPayload);
  }

  /** One step after the other. */
  ghost predicate Chain(states: seq<State>, events: seq<Event>) {
    && |states| == |events| + 1 && (forall s :: s in states ==> |s.slots| > 0)
    && forall i :: 0 <= i < |events| ==> Step(states[i], events[i]) == Some(states[i + 1])
  }

  lemma {:induction false} RunChain(states: seq<State>, events: seq<Event>)
    requires Chain(states, events)
    ensures Run(states[0], events) == Some(states[|events|])
    decreases |events|
  {
    hide Step;
    if events != [] {
      RunChain(states[1..], events[1..]);
    }
  }

  /**
   * Undisturbed, a pop waits on an empty buffer, and passes over a slot that does not start with AF
   * BE AD DE without handing anything out.
   */
  lemma PopSkips(m: State)
    requires |m.slots| > 0 && m.consumer == Resting
    ensures m.tail >= m.head ==> Run(m, [LoadTail, LoadHead]) == Some(m)
    ensures var slot := m.slots[m.tail % |m.slots|];
            m.tail < m.head && |slot| >= 16 && slot[0..4] != [0xAF, 0xBE, 0xAD, 0xDE] ==>
              Run(m, [LoadTail, LoadHead, ReadMagic, AdvanceTail]) == Some(m.(tail := m.tail + 1))
  {
    hide FromLittleEndian, Run;
    MagicOctets();
    var t, slot := m.tail, m.slots[m.tail % |m.slots|];
    var loaded, skip, after := m.(consumer := LoadedTail(t)), m.(consumer := Skip(t)), m.(tail := t + 1);
    if t >= m.head {
      RunChain([m, loaded, m], [LoadTail, LoadHead]);
    } else if |slot| >= 16 && slot[0..4] != [0xAF, 0xBE, 0xAD, 0xDE] {
      RunChain([m, loaded, m.(consumer := Reading(t)), skip, after], [LoadTail, LoadHead, ReadMagic, AdvanceTail]);
    }
  }

  /** It also passes over a slot whose length goes beyond it. */
  lemma PopSkipsOversize(m: State)
    requires |m.slots| > 0 && m.consumer == Resting && m.tail < m.head
    ensures var slot := m.slots[m.tail % |m.slots|];
            && |slot| >= 16 && slot[0..4] == [0xAF, 0xBE, 0xAD, 0xDE] && 16 + FromLittleEndian(slot[4..8]) > |slot| ==>
              Run(m, [LoadTail, LoadHead, ReadMagic, ReadLength, AdvanceTail]) == Some(m.(tail := m.tail + 1))
  {
    hide FromLittleEndian, Run;
    MagicOctets();
    var t, slot := m.tail, m.slots[m.tail % |m.slots|];
    var loaded, skip, after := m.(consumer := LoadedTail(t)), m.(consumer := Skip(t)), m.(tail := t + 1);
    if |slot| >= 16 && slot[0..4] == [0xAF, 0xBE, 0xAD, 0xDE] && 16 + FromLittleEndian(slot[4..8]) > |slot| {
      RunChain([m, loaded, m.(consumer := Reading(t)), m.(consumer := ReadingLength(t)), skip, after],
               [LoadTail, LoadHead, ReadMagic, ReadLength, AdvanceTail]);
    }
  }

  lemma SmallResidue(k: nat, n: nat)
    requires k < n
    ensures k % n == k
  {}

  lemma FullCircle(n: nat)
    requires n > 0
    ensures n % n == 0
  {}

  lemma NothingUndropped()
    ensures Undropped([])
  {}

  /** The first `k` pushes of a run, an empty payload and then equal ones, while nothing is popped. */
  lemma {:induction false} PushMany(s: State, n: nat, k: nat) returns (events: seq<Event>, m: State)
    requires Init(s, n) && k <= n
    ensures Run(s, events) == Some(m) && Undropped(events)
    ensures m == State(k, 0, m.slots, m.payloads, Idle, Resting, []) && |m.slots| == n && |m.payloads| == k
    ensures k > 0 ==> m.payloads[0] == [] && m.slots[0] == Image([])
    ensures forall j :: 0 < j < k ==> m.slots[j] == Image([7])
    decreases k
  {
    hide SlotHolds, Image, Undropped, SinceCheck;
    if k == 0 {
      events, m := [], s;
      NothingUndropped();
    } else {
      events, m := PushMany(s, n, k - 1);
      SmallResidue(k - 1, n);
      events, m := PushOnce(s, events, m, if k == 1 then [] else [7]);
    }
  }

  /** Then one push more than fit, and `k` pops before the oldest frame is dropped. */
  lemma {:induction false} PopMany(s: State, n: nat, k: nat) returns (events: seq<Event>, m: State)
    requires Init(s, n) && k <= n
    ensures Run(s, events) == Some(m) && Undropped(events) && SinceCheck(events) == k
    ensures m == State(n + 1, k, m.slots, m.payloads, Lapping(n), Resting, m.delivered)
    ensures |m.slots| == n && |m.payloads| == n + 1 && m.payloads[0] == []
    ensures forall j :: 0 <= j < n ==> m.slots[j] == Image([7])
    ensures |m.delivered| == k && (k > 0 ==> m.delivered[0] == Delivery(0, [7], false))
    decreases k
  {
    hide SlotHolds, Image, Undropped, SinceCheck, Run;
    if k == 0 {
      events, m := PushMany(s, n, n);
      FullCircle(n);
      events, m := PushOnce(s, events, m, [7]);
    } else {
      events, m := PopMany(s, n, k - 1);
      SmallResidue(k - 1, n);
      events, m := PopOnce(s, events, m, [7]);
    }
  }

  /** A whole pop. */
  lemma PopOnce(s: State, events: seq<Event>, m: State, p: seq<Byte>) returns (events': seq<Event>, m': State)
    requires |s.slots| == |m.slots| > 0 && Run(s, events) == Some(m) && Undropped(events)
    requires |p| < U32_LIMIT && m.consumer == Resting && m.tail < m.head && m.slots[m.tail % |m.slots|] == Image(p)
    ensures Run(s, events') == Some(m') && Undropped(events') && SinceCheck(events') == SinceCheck(events) + 1
    ensures m' == m.(tail := m.tail + 1,
                     delivered := m.delivered + [Delivery(m.tail, p, |m.payloads| <= m.tail + |m.slots|)])
  {
    hide SlotHolds, Image, Undropped, SinceCheck, Run;
    events', m' := ReadOnce(s, events, m, p);
    events', m' := Then(s, events', m', AdvanceTail);
  }

  /**
   * For every number of slots: when the consumer ends as many pops as there are slots between the
   * check for a lap and the drop, and is about to end one more, the tail passes the head. The first
   * of these pops has handed out the bytes of a later push.
   */
  lemma TailCanPassHead(s: State, n: nat) returns (events: seq<Event>)
    requires Init(s, n)
    ensures AllFit(events) && Run(s, events).Some? && DropsWithin(events, n)
    ensures var r := Run(s, events).value;
            && r.tail == r.head + 1
            && |r.delivered| > 0 && !r.delivered[0].clean
            && r.delivered[0].t < |r.payloads| && r.delivered[0].bytes != r.payloads[r.delivered[0].t]
  {
    hide SlotHolds, Image, SinceCheck, Run;
    var m: State;
    events, m := PopMany(s, n, n);
    FullCircle(n);
    events, m := ReadOnce(s, events, m, [7]);
    ghost var before := events;
    events, m := Then(s, events, m, DropOldest);
    events, m := Then(s, events, m, AdvanceTail);
    assert events == before + [DropOldest, AdvanceTail];
    forall i | 0 <= i < |events| && events[i].DropOldest?
      ensures SinceCheck(events[..i]) <= n
    {
      assert i == |before| && events[..i] == before;
    }
  }

  // ---------------------------------------------------------------- frames passed unread

  /** The drops since the consumer last loaded the tail. */
  function DropsSinceLoad(events: seq<Event>): nat {
    if events == [] then 0 else
    var before := DropsSinceLoad(events[..|events| - 1]);
    match events[|events| - 1]
    case LoadTail => 0
    case DropOldest => before + 1
    case _ => before
  }

  lemma DropsAppend(events: seq<Event>, e: Event)
    ensures DropsSinceLoad(events + [e]) == match e
      case LoadTail => 0
      case DropOldest => DropsSinceLoad(events) + 1
      case _ => DropsSinceLoad(events)
  {
    assert (events + [e])[..|events|] == events;
  }

  /** A pop under way is behind the tail by the drops since it loaded the tail. */
  lemma {:induction false} PopLag(s: State, n: nat, events: seq<Event>)
    requires Init(s, n) && AllFit(events) && Run(s, events).Some?
    ensures var r := Run(s, events).value;
            !r.consumer.Resting? ==> r.tail == r.consumer.t + DropsSinceLoad(events)
    decreases |events|
  {
    if events != [] {
      var init := events[..|events| - 1];
      RunLast(s, events);
      PopLag(s, n, init);
      PopLagStep(Run(s, init).value, init, events[|events| - 1]);
      assert init + [events[|events| - 1]] == events;
    }
  }

  lemma PopLagStep(m: State, events: seq<Event>, e: Event)
    requires |m.slots| > 0 && Step(m, e).Some?
    requires !m.consumer.Resting? ==> m.tail == m.consumer.t + DropsSinceLoad(events)
    ensures var r := Step(m, e).value;
            !r.consumer.Resting? ==> r.tail == r.consumer.t + DropsSinceLoad(events + [e])
  {
    hide SlotHolds, DropsSinceLoad;
    DropsAppend(events, e);
  }

  /** A pop of frame `k` has been handed out. */
  ghost predicate Delivered(s: State, k: nat) {
    exists i :: 0 <= i < |s.delivered| && s.delivered[i].t == k
  }

  /** A pop of frame `k` is under way. */
  predicate Popping(s: State, k: nat) {
    !s.consumer.Resting? && s.consumer.t == k
  }

  /** Frame `k` is still to come, in hand, handed out, or its slot has been given to a later push. */
  ghost predicate Accounted(s: State, k: nat) {
    s.tail <= k || Popping(s, k) || Delivered(s, k) || |s.payloads| > k + |s.slots|
  }

  /** Step `e` loses a frame: from then on it is neither, and no later push has needed its slot. */
  ghost predicate Loses(m: State, e: Event)
    requires |m.slots| > 0
  {
    Step(m, e).Some? && exists k: nat :: Accounted(m, k) && !Accounted(Step(m, e).value, k)
  }

  /**
   * The schedules that do it: a drop after a pop has ended since the check, unless the pop under way
   * is of the very frame; a pop that ends after a drop, unless the next slot is already being
   * reused; a pop that gives up after a drop.
   */
  predicate LossSchedule(m: State, events: seq<Event>, e: Event) {
    || (e.DropOldest? && SinceCheck(events) >= 1 && (m.consumer.Resting? || DropsSinceLoad(events) > 0))
    || (e.AdvanceTail? && DropsSinceLoad(events) > 0 && |m.payloads| <= m.tail + |m.slots|)
    || (e.LoadHead? && DropsSinceLoad(events) > 0 && m.consumer.LoadedTail? && m.consumer.t >= m.head)
  }

  lemma DeliveredGrows(m: State, e: Event, k: nat)
    requires |m.slots| > 0 && Step(m, e).Some?
    ensures var r := Step(m, e).value;
            Delivered(r, k) <==> Delivered(m, k) || (e.AdvanceTail? && m.consumer.Copied? && m.consumer.t == k)
  {
    hide SlotHolds;
    var r := Step(m, e).value;
    if e.AdvanceTail? && m.consumer.Copied? {
      assert r.delivered[|m.delivered|].t == m.consumer.t;
      assert forall i :: 0 <= i < |m.delivered| ==> r.delivered[i] == m.delivered[i];
    } else {
      assert r.delivered == m.delivered;
    }
  }

  lemma NotDelivered(m: State, k: nat)
    requires Deliveries(m) && (m.tail <= k || (!m.consumer.Resting? && m.consumer.t <= k))
    ensures !Delivered(m, k)
  {}

  /** A schedule that loses, and the frame that is lost. */
  lemma ScheduleLoses(m: State, events: seq<Event>, e: Event)
    requires Inv(m) && Step(m, e).Some? && LossSchedule(m, events, e)
    requires m.producer.Lapping? ==> m.tail + |m.slots| + 1 == m.head + SinceCheck(events)
    requires !m.consumer.Resting? ==> m.tail == m.consumer.t + DropsSinceLoad(events)
    ensures Loses(m, e)
  {
    hide SlotHolds, Delivered, SinceCheck, DropsSinceLoad, Deliveries, Memory, Reads;
    var k := if e.LoadHead? then m.consumer.t else m.tail;
    DeliveredGrows(m, e, k);
    NotDelivered(m, k);
    assert Accounted(m, k) && !Accounted(Step(m, e).value, k);
  }

  lemma OtherStepsAccount(m: State, events: seq<Event>, e: Event, k: nat)
    requires Inv(m) && Step(m, e).Some? && !LossSchedule(m, events, e) && Accounted(m, k)
    requires m.producer.Lapping? ==> m.tail + |m.slots| + 1 == m.head + SinceCheck(events)
    requires !m.consumer.Resting? ==> m.tail == m.consumer.t + DropsSinceLoad(events)
    ensures Accounted(Step(m, e).value, k)
  {
    hide SlotHolds, Delivered, SinceCheck, DropsSinceLoad, Deliveries, Memory;
    DeliveredGrows(m, e, k);
  }

  /** In every run, a step loses a frame if and only if it is one of those schedules. */
  lemma LossExactly(s: State, n: nat, events: seq<Event>, e: Event)
    requires Init(s, n) && AllFit(events) && Run(s, events).Some?
    requires |Run(s, events).value.slots| > 0 && Step(Run(s, events).value, e).Some?
    ensures Loses(Run(s, events).value, e) <==> LossSchedule(Run(s, events).value, events, e)
  {
    hide Step, Counters, Memory, Reads, Deliveries, Accounted, LossSchedule;
    var m := Run(s, events).value;
    InitiallyInv(s, n);
    RunKeepsInv(s, events);
    LapWindow(s, n, events);
    PopLag(s, n, events);
    if LossSchedule(m, events, e) {
      ScheduleLoses(m, events, e);
    } else {
      forall k: nat | Accounted(m, k)
        ensures Accounted(Step(m, e).value, k)
      {
        OtherStepsAccount(m, events, e, k);
      }
    }
  }

  /** None of the schedules occurs in the run. */
  ghost predicate LossFree(s: State, events: seq<Event>)
    requires |s.slots| > 0
    decreases |events|
  {
    events == [] ||
    (var init := events[..|events| - 1];
     LossFree(s, init) && (Run(s, init).Some? ==> !LossSchedule(Run(s, init).value, init, events[|events| - 1])))
  }

  /**
   * Over every run without those schedules, every frame the tail has passed was delivered, is in
   * hand, or has given its slot to a later push.
   */
  lemma {:induction false} NothingLost(s: State, n: nat, events: seq<Event>)
    requires Init(s, n) && AllFit(events) && Run(s, events).Some? && LossFree(s, events)
    ensures forall k: nat :: Accounted(Run(s, events).value, k)
    decreases |events|
  {
    hide Step, LossSchedule, Accounted;
    if events == [] {
      FreshAccounted(s, n);
    } else {
      var init, e := events[..|events| - 1], events[|events| - 1];
      RunLast(s, events);
      NothingLost(s, n, init);
      LossExactly(s, n, init, e);
    }
  }

  lemma FreshAccounted(s: State, n: nat)
    requires Init(s, n)
    ensures forall k: nat :: Accounted(s, k)
  {}

  /** The tail is past frame `k`, which was not handed out and is not being popped. */
  ghost predicate Gone(s: State, k: nat) {
    k < s.tail && !Popping(s, k) && !Delivered(s, k)
  }

  lemma GoneStep(m: State, e: Event, k: nat)
    requires |m.slots| > 0 && Gone(m, k) && Step(m, e).Some?
    ensures Gone(Step(m, e).value, k) && |Step(m, e).value.slots| > 0
  {
    hide SlotHolds, Delivered;
    DeliveredGrows(m, e, k);
  }

  /** A lost frame is lost for good: no continuation ever hands it out. */
  lemma {:induction false} LostForGood(m: State, after: seq<Event>, k: nat)
    requires |m.slots| > 0 && Gone(m, k) && Run(m, after).Some?
    ensures Gone(Run(m, after).value, k)
    decreases |after|
  {
    hide Step, Gone;
    if after != [] {
      GoneStep(m, after[0], k);
      LostForGood(Step(m, after[0]).value, after[1..], k);
    }
  }

  lemma UnaccountedIsGone(s: State, k: nat)
    ensures !Accounted(s, k) ==> Gone(s, k)
  {}

  /**
   * Each of those schedules loses a frame that was to come or in hand, and however the run goes on
   * it is never handed out.
   */
  lemma LossIsFinal(s: State, n: nat, before: seq<Event>, e: Event, after: seq<Event>)
    requires Init(s, n) && AllFit(before) && Run(s, before).Some?
    requires |Run(s, before).value.slots| > 0 && Step(Run(s, before).value, e).Some?
    requires LossSchedule(Run(s, before).value, before, e)
    requires |Step(Run(s, before).value, e).value.slots| > 0 && Run(Step(Run(s, before).value, e).value, after).Some?
    ensures exists k: nat ::
              Accounted(Run(s, before).value, k) && Gone(Run(Step(Run(s, before).value, e).value, after).value, k)
  {
    hide Step, LossSchedule, Accounted, Gone;
    var m := Run(s, before).value;
    LossExactly(s, n, before, e);
    var k: nat :| Accounted(m, k) && !Accounted(Step(m, e).value, k);
    UnaccountedIsGone(Step(m, e).value, k);
    LostForGood(Step(m, e).value, after, k);
  }

  /** The tail moves past a whole frame, and not because that frame has just been read. */
  ghost predicate PassesUnread(m: State, e: Event)
    requires |m.slots| > 0
  {
    && Step(m, e).Some? && Step(m, e).value.tail == m.tail + 1 && Intact(m, m.tail)
    && !(e.AdvanceTail? && m.consumer.Copied? && m.consumer.t == m.tail)
  }

  /** In every run, exactly when the tail passes a published frame that is whole and not the one just read. */
  lemma PassesExactly(s: State, n: nat, events: seq<Event>, e: Event)
    requires Init(s, n) && AllFit(events) && Run(s, events).Some?
    requires |Run(s, events).value.slots| > 0 && Step(Run(s, events).value, e).Some?
    ensures var m := Run(s, events).value;
            PassesUnread(m, e) <==>
              || (e.DropOldest? && 1 <= SinceCheck(events) <= n)
              || (e.AdvanceTail? && DropsSinceLoad(events) > 0 && Intact(m, m.tail))
  {
    hide SlotHolds, Memory, Deliveries, SinceCheck, DropsSinceLoad;
    InitiallyInv(s, n);
    RunKeepsInv(s, events);
    LapWindow(s, n, events);
    PopLag(s, n, events);
  }

  /**
   * The failing runs, for every number of slots. Here the producer drops frame 1, which nobody has
   * read or is reading and nothing has overwritten: one pop has ended since the check for a lap.
   */
  lemma FrameDroppedUnread(s: State, n: nat) returns (events: seq<Event>)
    requires Init(s, n)
    ensures AllFit(events) && Run(s, events).Some?
    ensures var r := Run(s, events).value;
            r.consumer == Resting && Gone(r, 1) && Intact(r, 1)
  {
    hide SlotHolds, Image, SinceCheck, Run;
    var m: State;
    events, m := PopMany(s, n, 1);
    UndroppedFits(events);
    ghost var before := events;
    events, m := Then(s, events, m, DropOldest);
    assert events == before + [DropOldest];
  }

  /**
   * Here a pop has copied frame 0, a push laps and drops it, and the end of the pop takes the tail
   * past frame 1.
   */
  lemma FrameLostUnread(s: State, n: nat) returns (events: seq<Event>)
    requires Init(s, n)
    ensures AllFit(events) && Run(s, events).Some?
    ensures var r := Run(s, events).value;
            r.consumer == Resting && Gone(r, 1) && Intact(r, 1)
  {
    hide SlotHolds, Image, SinceCheck, Run;
    var m: State;
    events, m := PushMany(s, n, n);
    SmallResidue(0, n);
    events, m := ReadOnce(s, events, m, []);
    FullCircle(n);
    events, m := PushOnce(s, events, m, [7]);
    UndroppedFits(events);
    ghost var before := events;
    events, m := Then(s, events, m, DropOldest);
    events, m := Then(s, events, m, AdvanceTail);
    assert events == before + [DropOldest] + [AdvanceTail];
  }

  /**
   * Here every frame has been popped since the check, a pop has loaded the tail, and gives up after
   * the drop: the next frame to be pushed is never read.
   */
  lemma FrameGivenUp(s: State, n: nat) returns (events: seq<Event>)
    requires Init(s, n)
    ensures AllFit(events) && Run(s, events).Some?
    ensures var r := Run(s, events).value;
            r.consumer == Resting && Gone(r, r.head) && |r.payloads| == r.head
  {
    hide SlotHolds, Image, SinceCheck, Run;
    var m: State;
    events, m := PopMany(s, n, n);
    FullCircle(n);
    events, m := PopOnce(s, events, m, [7]);
    events, m := Then(s, events, m, LoadTail);
    UndroppedFits(events);
    DeliveredBelow(s, n, events);
    NotDelivered(m, m.head);
    ghost var before := events;
    events, m := Then(s, events, m, DropOldest);
    events, m := Then(s, events, m, LoadHead);
    assert events == before + [DropOldest] + [LoadHead];
  }

  lemma DeliveredBelow(s: State, n: nat, events: seq<Event>)
    requires Init(s, n) && AllFit(events) && Run(s, events).Some?
    ensures Deliveries(Run(s, events).value)
  {
    RunKeepsInv(s, events);
  }

  lemma UndroppedFits(events: seq<Event>)
    requires Undropped(events)
    ensures AllFit(events)
  {}

  // ---------------------------------------------------------------- without a lap

  /** Every push starts while a slot is free. */
  ghost predicate NeverFull(s: State, events: seq<Event>)
    requires |s.slots| > 0
    decreases |events|
  {
    events == [] ||
    ((events[0].StartPush? ==> s.head < s.tail + |s.slots|) &&
     match Step(s, events[0])
     case None => true
     case Some(s') => |s'.slots| > 0 ==> NeverFull(s', events[1..]))
  }

  /** Everything delivered so far is right, and so is what the consumer holds. */
  ghost predicate Lossless(s: State) {
    && |s.payloads| <= s.tail + |s.slots| && s.tail <= s.head && !s.producer.Lapping?
    && (!s.consumer.Resting? ==> s.consumer.t == s.tail && !s.consumer.Skip?)
    && (s.consumer.Copied? ==> s.consumer.clean)
    && |s.delivered| == s.tail
    && forall i :: 0 <= i < |s.delivered| ==> s.delivered[i].t == i && s.delivered[i].clean
  }

  lemma LosslessKept(s: State, e: Event)
    requires Inv(s) && Lossless(s) && Fits(e) && Step(s, e).Some?
    requires e.StartPush? ==> s.head < s.tail + |s.slots|
    ensures Lossless(Step(s, e).value)
  {
    hide SlotHolds, Memory, Deliveries;
    ReadsHolds(s, e);
  }

  lemma ReadsHolds(s: State, e: Event)
    requires Inv(s) && Step(s, e).Some?
    ensures Reads(Step(s, e).value) && Counters(Step(s, e).value)
  {
    CountersKept(s, e);
    ReadsKept(s, e);
  }

  lemma {:induction false} LosslessRun(s: State, events: seq<Event>)
    requires Inv(s) && Lossless(s) && AllFit(events) && Run(s, events).Some? && NeverFull(s, events)
    ensures Lossless(Run(s, events).value)
    decreases |events|
  {
    hide Counters, Memory, Reads, Deliveries, Step, Lossless;
    if events != [] {
      var e := events[0];
      CountersKept(s, e);
      MemoryKept(s, e);
      ReadsKept(s, e);
      DeliveriesKept(s, e);
      LosslessKept(s, e);
      LosslessRun(Step(s, e).value, events[1..]);
    }
  }

  /**
   * In every interleaving in which no push starts on a full buffer, the pops hand out exactly the
   * pushed frames: delivery i is frame i with its bytes, and none is lost or skipped.
   */
  lemma DeliversEverything(s: State, n: nat, events: seq<Event>)
    requires Init(s, n) && AllFit(events) && Run(s, events).Some? && NeverFull(s, events)
    ensures var r := Run(s, events).value;
            && |r.delivered| == r.tail <= |r.payloads|
            && forall i :: 0 <= i < |r.delivered| ==> r.delivered[i] == Delivery(i, r.payloads[i], true)
  {
    LosslessRun(s, events);
    RunKeepsInv(s, events);
  }
}
