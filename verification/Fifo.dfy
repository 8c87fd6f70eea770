/**
 * The bounded queue that the agent's ring buffer is meant to be: when it is full, a push discards
 * the oldest frame. Frames are numbered by the order in which they were pushed.
 */
module Fifos {

  datatype Op<T> = Push(frame: T) | Pop

  /** `log` is every frame ever pushed; `popped` and `dropped` number those that left, in order. */
  datatype Fifo<T> = Fifo(log: seq<T>, tail: nat, popped: seq<nat>, dropped: seq<nat>)
  {
    function Contents(): seq<T>
      requires tail <= |log|
    {
      log[tail..]
    }
  }

  function Empty<T>(): Fifo<T> {
    Fifo([], 0, [], [])
  }

  function DoPush<T>(q: Fifo<T>, frame: T, capacity: nat): Fifo<T> {
    if |q.log| + 1 > q.tail + capacity
    then q.(log := q.log + [frame], tail := q.tail + 1, dropped := q.dropped + [q.tail])
    else q.(log := q.log + [frame])
  }

  function DoPop<T>(q: Fifo<T>): Fifo<T> {
    if q.tail >= |q.log| then q else q.(tail := q.tail + 1, popped := q.popped + [q.tail])
  }

  function Step<T>(q: Fifo<T>, op: Op<T>, capacity: nat): Fifo<T> {
    match op
    case Push(frame) => DoPush(q, frame, capacity)
    case Pop => DoPop(q)
  }

  function Run<T>(q: Fifo<T>, ops: seq<Op<T>>, capacity: nat): Fifo<T>
    decreases |ops|
  {
    if ops == [] then q else Run(Step(q, ops[0], capacity), ops[1..], capacity)
  }

  /** The frames pushed by a list of operations. */
  function Pushed<T>(ops: seq<Op<T>>): seq<T> {
    if ops == [] then [] else (if ops[0].Push? then [ops[0].frame] else []) + Pushed(ops[1..])
  }

  predicate Increasing(s: seq<nat>) {
    forall i, j :: 0 <= i < j < |s| ==> s[i] < s[j]
  }

  /**
   * Every frame number below the tail was popped or dropped, and not both; the queue never holds
   * more than its capacity; frames leave in the order of their numbers.
   */
  ghost predicate Consistent<T>(q: Fifo<T>, capacity: nat) {
    && q.tail <= |q.log| <= q.tail + capacity
    && Increasing(q.popped) && Increasing(q.dropped)
    && (forall n :: n in q.popped || n in q.dropped ==> n < q.tail)
    && (forall n :: 0 <= n < q.tail ==> (n in q.popped <==> n !in q.dropped))
    && |q.popped| + |q.dropped| == q.tail
  }

  lemma Bounds<T>(q: Fifo<T>, capacity: nat)
    requires Consistent(q, capacity)
    ensures q.tail <= |q.log| <= q.tail + capacity
  {}

  lemma StepConsistent<T>(q: Fifo<T>, op: Op<T>, capacity: nat)
    requires capacity > 0 && Consistent(q, capacity)
    ensures Consistent(Step(q, op, capacity), capacity)
  {
    Extend(q.popped, q.tail);
    Extend(q.dropped, q.tail);
  }

  lemma Extend(s: seq<nat>, n: nat)
    requires Increasing(s) && forall x :: x in s ==> x < n
    ensures Increasing(s + [n])
    ensures forall x :: x in s + [n] <==> x in s || x == n
  {
    forall i | 0 <= i < |s|
      ensures s[i] < n
    {
      assert s[i] in s;
    }
  }

  lemma {:induction false} RunConsistent<T>(q: Fifo<T>, ops: seq<Op<T>>, capacity: nat)
    requires capacity > 0 && Consistent(q, capacity)
    ensures Consistent(Run(q, ops, capacity), capacity)
    ensures Run(q, ops, capacity).log == q.log + Pushed(ops)
    decreases |ops|
  {
    hide Consistent;
    if ops == [] {
      assert q.log + [] == q.log;
    } else {
      StepConsistent(q, ops[0], capacity);
      RunConsistent(Step(q, ops[0], capacity), ops[1..], capacity);
      var first := if ops[0].Push? then [ops[0].frame] else [];
      assert Step(q, ops[0], capacity).log == q.log + first;
      assert q.log + first + Pushed(ops[1..]) == q.log + (first + Pushed(ops[1..]));
    }
  }

  /** One push or pop as a change of contents: drop the oldest when full, deliver the oldest. */
  lemma StepIsBoundedQueue<T>(q: Fifo<T>, op: Op<T>, capacity: nat)
    requires capacity > 0 && Consistent(q, capacity)
    ensures Consistent(Step(q, op, capacity), capacity)
    ensures var c, c' := q.Contents(), Step(q, op, capacity).Contents();
            match op
            case Push(x) => c' == (if |c| == capacity then c[1..] else c) + [x]
            case Pop => if c == [] then c' == [] else c' == c[1..]
  {
    StepConsistent(q, op, capacity);
  }

  /**
   * In any run, the frames numbered between two frames delivered one after the other are exactly
   * the ones dropped in between, so the gap in the numbers is the number of drops.
   */
  lemma GapsAreDrops<T>(ops: seq<Op<T>>, capacity: nat, k: nat)
    requires capacity > 0
    requires k + 1 < |Run(Empty<T>(), ops, capacity).popped|
    ensures var q := Run(Empty<T>(), ops, capacity);
            var between := set n | n in q.dropped && q.popped[k] < n < q.popped[k + 1];
            && q.popped[k] < q.popped[k + 1]
            && (forall n :: q.popped[k] < n < q.popped[k + 1] <==> n in between)
            && |between| == q.popped[k + 1] - q.popped[k] - 1
  {
    RunConsistent(Empty<T>(), ops, capacity);
    var q := Run(Empty<T>(), ops, capacity);
    var between := set n | n in q.dropped && q.popped[k] < n < q.popped[k + 1];
    assert q.popped[k + 1] in q.popped;
    forall n | q.popped[k] < n < q.popped[k + 1]
      ensures n in q.dropped
    {
      NotPopped(q.popped, k, n);
    }
    Interval(q.popped[k] + 1, q.popped[k + 1], between);
  }

  lemma NotPopped(popped: seq<nat>, k: nat, n: int)
    requires Increasing(popped) && k + 1 < |popped| && popped[k] < n < popped[k + 1]
    ensures n !in popped
  {
    forall i | 0 <= i < |popped|
      ensures popped[i] != n
    {
      assert i < k ==> popped[i] < popped[k];
      assert i > k + 1 ==> popped[k + 1] < popped[i];
    }
  }

  lemma {:induction false} Interval(a: nat, b: nat, s: set<nat>)
    requires a <= b && forall n :: a <= n < b <==> n in s
    ensures |s| == b - a
    decreases b - a
  {
    if a == b {
      assert s == {};
    } else {
      Interval(a + 1, b, s - {a});
    }
  }

  /** Without a lap, what has been delivered is exactly a prefix of what was pushed. */
  lemma NoLapDeliversAll<T>(ops: seq<Op<T>>, capacity: nat)
    requires capacity > 0
    requires Run(Empty<T>(), ops, capacity).dropped == []
    ensures var q := Run(Empty<T>(), ops, capacity); q.popped == seq(q.tail, i => i)
  {
    RunConsistent(Empty<T>(), ops, capacity);
    var q := Run(Empty<T>(), ops, capacity);
    Packed(q.popped, q.tail);
  }

  /** An increasing list of `n` numbers below `n` is the list of all of them. */
  lemma {:induction false} Packed(s: seq<nat>, n: nat)
    requires Increasing(s) && |s| == n && forall x :: x in s ==> x < n
    ensures s == seq(n, i => i)
  {
    if n != 0 {
      var init := s[..n - 1];
      assert s[n - 1] in s;
      forall x | x in init
        ensures x < n - 1
      {
        var i :| 0 <= i < |init| && init[i] == x;
        assert s[i] < s[n - 1];
      }
      Packed(init, n - 1);
      if n >= 2 {
        assert s[n - 2] < s[n - 1];
      }
    }
  }
}
