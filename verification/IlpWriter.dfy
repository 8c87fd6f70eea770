/**
 * The ingest service's batched writer: lines are collected, and a full batch or a timer tick sends
 * them over one TCP connection.
 */
module IlpWriters {
  import opened Bytes

  type Line = seq<Byte>

  const NEWLINE: Byte := 10

  /** The text of a batch. */
  function Text(lines: seq<Line>): seq<Byte> {
    if lines == [] then [] else Text(lines[..|lines| - 1]) + lines[|lines| - 1] + [NEWLINE]
  }

  /**
   * One attempt to send, as the network answers it: whether a connection can be made if there is none,
   * and whether the write succeeds or fails after `accepted` bytes.
   */
  datatype Attempt = Attempt(connects: bool, writes: bool, accepted: nat)

  datatype Tries = Tries(first: Attempt, second: Attempt, third: Attempt)

  /** What became of a batch. */
  datatype Batch = Batch(lines: seq<Line>, written: bool)

  /** A connection: the bytes it has taken, and the batches sent over it whole. */
  datatype Connection = Connection(bytes: seq<Byte>, batches: seq<seq<Line>>)

  /** `open` tells whether the last connection is still in use. */
  datatype View = View(lines: seq<Line>, open: bool, connections: seq<Connection>, batches: seq<Batch>)

  function Connected(v: View): View {
    if v.open && v.connections != [] then v
    else v.(open := true, connections := v.connections + [Connection([], [])])
  }

  function Prefix(s: seq<Byte>, n: nat): seq<Byte> {
    if n < |s| then s[..n] else s
  }

  function SendWhole(v: View): View
    requires v.connections != []
  {
    var k := |v.connections| - 1;
    var c := v.connections[k];
    View([], true, v.connections[k := Connection(c.bytes + Text(v.lines), c.batches + [v.lines])],
         v.batches + [Batch(v.lines, true)])
  }

  function SendPart(v: View, accepted: nat): View
    requires v.connections != []
  {
    var k := |v.connections| - 1;
    var c := v.connections[k];
    v.(open := false, connections := v.connections[k := c.(bytes := c.bytes + Prefix(Text(v.lines), accepted))])
  }

  function FlushTrying(v: View, attempts: seq<Attempt>): View
    decreases |attempts|
  {
    if attempts == [] then v.(lines := [], batches := v.batches + [Batch(v.lines, false)])
    else if !v.open && !attempts[0].connects then FlushTrying(v, attempts[1..])
    else if attempts[0].writes then SendWhole(Connected(v))
    else FlushTrying(SendPart(Connected(v), attempts[0].accepted), attempts[1..])
  }

  function Flushed(v: View, tries: Tries): View {
    if v.lines == [] then v else FlushTrying(v, [tries.first, tries.second, tries.third])
  }

  datatype Op = Add(line: Line, tries: Tries) | Tick(tries: Tries)

  function Next(v: View, op: Op, batchSize: int): View {
    match op
    case Tick(tries) => Flushed(v, tries)
    case Add(line, tries) =>
      var u := v.(lines := v.lines + [line]);
      if |u.lines| >= batchSize then Flushed(u, tries) else u
  }

  /** A new writer has connected. */
  const INITIAL := View([], true, [Connection([], [])], [])

  function Run(ops: seq<Op>, batchSize: int): View
    decreases |ops|
  {
    if ops == [] then INITIAL else Next(Run(ops[..|ops| - 1], batchSize), ops[|ops| - 1], batchSize)
  }

  // ---------------------------------------------------------------- conservation

  function LinesOf(batches: seq<Batch>): seq<Line> {
    if batches == [] then [] else LinesOf(batches[..|batches| - 1]) + batches[|batches| - 1].lines
  }

  function Added(ops: seq<Op>): seq<Line> {
    if ops == [] then [] else
    Added(ops[..|ops| - 1]) + match ops[|ops| - 1] case Add(line, _) => [line] case Tick(_) => []
  }

  /** The batches that were written, in order. */
  function Written(batches: seq<Batch>): seq<seq<Line>> {
    if batches == [] then [] else
    Written(batches[..|batches| - 1]) + if batches[|batches| - 1].written then [batches[|batches| - 1].lines] else []
  }

  function Carried(connections: seq<Connection>): seq<seq<Line>> {
    if connections == [] then [] else Carried(connections[..|connections| - 1]) + connections[|connections| - 1].batches
  }

  function TextAll(batches: seq<seq<Line>>): seq<Byte> {
    if batches == [] then [] else TextAll(batches[..|batches| - 1]) + Text(batches[|batches| - 1])
  }

  lemma BatchAppend(batches: seq<Batch>, b: Batch)
    ensures LinesOf(batches + [b]) == LinesOf(batches) + b.lines
    ensures Written(batches + [b]) == Written(batches) + if b.written then [b.lines] else []
  {
    assert (batches + [b])[..|batches|] == batches;
  }

  lemma TextAllAppend(batches: seq<seq<Line>>, lines: seq<Line>)
    ensures TextAll(batches + [lines]) == TextAll(batches) + Text(lines)
  {
    assert (batches + [lines])[..|batches|] == batches;
  }

  lemma CarriedLast(connections: seq<Connection>, c: Connection)
    ensures Carried(connections + [c]) == Carried(connections) + c.batches
  {
    assert (connections + [c])[..|connections|] == connections;
  }

  /** The batches so far, and the empty one. */
  ghost function Tried(batches: seq<Batch>): set<seq<Line>> {
    {[]} + set b | b in batches :: b.lines
  }

  /** A connection has taken its batches whole and then at most a part of one of the candidates. */
  ghost predicate Torn(c: Connection, candidates: set<seq<Line>>) {
    exists lines :: lines in candidates && TextAll(c.batches) <= c.bytes <= TextAll(c.batches) + Text(lines)
  }

  /** A connection that is still open has taken its batches and nothing else. */
  ghost predicate CleanFor(v: View, candidates: set<seq<Line>>) {
    && v.connections != []
    && (forall i :: 0 <= i < |v.connections| ==> Torn(v.connections[i], candidates))
    && (v.open ==> v.connections[|v.connections| - 1].bytes == TextAll(v.connections[|v.connections| - 1].batches))
    && Carried(v.connections) == Written(v.batches)
  }

  ghost predicate Clean(v: View) {
    CleanFor(v, Tried(v.batches))
  }

  lemma MoreCandidates(v: View, some: set<seq<Line>>, more: set<seq<Line>>)
    requires CleanFor(v, some) && some <= more
    ensures CleanFor(v, more)
  {
    forall i | 0 <= i < |v.connections|
      ensures Torn(v.connections[i], more)
    {
      assert Torn(v.connections[i], some);
    }
  }

  lemma TriedAppend(batches: seq<Batch>, b: Batch)
    ensures Tried(batches + [b]) == Tried(batches) + {b.lines}
  {
    assert forall x :: x in batches + [b] <==> x in batches || x == b;
  }

  lemma WholeIsTorn(c: Connection, candidates: set<seq<Line>>)
    requires c.bytes == TextAll(c.batches) && [] in candidates
    ensures Torn(c, candidates)
  {
    assert Text([]) == [] && TextAll(c.batches) + [] == TextAll(c.batches);
    assert TextAll(c.batches) <= c.bytes <= TextAll(c.batches) + Text([]);
  }

  lemma ConnectedKeeps(v: View, candidates: set<seq<Line>>)
    requires CleanFor(v, candidates) && [] in candidates
    ensures CleanFor(Connected(v), candidates) && Connected(v).open
  {
    CarriedLast(v.connections, Connection([], []));
    WholeIsTorn(Connection([], []), candidates);
  }

  lemma SendWholeKeeps(v: View, candidates: set<seq<Line>>)
    requires CleanFor(v, candidates) && v.open && [] in candidates
    ensures CleanFor(SendWhole(v), candidates)
  {
    hide TextAll, Carried, Torn;
    var k := |v.connections| - 1;
    var c := v.connections[k];
    var d := SendWhole(v).connections[k];
    assert v.connections == v.connections[..k] + [c];
    assert SendWhole(v).connections == v.connections[..k] + [d];
    CarriedLast(v.connections[..k], c);
    CarriedLast(v.connections[..k], d);
    TextAllAppend(c.batches, v.lines);
    WholeIsTorn(d, candidates);
    BatchAppend(v.batches, Batch(v.lines, true));
    ConcatAssoc(Carried(v.connections[..k]), c.batches, [v.lines]);
  }

  lemma PartIsTorn(c: Connection, lines: seq<Line>, accepted: nat, candidates: set<seq<Line>>)
    requires c.bytes == TextAll(c.batches) && lines in candidates
    ensures Torn(c.(bytes := c.bytes + Prefix(Text(lines), accepted)), candidates)
  {
    var d := c.(bytes := c.bytes + Prefix(Text(lines), accepted));
    assert TextAll(d.batches) <= d.bytes <= TextAll(d.batches) + Text(lines);
  }

  lemma SendPartKeeps(v: View, accepted: nat, candidates: set<seq<Line>>)
    requires CleanFor(v, candidates) && v.open && v.lines in candidates
    ensures CleanFor(SendPart(v, accepted), candidates)
  {
    hide TextAll, Carried, Prefix, Torn;
    var k := |v.connections| - 1;
    var c := v.connections[k];
    var d := SendPart(v, accepted).connections[k];
    assert v.connections == v.connections[..k] + [c];
    assert SendPart(v, accepted).connections == v.connections[..k] + [d];
    CarriedLast(v.connections[..k], c);
    CarriedLast(v.connections[..k], d);
    PartIsTorn(c, v.lines, accepted, candidates);
  }

  lemma {:induction false} FlushKeeps(v: View, attempts: seq<Attempt>, candidates: set<seq<Line>>)
    requires CleanFor(v, candidates) && [] in candidates && v.lines in candidates
    ensures CleanFor(FlushTrying(v, attempts), candidates)
    ensures FlushTrying(v, attempts).lines == []
    ensures exists written :: FlushTrying(v, attempts).batches == v.batches + [Batch(v.lines, written)]
    decreases |attempts|
  {
    hide CleanFor;
    if attempts == [] {
      DropKeeps(v, candidates);
      assert FlushTrying(v, attempts).batches == v.batches + [Batch(v.lines, false)];
    } else if !v.open && !attempts[0].connects {
      FlushKeeps(v, attempts[1..], candidates);
    } else {
      ConnectedKeeps(v, candidates);
      CleanConnections(Connected(v), candidates);
      if attempts[0].writes {
        SendWholeKeeps(Connected(v), candidates);
        assert FlushTrying(v, attempts).batches == v.batches + [Batch(v.lines, true)];
      } else {
        SendPartKeeps(Connected(v), attempts[0].accepted, candidates);
        FlushKeeps(SendPart(Connected(v), attempts[0].accepted), attempts[1..], candidates);
      }
    }
  }

  lemma CleanConnections(v: View, candidates: set<seq<Line>>)
    requires CleanFor(v, candidates)
    ensures v.connections != []
  {}

  lemma DropKeeps(v: View, candidates: set<seq<Line>>)
    requires CleanFor(v, candidates)
    ensures CleanFor(v.(lines := [], batches := v.batches + [Batch(v.lines, false)]), candidates)
  {
    BatchAppend(v.batches, Batch(v.lines, false));
  }

  ghost predicate Conserves(v: View, added: seq<Line>, batchSize: int) {
    && LinesOf(v.batches) + v.lines == added
    && (batchSize >= 1 ==> |v.lines| < batchSize)
    && (forall b :: b in v.batches ==> 0 < |b.lines| && (batchSize >= 1 ==> |b.lines| <= batchSize))
  }

  lemma EmptyIsTried(batches: seq<Batch>)
    ensures [] in Tried(batches)
  {}

  lemma FlushedKeeps(v: View, tries: Tries)
    requires Clean(v)
    ensures Clean(Flushed(v, tries)) && Flushed(v, tries).lines == []
    ensures LinesOf(Flushed(v, tries).batches) == LinesOf(v.batches) + v.lines
    ensures v.lines == [] ==> Flushed(v, tries) == v
    ensures v.lines != [] ==>
      exists written :: Flushed(v, tries).batches == v.batches + [Batch(v.lines, written)]
  {
    hide FlushTrying, CleanFor, Tried;
    if v.lines != [] {
      var candidates := Tried(v.batches) + {v.lines};
      EmptyIsTried(v.batches);
      MoreCandidates(v, Tried(v.batches), candidates);
      FlushKeeps(v, [tries.first, tries.second, tries.third], candidates);
      var written :| Flushed(v, tries).batches == v.batches + [Batch(v.lines, written)];
      BatchAppend(v.batches, Batch(v.lines, written));
      TriedAppend(v.batches, Batch(v.lines, written));
    }
  }

  lemma FlushedConserves(v: View, tries: Tries, added: seq<Line>, batchSize: int)
    requires Clean(v) && LinesOf(v.batches) + v.lines == added && (batchSize >= 1 ==> |v.lines| <= batchSize)
    requires forall b :: b in v.batches ==> 0 < |b.lines| && (batchSize >= 1 ==> |b.lines| <= batchSize)
    ensures Clean(Flushed(v, tries)) && Conserves(Flushed(v, tries), added, batchSize)
  {
    hide Flushed, Clean, LinesOf;
    FlushedKeeps(v, tries);
    assert added + [] == added;
  }

  lemma AddedLine(v: View, line: Line, added: seq<Line>)
    requires LinesOf(v.batches) + v.lines == added
    ensures LinesOf(v.batches) + (v.lines + [line]) == added + [line]
  {
    ConcatAssoc(LinesOf(v.batches), v.lines, [line]);
  }

  lemma NextConserves(v: View, op: Op, added: seq<Line>, batchSize: int)
    requires Clean(v) && Conserves(v, added, batchSize)
    ensures Clean(Next(v, op, batchSize))
    ensures Conserves(Next(v, op, batchSize), if op.Add? then added + [op.line] else added, batchSize)
  {
    hide Flushed, Clean, LinesOf;
    match op {
      case Tick(tries) => FlushedConserves(v, tries, added, batchSize);
      case Add(line, tries) =>
        var u := v.(lines := v.lines + [line]);
        AddedLine(v, line, added);
        LinesDoNotMatter(v, u.lines);
        if |u.lines| >= batchSize {
          FlushedConserves(u, tries, added + [line], batchSize);
        }
    }
  }

  /**
   * Over every run of adds, ticks and network failures: the batches, written or dropped, followed by
   * the buffer are all the added lines, each once and in order; no batch is split or oversized; and
   * what each connection has taken is the text of whole batches, in order, except that a connection
   * given up may have taken a part of one more. The buffer is below the batch size after every
   * operation.
   */
  lemma {:induction false} RunConserves(ops: seq<Op>, batchSize: int)
    ensures Clean(Run(ops, batchSize)) && Conserves(Run(ops, batchSize), Added(ops), batchSize)
    decreases |ops|
  {
    hide Clean, Next;
    if ops == [] {
      InitiallyClean();
    } else {
      var earlier, op := ops[..|ops| - 1], ops[|ops| - 1];
      RunConserves(earlier, batchSize);
      NextConserves(Run(earlier, batchSize), op, Added(earlier), batchSize);
      assert Added(earlier) + [] == Added(earlier);
    }
  }

  lemma InitiallyClean()
    ensures Clean(INITIAL)
  {
    CarriedLast([], Connection([], []));
    WholeIsTorn(Connection([], []), Tried([]));
    assert [] + [Connection([], [])] == [Connection([], [])];
  }

  lemma LinesDoNotMatter(v: View, lines: seq<Line>)
    requires Clean(v)
    ensures Clean(v.(lines := lines))
  {}

  /**
   * When lines leave the buffer, after any run: a tick and a line that completes a batch hand
   * everything over as one batch, written or dropped; a line below the batch size is only buffered,
   * and a tick on an empty buffer does nothing.
   */
  lemma BatchesLeave(ops: seq<Op>, batchSize: int, line: Line, tries: Tries)
    ensures var v := Run(ops, batchSize);
            var t := Next(v, Tick(tries), batchSize);
            && t.lines == [] && (v.lines == [] ==> t == v)
            && (v.lines != [] ==>
                  t.batches in {v.batches + [Batch(v.lines, true)], v.batches + [Batch(v.lines, false)]})
    ensures var v := Run(ops, batchSize);
            var t, lines := Next(v, Add(line, tries), batchSize), v.lines + [line];
            && (|v.lines| + 1 < batchSize ==> t == v.(lines := lines))
            && (|v.lines| + 1 >= batchSize ==>
                  t.lines == [] && t.batches in {v.batches + [Batch(lines, true)], v.batches + [Batch(lines, false)]})
  {
    hide Clean, Flushed, Conserves;
    RunConserves(ops, batchSize);
    var v := Run(ops, batchSize);
    FlushedKeeps(v, tries);
    LinesDoNotMatter(v, v.lines + [line]);
    FlushedKeeps(v.(lines := v.lines + [line]), tries);
  }

  // ---------------------------------------------------------------- how often a batch arrives

  /** Attempt `i` has a connection: the one left over, for the first attempt, or one of its own. */
  predicate Connects(open: bool, attempts: seq<Attempt>, i: nat)
    requires i < |attempts|
  {
    (i == 0 && open) || attempts[i].connects
  }

  /** Attempt `i` would end the flush. */
  predicate Succeeds(open: bool, attempts: seq<Attempt>, i: nat)
    requires i < |attempts|
  {
    Connects(open, attempts, i) && attempts[i].writes
  }

  /** Attempt `i` is made, and hands over a text of `size` bytes whole, whether it then succeeds or fails. */
  ghost predicate HandsOver(open: bool, attempts: seq<Attempt>, i: nat, size: nat) {
    && i < |attempts| && Connects(open, attempts, i)
    && (attempts[i].writes || attempts[i].accepted >= size)
    && forall j :: 0 <= j < i ==> !Succeeds(open, attempts, j)
  }

  /** What the attempts hand to one connection after the other. */
  function Handed(open: bool, attempts: seq<Attempt>, text: seq<Byte>): seq<seq<Byte>>
    decreases |attempts|
  {
    if attempts == [] then []
    else if !open && !attempts[0].connects then Handed(false, attempts[1..], text)
    else if attempts[0].writes then [text]
    else [Prefix(text, attempts[0].accepted)] + Handed(false, attempts[1..], text)
  }

  function BytesOf(connections: seq<Connection>): seq<seq<Byte>> {
    seq(|connections|, i requires 0 <= i < |connections| => connections[i].bytes)
  }

  /** `pieces` taken by one connection each: the first by the open one, if there is one, the others by new ones. */
  function Taken(bytes: seq<seq<Byte>>, open: bool, pieces: seq<seq<Byte>>): seq<seq<Byte>>
    requires bytes != []
  {
    if open && pieces != [] then bytes[|bytes| - 1 := bytes[|bytes| - 1] + pieces[0]] + pieces[1..] else bytes + pieces
  }

  lemma {:induction false} FlushHands(v: View, attempts: seq<Attempt>)
    requires v.connections != []
    ensures BytesOf(FlushTrying(v, attempts).connections)
         == Taken(BytesOf(v.connections), v.open, Handed(v.open, attempts, Text(v.lines)))
    decreases |attempts|
  {
    hide Text, Prefix;
    if attempts == [] {
      assert BytesOf(v.connections) + [] == BytesOf(v.connections);
    } else if !v.open && !attempts[0].connects {
      FlushHands(v, attempts[1..]);
    } else {
      var w := Connected(v);
      var k := |w.connections| - 1;
      if attempts[0].writes {
        var last := if v.open then BytesOf(v.connections)[k] + Text(v.lines) else [];
        assert v.open ==> BytesOf(SendWhole(w).connections) == BytesOf(v.connections)[k := last] + [];
        assert !v.open ==> [] + Text(v.lines) == Text(v.lines);
      } else {
        var piece := Prefix(Text(v.lines), attempts[0].accepted);
        var x := SendPart(w, attempts[0].accepted);
        FlushHands(x, attempts[1..]);
        assert v.open ==> BytesOf(x.connections) == BytesOf(v.connections)[k := BytesOf(v.connections)[k] + piece];
        assert !v.open ==> [] + piece == piece && BytesOf(x.connections) == BytesOf(v.connections) + [piece];
      }
    }
  }

  function Once(b: bool): nat {
    if b then 1 else 0
  }

  /** Which of three attempts hand the text over. */
  lemma HandsOverOfThree(open: bool, a: Attempt, b: Attempt, c: Attempt, size: nat)
    ensures var all := [a, b, c];
            && (HandsOver(open, all, 0, size) <==> (open || a.connects) && (a.writes || a.accepted >= size))
            && (HandsOver(open, all, 1, size) <==>
                  !((open || a.connects) && a.writes) && b.connects && (b.writes || b.accepted >= size))
            && (HandsOver(open, all, 2, size) <==>
                  && !((open || a.connects) && a.writes) && !(b.connects && b.writes)
                  && c.connects && (c.writes || c.accepted >= size))
  {
    var all := [a, b, c];
    assert Succeeds(open, all, 0) <==> (open || a.connects) && a.writes;
    assert Succeeds(open, all, 1) <==> b.connects && b.writes;
  }

  /** How many pieces are at least `m` bytes long. */
  function LongPieces(pieces: seq<seq<Byte>>, m: nat): nat {
    if pieces == [] then 0 else Once(|pieces[0]| >= m) + LongPieces(pieces[1..], m)
  }

  lemma HandedByOne(open: bool, a: Attempt, rest: seq<Attempt>, text: seq<Byte>, m: nat)
    requires 0 < m <= |text|
    ensures LongPieces(Handed(open, [a] + rest, text), m)
         == Once((open || a.connects) && (a.writes || a.accepted >= m))
            + if (open || a.connects) && a.writes then 0 else LongPieces(Handed(false, rest, text), m)
  {
    assert ([a] + rest)[1..] == rest;
    if open || a.connects {
      var piece := if a.writes then text else Prefix(text, a.accepted);
      var alone := [piece];
      assert |alone[1..]| == 0 && (alone + Handed(false, rest, text))[1..] == Handed(false, rest, text);
    }
  }

  /** Exactly as many pieces reach `m` bytes as attempts, up to the first success, get that many across. */
  lemma HandedCount(open: bool, a: Attempt, b: Attempt, c: Attempt, text: seq<Byte>, m: nat)
    requires 0 < m <= |text|
    ensures var all := [a, b, c];
            LongPieces(Handed(open, all, text), m)
            == Once(HandsOver(open, all, 0, m)) + Once(HandsOver(open, all, 1, m)) + Once(HandsOver(open, all, 2, m))
  {
    hide Handed, HandsOver, LongPieces;
    assert [a] + [b, c] == [a, b, c] && [b] + [c] == [b, c] && [c] + [] == [c];
    HandedByOne(open, a, [b, c], text, m);
    HandedByOne(false, b, [c], text, m);
    HandedByOne(false, c, [], text, m);
    NothingHanded(text, m);
    HandsOverOfThree(open, a, b, c, m);
  }

  lemma NothingHanded(text: seq<Byte>, m: nat)
    ensures LongPieces(Handed(false, [], text), m) == 0
  {}

  lemma {:induction false} PiecesArePrefixes(open: bool, attempts: seq<Attempt>, text: seq<Byte>)
    ensures forall p :: p in Handed(open, attempts, text) ==> p <= text
    decreases |attempts|
  {
    if attempts != [] {
      PiecesArePrefixes(false, attempts[1..], text);
    }
  }

  lemma {:induction false} WrittenIfSucceeds(v: View, attempts: seq<Attempt>)
    requires v.connections != []
    ensures FlushTrying(v, attempts).batches
         == v.batches + [Batch(v.lines, exists i: nat :: i < |attempts| && Succeeds(v.open, attempts, i))]
    ensures attempts != [] || !v.open ==>
              (FlushTrying(v, attempts).open <==> exists i: nat :: i < |attempts| && Succeeds(v.open, attempts, i))
    decreases |attempts|
  {
    if attempts != [] {
      var rest := attempts[1..];
      assert forall i: nat :: i < |rest| ==> (Succeeds(false, rest, i) <==> Succeeds(v.open, attempts, i + 1));
      if Succeeds(v.open, attempts, 0) {
      } else {
        var x := if !v.open && !attempts[0].connects then v else SendPart(Connected(v), attempts[0].accepted);
        WrittenIfSucceeds(x, rest);
        if i: nat :| i < |attempts| && Succeeds(v.open, attempts, i) {
          assert Succeeds(false, rest, i - 1);
        }
      }
    }
  }

  lemma {:induction false} TextSplitsAt(lines: seq<Line>, k: nat)
    requires k <= |lines|
    ensures Text(lines[..k]) <= Text(lines) && (0 < k ==> Text(lines[..k]) != [])
    decreases |lines|
  {
    if k == |lines| {
      assert lines[..k] == lines;
    } else {
      var init := lines[..|lines| - 1];
      assert init[..k] == lines[..k];
      TextSplitsAt(init, k);
    }
  }

  /** The text up to and including line `k`: what a connection must have taken for the line to have arrived. */
  function UpTo(lines: seq<Line>, k: nat): seq<Byte>
    requires k < |lines|
  {
    Text(lines[..k + 1])
  }

  /** The flush ends with a success. */
  ghost predicate EndsWell(open: bool, attempts: seq<Attempt>) {
    exists i: nat :: i < |attempts| && Succeeds(open, attempts, i)
  }

  /** Attempt numbers `i` and `j` both get `m` bytes across. */
  ghost predicate TwoHandOver(open: bool, attempts: seq<Attempt>, m: nat) {
    exists i: nat, j: nat :: i < j < 3 && HandsOver(open, attempts, i, m) && HandsOver(open, attempts, j, m)
  }

  /**
   * How often a line reaches the database. A flush hands each connection a piece of the text of its
   * batch, from the start; line `k` is whole in as many pieces as there are attempts, up to the first
   * success, that get the text up to that line across. So it arrives more than once exactly if two
   * of them do, and it arrives at all exactly if one does, whether the batch then counts as written
   * or as dropped: that is decided by a success alone, as is whether the connection stays open.
   */
  lemma LineArrivals(v: View, tries: Tries, k: nat)
    requires k < |v.lines| && v.connections != []
    ensures var all, text := [tries.first, tries.second, tries.third], Text(v.lines);
            var u, pieces, m := Flushed(v, tries), Handed(v.open, all, text), |UpTo(v.lines, k)|;
            && BytesOf(u.connections) == Taken(BytesOf(v.connections), v.open, pieces)
            && u.batches == v.batches + [Batch(v.lines, EndsWell(v.open, all))]
            && u.lines == [] && (u.open <==> EndsWell(v.open, all))
            && (forall p :: p in pieces ==> p <= text && (|p| >= m <==> UpTo(v.lines, k) <= p))
            && LongPieces(pieces, m) == Once(HandsOver(v.open, all, 0, m))
                 + Once(HandsOver(v.open, all, 1, m)) + Once(HandsOver(v.open, all, 2, m))
            && (LongPieces(pieces, m) >= 2 <==> TwoHandOver(v.open, all, m))
            && (LongPieces(pieces, m) >= 1 <==> exists i: nat :: i < 3 && HandsOver(v.open, all, i, m))
  {
    hide FlushTrying, Handed, HandsOver, Succeeds, Text, BytesOf, Taken, LongPieces;
    var all, text := [tries.first, tries.second, tries.third], Text(v.lines);
    var m := |UpTo(v.lines, k)|;
    TextSplitsAt(v.lines, k + 1);
    FlushHands(v, all);
    PiecesArePrefixes(v.open, all, text);
    HandedCount(v.open, tries.first, tries.second, tries.third, text, m);
    WrittenIfSucceeds(v, all);
    FlushEmpties(v, all);
    TwoOfThree(HandsOver(v.open, all, 0, m), HandsOver(v.open, all, 1, m), HandsOver(v.open, all, 2, m));
  }

  lemma {:induction false} FlushEmpties(v: View, attempts: seq<Attempt>)
    ensures FlushTrying(v, attempts).lines == []
    decreases |attempts|
  {
    if attempts != [] {
      FlushEmpties(v, attempts[1..]);
      FlushEmpties(SendPart(Connected(v), attempts[0].accepted), attempts[1..]);
    }
  }

  lemma TwoOfThree(a: bool, b: bool, c: bool)
    ensures Once(a) + Once(b) + Once(c) >= 2 <==> (a && b) || (a && c) || (b && c)
    ensures Once(a) + Once(b) + Once(c) >= 1 <==> a || b || c
  {}

  /** The same for the whole batch, which is the text up to its last line. */
  lemma BatchArrivals(v: View, tries: Tries)
    requires v.lines != [] && v.connections != []
    ensures var all, text := [tries.first, tries.second, tries.third], Text(v.lines);
            var u, pieces := Flushed(v, tries), Handed(v.open, all, text);
            && BytesOf(u.connections) == Taken(BytesOf(v.connections), v.open, pieces)
            && multiset(pieces)[text] == Once(HandsOver(v.open, all, 0, |text|))
                 + Once(HandsOver(v.open, all, 1, |text|)) + Once(HandsOver(v.open, all, 2, |text|))
            && u.batches == v.batches + [Batch(v.lines, EndsWell(v.open, all))]
    ensures var all, text := [tries.first, tries.second, tries.third], Text(v.lines);
            var pieces := Handed(v.open, all, text);
            && (multiset(pieces)[text] >= 2 <==> TwoHandOver(v.open, all, |text|))
            && (text in pieces <==> exists i: nat :: i < 3 && HandsOver(v.open, all, i, |text|))
  {
    hide FlushTrying, Handed, HandsOver, Succeeds, Text, BytesOf, Taken, LongPieces, EndsWell, TwoHandOver;
    var all, text := [tries.first, tries.second, tries.third], Text(v.lines);
    var pieces := Handed(v.open, all, text);
    LineArrivals(v, tries, |v.lines| - 1);
    assert v.lines[..|v.lines| - 1 + 1] == v.lines;
    WholePieces(pieces, text);
  }

  /** Among prefixes of a text, the ones as long as it are the text itself. */
  lemma {:induction false} WholePieces(pieces: seq<seq<Byte>>, text: seq<Byte>)
    requires forall p :: p in pieces ==> p <= text
    ensures LongPieces(pieces, |text|) == multiset(pieces)[text]
  {
    if pieces != [] {
      assert pieces[0] in pieces && forall p :: p in pieces[1..] ==> p in pieces;
      assert pieces[0] <= text && (|pieces[0]| >= |text| <==> pieces[0] == text);
      assert pieces == [pieces[0]] + pieces[1..];
      WholePieces(pieces[1..], text);
    }
  }

  /** A write that breaks off, and the resend on a new connection. */
  lemma TornThenSent(v: View, tries: Tries)
    requires v.lines != [] && v.open && v.connections != []
    requires !tries.first.writes && tries.second.connects && tries.second.writes
    ensures var k := |v.connections| - 1;
            var c := v.connections[k];
            var torn := c.(bytes := c.bytes + Prefix(Text(v.lines), tries.first.accepted));
            var sent := Connection(Text(v.lines), [v.lines]);
            Flushed(v, tries) == View([], true, v.connections[k := torn] + [sent], v.batches + [Batch(v.lines, true)])
  {
    hide Text, Prefix;
    var attempts := [tries.first, tries.second, tries.third];
    var u := SendPart(v, tries.first.accepted);
    assert attempts[1..][0] == tries.second;
    assert Flushed(v, tries) == FlushTrying(u, attempts[1..]) == SendWhole(Connected(u));
    assert [] + Text(v.lines) == Text(v.lines) && [] + [v.lines] == [v.lines];
    var w := u.connections + [Connection([], [])];
    var sent := Connection(Text(v.lines), [v.lines]);
    assert w[|w| - 1 := sent] == u.connections + [sent];
  }

  lemma RunOfTwo(a: Op, b: Op, batchSize: int)
    ensures Run([a, b], batchSize) == Next(Next(INITIAL, a, batchSize), b, batchSize)
  {
    hide Next;
    assert [a, b][..1] == [a] && [a][..0] == [];
    assert Run([a], batchSize) == Next(Run([a][..0], batchSize), a, batchSize);
  }

  lemma TextOfTwo(a: Line, b: Line)
    ensures Prefix(Text([a, b]), |Text([a])|) == Text([a])
  {
    assert [a, b][..1] == [a];
  }

  /**
   * Lines can arrive twice. Here the first attempt breaks off after the first line of a batch of
   * two: that line is whole on both connections, although the batch is handed over once.
   */
  lemma MayArriveTwice(a: Line, b: Line)
    ensures var one := Attempt(true, false, |Text([a])|);
            var tries := Tries(one, Attempt(true, true, 0), one);
            var v := Run([Add(a, tries), Add(b, tries)], 2);
            && |v.connections| == 2 && v.batches == [Batch([a, b], true)]
            && v.connections[0].bytes == Text([a]) && v.connections[1].bytes == Text([a, b])
  {
    hide Text, Prefix, Flushed;
    var one := Attempt(true, false, |Text([a])|);
    var tries := Tries(one, Attempt(true, true, 0), one);
    RunOfTwo(Add(a, tries), Add(b, tries), 2);
    assert [] + [a] == [a] && [a] + [b] == [a, b];
    TornThenSent(INITIAL.(lines := [a, b]), tries);
    TextOfTwo(a, b);
    assert [] + Text([a]) == Text([a]);
  }

  // ---------------------------------------------------------------- the text of a batch

  function SplitLines(s: seq<Byte>, current: seq<Byte>): seq<Line> {
    if s == [] then [] else
    if s[0] == NEWLINE then [current] + SplitLines(s[1..], []) else SplitLines(s[1..], current + [s[0]])
  }

  lemma {:induction false} SplitLine(line: Line, rest: seq<Byte>, current: seq<Byte>)
    requires NEWLINE !in line
    ensures SplitLines(line + [NEWLINE] + rest, current) == [current + line] + SplitLines(rest, [])
    decreases |line|
  {
    var s := line + [NEWLINE] + rest;
    if line == [] {
      assert s[1..] == rest && current + [] == current;
    } else {
      assert s[1..] == line[1..] + [NEWLINE] + rest;
      SplitLine(line[1..], rest, current + [line[0]]);
      assert current + [line[0]] + line[1..] == current + line;
    }
  }

  lemma {:induction false} SplitText(lines: seq<Line>, rest: seq<Byte>)
    requires forall i :: 0 <= i < |lines| ==> NEWLINE !in lines[i]
    ensures SplitLines(Text(lines) + rest, []) == lines + SplitLines(rest, [])
    decreases |lines|
  {
    hide SplitLines;
    if lines == [] {
      assert [] + rest == rest;
    } else {
      var n := |lines| - 1;
      SplitLine(lines[n], rest, []);
      SplitText(lines[..n], lines[n] + [NEWLINE] + rest);
      assert Text(lines) + rest == Text(lines[..n]) + (lines[n] + [NEWLINE] + rest);
      assert [] + lines[n] == lines[n];
      assert lines == lines[..n] + [lines[n]];
    }
  }

  /** The database reads back exactly the lines of a batch, when no line holds a newline. */
  lemma TextReadsBack(lines: seq<Line>)
    requires forall i :: 0 <= i < |lines| ==> 10 !in lines[i]
    ensures SplitLines(Text(lines), []) == lines
  {
    SplitText(lines, []);
    assert Text(lines) + [] == Text(lines) && lines + [] == lines;
  }

  // ---------------------------------------------------------------- the writer

  class IlpWriter {
    var buf: seq<Byte>
    var count: nat
    var conn: bool
    const batchSize: int
    ghost var lines: seq<Line>
    ghost var connections: seq<Connection>
    ghost var batches: seq<Batch>

    /** The buffer is the text of the lines it holds, and `count` is their number. */
    ghost predicate Valid()
      reads this
    {
      buf == Text(lines) && count == |lines| && connections != []
    }

    ghost function V(): View
      reads this
    {
      View(lines, conn, connections, batches)
    }

    constructor (size: int)
      ensures Valid() && V() == INITIAL && batchSize == size
    {
      buf, count, conn, batchSize := [], 0, true, size;
      lines, connections, batches := [], [Connection([], [])], [];
    }

    method AddLine(line: Line, tries: Tries)
      requires Valid()
      modifies this
      ensures Valid() && V() == Next(old(V()), Add(line, tries), batchSize)
    {
      hide Flushed;
      TextAppend(lines, line);
      buf := buf + line + [NEWLINE];
      count := count + 1;
      lines := lines + [line];
      if count >= batchSize {
        Flush(tries);
      }
    }

    method Flush(tries: Tries)
      requires Valid()
      modifies this
      ensures Valid() && V() == Flushed(old(V()), tries)
    {
      hide FlushTrying;
      if count == 0 {
        return;
      }
      var attempts := [tries.first, tries.second, tries.third];
      var attempt := 0;
      while attempt < 3
        invariant 0 <= attempt <= 3
        invariant Valid() && lines == old(lines)
        invariant FlushTrying(V(), attempts[attempt..]) == FlushTrying(old(V()), attempts)
      {
        assert attempts[attempt..] == [attempts[attempt]] + attempts[attempt + 1..];
        var done := TryOnce(attempts[attempt], attempts[attempt + 1..]);
        if done {
          return;
        }
        attempt := attempt + 1;
      }
      assert attempts[attempt..] == [];
      GiveUp(V());
      batches := batches + [Batch(lines, false)];
      lines := [];
      buf := [];
      count := 0;
    }

    /** One attempt; `later` are the ones that would follow. */
    method TryOnce(answer: Attempt, ghost later: seq<Attempt>) returns (done: bool)
      requires Valid() && lines != []
      modifies this
      ensures Valid() && (!done ==> lines == old(lines))
      ensures done ==> V() == FlushTrying(old(V()), [answer] + later)
      ensures !done ==> FlushTrying(V(), later) == FlushTrying(old(V()), [answer] + later)
    {
      hide SendWhole, SendPart, Connected;
      assert ([answer] + later)[1..] == later;
      if !conn {
        if !answer.connects {
          return false;
        }
        conn := true;
        connections := connections + [Connection([], [])];
      }
      ConnectedIs(old(V()), V());
      var data := buf;
      ghost var c := connections[|connections| - 1];
      if answer.writes {
        SendWholeIs(V());
        connections := connections[|connections| - 1 := Connection(c.bytes + data, c.batches + [lines])];
        batches := batches + [Batch(lines, true)];
        lines := [];
        buf := [];
        count := 0;
        return true;
      }
      SendPartIs(V(), answer.accepted);
      connections := connections[|connections| - 1 := c.(bytes := c.bytes + Prefix(data, answer.accepted))];
      conn := false;
      return false;
    }
  }

  lemma GiveUp(v: View)
    ensures FlushTrying(v, []) == v.(lines := [], batches := v.batches + [Batch(v.lines, false)])
  {}

  lemma TextAppend(lines: seq<Line>, line: Line)
    ensures Text(lines + [line]) == Text(lines) + line + [NEWLINE]
  {
    assert (lines + [line])[..|lines|] == lines;
  }

  lemma ConnectedIs(v: View, u: View)
    requires v.connections != []
    requires v.open ==> u == v
    requires !v.open ==> u == v.(open := true, connections := v.connections + [Connection([], [])])
    ensures u == Connected(v)
  {}

  lemma SendWholeIs(v: View)
    requires v.connections != []
    ensures var k := |v.connections| - 1;
            var c := v.connections[k];
            var d := Connection(c.bytes + Text(v.lines), c.batches + [v.lines]);
            SendWhole(v) == View([], true, v.connections[k := d], v.batches + [Batch(v.lines, true)])
  {}

  lemma SendPartIs(v: View, accepted: nat)
    requires v.connections != []
    ensures var k := |v.connections| - 1;
            var c := v.connections[k];
            SendPart(v, accepted) == v.(open := false,
              connections := v.connections[k := c.(bytes := c.bytes + Prefix(Text(v.lines), accepted))])
  {}
}
