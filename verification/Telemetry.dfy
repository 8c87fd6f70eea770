/**
 * The telemetry path end to end: sequencer, ring buffer, length-prefixed stream, relay, ingest.
 */
module Telemetry {
  import opened Bytes
  import opened Varints
  import opened Wire
  import opened Envelopes
  import opened Encoders
  import opened FastReaders
  import opened Fifos
  import opened RingBuffers
  import RingInterleaving

  /** The relay closes a stream that announces a longer frame. */
  const MAX_FRAME := 65_536

  // ---------------------------------------------------------------- framing

  /** A length prefix of four little-endian bytes, and the payload. */
  function Frame(p: seq<Byte>): (s: seq<Byte>)
    ensures |s| == 4 + |p|
  {
    LittleEndian(|p|, 4) + p
  }

  function Stream(ps: seq<seq<Byte>>): seq<Byte> {
    if ps == [] then [] else Frame(ps[0]) + Stream(ps[1..])
  }

  /** The complete frames of a stream, and whether it was closed for announcing too long a one. */
  function Deframe(s: seq<Byte>): (seq<seq<Byte>>, bool)
    decreases |s|
  {
    if |s| < 4 then ([], false) else
    var len := FromLittleEndian(s[..4]);
    if len > MAX_FRAME then ([], true)
    else if |s| < 4 + len then ([], false)
    else var (rest, closed) := Deframe(s[4 + len..]); ([s[4..4 + len]] + rest, closed)
  }

  lemma DeframeOne(p: seq<Byte>, rest: seq<Byte>)
    requires |p| < U32_LIMIT
    ensures Deframe(Frame(p) + rest)
         == if |p| > MAX_FRAME then ([], true) else ([p] + Deframe(rest).0, Deframe(rest).1)
  {
    var s := Frame(p) + rest;
    FixedWidths();
    LittleEndianRoundTrip(|p|, 4);
    assert s[..4] == LittleEndian(|p|, 4);
    if |p| <= MAX_FRAME {
      assert s[4..4 + |p|] == p && s[4 + |p|..] == rest;
    }
  }

  /** A frame that breaks off is not delivered; a complete length prefix over the limit still closes the stream. */
  lemma DeframeBroken(p: seq<Byte>, k: nat)
    requires |p| < U32_LIMIT && k < |Frame(p)|
    ensures Deframe(Frame(p)[..k]) == ([], k >= 4 && |p| > 65_536)
  {
    FixedWidths();
    LittleEndianRoundTrip(|p|, 4);
    if k >= 4 {
      assert Frame(p)[..k][..4] == LittleEndian(|p|, 4);
    }
  }

  /** The frames of a stream, followed by anything. */
  lemma {:induction false} DeframeThen(ps: seq<seq<Byte>>, rest: seq<Byte>)
    requires forall i :: 0 <= i < |ps| ==> |ps[i]| < U32_LIMIT
    ensures Deframe(Stream(ps) + rest) == if UpToOversize(ps).1 then UpToOversize(ps)
                                          else (ps + Deframe(rest).0, Deframe(rest).1)
  {
    hide Frame;
    if ps == [] {
      assert [] + rest == rest && [] + Deframe(rest).0 == Deframe(rest).0;
    } else {
      ConcatAssoc(Frame(ps[0]), Stream(ps[1..]), rest);
      DeframeOne(ps[0], Stream(ps[1..]) + rest);
      DeframeThen(ps[1..], rest);
      assert [ps[0]] + ps[1..] == ps;
      ConcatAssoc([ps[0]], ps[1..], Deframe(rest).0);
    }
  }

  /**
   * The relay recovers the frames up to the first one longer than 65,536 bytes, and closes the stream
   * exactly if there is such a frame.
   */
  lemma DeframeStream(ps: seq<seq<Byte>>)
    requires forall i :: 0 <= i < |ps| ==> |ps[i]| < U32_LIMIT
    ensures Deframe(Stream(ps)) == UpToOversize(ps)
    ensures var (frames, closed) := Deframe(Stream(ps));
            && frames <= ps && (forall f :: f in frames ==> |f| <= 65_536)
            && (closed <==> |frames| < |ps|) && (closed ==> |ps[|frames|]| > 65_536)
  {
    DeframeThen(ps, []);
    UpToOversizeIs(ps);
    assert Stream(ps) + [] == Stream(ps) && ps + [] == ps;
  }

  lemma {:induction false} UpToOversizeIs(ps: seq<seq<Byte>>)
    ensures var (frames, closed) := UpToOversize(ps);
            && frames <= ps && (forall f :: f in frames ==> |f| <= 65_536)
            && (closed <==> |frames| < |ps|) && (closed ==> |ps[|frames|]| > 65_536)
  {
    if ps != [] {
      UpToOversizeIs(ps[1..]);
    }
  }

  /**
   * A stream that breaks off inside a frame: the frames before it are recovered, and nothing of it,
   * whether or not its length prefix is complete; only a complete prefix over the limit is an error.
   */
  lemma DeframeCut(ps: seq<seq<Byte>>, p: seq<Byte>, k: nat)
    requires (forall i :: 0 <= i < |ps| ==> |ps[i]| < U32_LIMIT) && |p| < U32_LIMIT && k < |Frame(p)|
    ensures var cut := Deframe(Stream(ps) + Frame(p)[..k]);
            && cut.0 == Deframe(Stream(ps)).0
            && (cut.1 <==> Deframe(Stream(ps)).1 || (k >= 4 && |p| > 65_536))
  {
    DeframeStream(ps);
    DeframeThen(ps, Frame(p)[..k]);
    DeframeBroken(p, k);
    assert ps + [] == ps;
  }

  function UpToOversize(ps: seq<seq<Byte>>): (seq<seq<Byte>>, bool) {
    if ps == [] then ([], false)
    else if |ps[0]| > MAX_FRAME then ([], true)
    else var (rest, closed) := UpToOversize(ps[1..]); ([ps[0]] + rest, closed)
  }

  lemma {:induction false} NoOversize(ps: seq<seq<Byte>>)
    requires forall i :: 0 <= i < |ps| ==> |ps[i]| <= MAX_FRAME
    ensures UpToOversize(ps) == (ps, false)
  {
    if ps != [] {
      NoOversize(ps[1..]);
      assert ps == [ps[0]] + ps[1..];
    }
  }

  lemma {:induction false} StreamAppend(a: seq<seq<Byte>>, b: seq<seq<Byte>>)
    ensures Stream(a + b) == Stream(a) + Stream(b)
  {
    if a == [] {
      assert a + b == b;
    } else {
      assert (a + b)[1..] == a[1..] + b;
      StreamAppend(a[1..], b);
      ConcatAssoc(Frame(a[0]), Stream(a[1..]), Stream(b));
    }
  }

  lemma StreamOne(p: seq<Byte>)
    ensures Stream([p]) == Frame(p)
  {
    assert |[p][1..]| == 0;
  }

  /** The agent's sending loop, up to the point where it would wait for the next push. */
  method SendBuffered(ring: RingBuffer, wire: seq<Byte>) returns (out: seq<Byte>)
    requires ring.Valid()
    modifies ring`tail, ring`inReplay, ring`fifo
    ensures ring.Valid() && ring.fifo.Contents() == [] && !ring.inReplay
    ensures out == wire + Stream(old(ring.fifo).Contents())
    ensures ring.fifo.log == old(ring.fifo).log && ring.fifo.dropped == old(ring.fifo).dropped
  {
    hide SlotHolds, SlotOf, Stream, Frame;
    out := wire;
    ghost var sent: seq<seq<Byte>> := [];
    ghost var all := ring.fifo.Contents();
    StreamNone();
    assert out == wire + Stream(sent);
    while true
      invariant ring.Valid() && ring.fifo.log == old(ring.fifo).log && ring.fifo.dropped == old(ring.fifo).dropped
      invariant all == sent + ring.fifo.Contents()
      invariant out == wire + Stream(sent)
      decreases |ring.fifo.Contents()|
    {
      ghost var contents := ring.fifo.Contents();
      var payload := ring.Pop();
      if payload.None? {
        assert all == sent;
        return;
      }
      assert contents == [payload.value] + ring.fifo.Contents();
      ConcatAssoc(sent, [payload.value], ring.fifo.Contents());
      out := WriteFrame(out, payload.value, wire, sent);
      sent := sent + [payload.value];
    }
  }

  lemma StreamNone()
    ensures Stream([]) == []
  {}

  method WriteFrame(wire: seq<Byte>, payload: seq<Byte>, ghost base: seq<Byte>, ghost sent: seq<seq<Byte>>)
    returns (out: seq<Byte>)
    requires wire == base + Stream(sent)
    ensures out == base + Stream(sent + [payload])
  {
    out := wire + LittleEndian(|payload|, 4);
    out := out + payload;
    ConcatAssoc(wire, LittleEndian(|payload|, 4), payload);
    ConcatAssoc(base, Stream(sent), Frame(payload));
    StreamAppend(sent, [payload]);
    StreamOne(payload);
  }

  /** How the relay's telemetry loop ends. */
  datatype End = StreamEnded | TooLarge | ReaderPanicked

  /** What the relay publishes of the frames of a stream, up to one on which its reader panics. */
  function Published(frames: seq<seq<Byte>>): (seq<(int, seq<Byte>)>, bool) {
    if frames == [] then ([], false) else
    match FastFrom(frames[0], 0)
    case Decoded(streamType) =>
      var (rest, panicked) := Published(frames[1..]); ([(streamType, frames[0])] + rest, panicked)
    case _ => ([], true)
  }

  /** Frames one by one: each is published in its place, up to one on which the reader panics. */
  lemma {:induction false} PublishedInTurn(x: seq<seq<Byte>>, frame: seq<Byte>, y: seq<seq<Byte>>)
    requires !Published(x).1
    ensures var before, after := Published(x).0, Published(y);
            var streamType := FastFrom(frame, 0);
            Published(x + [frame] + y) ==
              if streamType.Decoded? then (before + ([(streamType.value, frame)] + after.0), after.1)
              else (before, true)
  {
    hide FastFrom;
    var all := x + [frame] + y;
    if x == [] {
      assert all[1..] == y;
      if FastFrom(frame, 0).Decoded? {
        var after := [(FastFrom(frame, 0).value, frame)] + Published(y).0;
        assert Published(x).0 + after == after;
      }
    } else {
      assert all[1..] == x[1..] + [frame] + y;
      PublishedInTurn(x[1..], frame, y);
      if FastFrom(x[0], 0).Decoded? && FastFrom(frame, 0).Decoded? {
        ConcatAssoc([(FastFrom(x[0], 0).value, x[0])], Published(x[1..]).0,
                    [(FastFrom(frame, 0).value, frame)] + Published(y).0);
      }
    }
  }

  /** The relay's loop, on every stream: each frame is published under the type it is routed by. */
  method HandleTelemetryStream(stream: seq<Byte>) returns (published: seq<(int, seq<Byte>)>, end: End)
    ensures published == Published(Deframe(stream).0).0
    ensures end == if Published(Deframe(stream).0).1 then ReaderPanicked
                   else if Deframe(stream).1 then TooLarge else StreamEnded
  {
    hide FastFrom;
    published := [];
    var rest := stream;
    while true
      invariant Published(Deframe(stream).0).0 == published + Published(Deframe(rest).0).0
      invariant Published(Deframe(stream).0).1 == Published(Deframe(rest).0).1
      invariant Deframe(stream).1 == Deframe(rest).1
      decreases |rest|
    {
      if |rest| < 4 {
        return published, StreamEnded;
      }
      var len := FromLittleEndian(rest[..4]);
      if len > MAX_FRAME {
        return published, TooLarge;
      }
      if |rest| < 4 + len {
        return published, StreamEnded;
      }
      var payload := rest[4..4 + len];
      DeframeFirst(rest, len);
      var streamType := FastReadStreamType(payload);
      if !streamType.Decoded? {
        return published, ReaderPanicked;
      }
      ConcatAssoc(published, [(streamType.value, payload)], Published(Deframe(rest[4 + len..]).0).0);
      published := published + [(streamType.value, payload)];
      rest := rest[4 + len..];
    }
  }

  lemma DeframeFirst(s: seq<Byte>, len: nat)
    requires |s| >= 4 && len == FromLittleEndian(s[..4]) <= MAX_FRAME && |s| >= 4 + len
    ensures Deframe(s).0 != [] && Deframe(s).0[0] == s[4..4 + len]
    ensures Deframe(s).0[1..] == Deframe(s[4 + len..]).0 && Deframe(s).1 == Deframe(s[4 + len..]).1
  {}

  /** Well-formed frames are all published, in order, each under its first early stream type. */
  lemma {:induction false} WellFormedPublished(frames: seq<seq<Byte>>)
    requires forall i :: 0 <= i < |frames| ==> Parse(frames[i]).Some? && |frames[i]| <= MAX_FRAME
    ensures var (published, panicked) := Published(frames);
            && !panicked && |published| == |frames|
            && forall i :: 0 <= i < |frames| ==> published[i] == (Int32(Hint(frames[i])), frames[i])
  {
    hide FastFrom, Hint;
    if frames != [] {
      FastOnWellFormed(frames[0]);
      WellFormedPublished(frames[1..]);
    }
  }

  // ---------------------------------------------------------------- the sequencer

  /** The agent numbers envelopes in the order it pushes them, with a 32-bit counter. */
  function Numbered(e: DataEnvelope, n: nat): DataEnvelope {
    e.(seqNo := n % U32_LIMIT)
  }

  /** The ring operations behind a run of the sequencer (pushes) and the transport (pops). */
  function RingOps(ops: seq<Op<DataEnvelope>>, next: nat, slotSize: nat): (r: seq<Op<seq<Byte>>>)
    requires slotSize >= HEADER_SIZE
  {
    if ops == [] then [] else
    match ops[0]
    case Push(e) => [Op.Push(Stored(Numbered(e, next), slotSize))] + RingOps(ops[1..], next + 1, slotSize)
    case Pop => [Op.Pop] + RingOps(ops[1..], next, slotSize)
  }

  /** The encoding of an envelope, with its number, fits a slot. */
  predicate FitsSlot(e: DataEnvelope, n: nat, slotSize: nat) {
    |RingEncode(Numbered(e, n))| + HEADER_SIZE <= slotSize
  }

  function StoreAll(es: seq<DataEnvelope>, next: nat, slotSize: nat): (r: seq<seq<Byte>>)
    requires slotSize >= HEADER_SIZE
    ensures |r| == |es|
  {
    if es == [] then [] else [Stored(Numbered(es[0], next), slotSize)] + StoreAll(es[1..], next + 1, slotSize)
  }

  lemma {:induction false} RingOpsPush(ops: seq<Op<DataEnvelope>>, next: nat, slotSize: nat)
    requires slotSize >= HEADER_SIZE
    ensures Pushed(RingOps(ops, next, slotSize)) == StoreAll(Pushed(ops), next, slotSize)
  {
    hide Stored;
    if ops != [] {
      var rops := RingOps(ops, next, slotSize);
      var more := if ops[0].Push? then 1 else 0;
      assert rops[1..] == RingOps(ops[1..], next + more, slotSize);
      RingOpsPush(ops[1..], next + more, slotSize);
      if ops[0].Push? {
        assert Pushed(ops)[1..] == Pushed(ops[1..]);
      } else {
        assert [] + Pushed(ops[1..]) == Pushed(ops[1..]);
      }
    }
  }

  lemma {:induction false} StoreAllAt(es: seq<DataEnvelope>, next: nat, slotSize: nat, i: nat)
    requires slotSize >= HEADER_SIZE && i < |es|
    ensures StoreAll(es, next, slotSize)[i] == Stored(Numbered(es[i], next + i), slotSize)
    ensures Numbered(es[i], next + i) == es[i].(seqNo := (next + i) % 0x1_0000_0000)
  {
    hide Stored;
    if i > 0 {
      StoreAllAt(es[1..], next + 1, slotSize, i - 1);
    }
  }

  /** What the transport has taken out of the ring, in order. */
  function Sent(q: Fifo<seq<Byte>>): (s: seq<seq<Byte>>)
    requires forall i :: 0 <= i < |q.popped| ==> q.popped[i] < |q.log|
  {
    seq(|q.popped|, i requires 0 <= i < |q.popped| => q.log[q.popped[i]])
  }

  lemma SentWithinLog(ops: seq<Op<seq<Byte>>>, capacity: nat)
    requires capacity > 0
    ensures var q := Run(Empty(), ops, capacity);
            && Consistent(q, capacity) && q.log == Pushed(ops)
            && forall i :: 0 <= i < |q.popped| ==> q.popped[i] < |q.log|
  {
    RunConsistent(Empty<seq<Byte>>(), ops, capacity);
    var q := Run(Empty<seq<Byte>>(), ops, capacity);
    assert [] + Pushed(ops) == Pushed(ops);
    forall i | 0 <= i < |q.popped|
      ensures q.popped[i] < |q.log|
    {
      assert q.popped[i] in q.popped;
    }
  }

  /** What the ingest service makes of a stored envelope: all the encoder sends if it fits the slot. */
  lemma DecodeStored(e: DataEnvelope, n: nat, slotSize: nat)
    requires e.InRange() && slotSize >= HEADER_SIZE && FitsSlot(e, n, slotSize)
    ensures var s := Stored(Numbered(e, n), slotSize);
            && Decode(s) == Some(RingView(Numbered(e, n)))
            && (|e.vehicleId| <= 50 ==> Hint(s) == e.streamType)
  {
    hide RingFields, Decode, Hint, RingView;
    RingRoundTrip(Numbered(e, n));
    FastReadsRing(Numbered(e, n));
  }

  /**
   * If it does not fit, the cut encoding is rejected, unless the cut falls between two fields: then
   * the fields before it are decoded and the others are missing.
   */
  lemma DecodeCut(e: DataEnvelope, n: nat, slotSize: nat)
    requires e.InRange() && slotSize >= HEADER_SIZE && !FitsSlot(e, n, slotSize)
    ensures var s, fs := Stored(Numbered(e, n), slotSize), RingFields(Numbered(e, n));
            && |s| == slotSize - HEADER_SIZE
            && (Decode(s).Some? <==> exists j: nat :: j <= |fs| && |s| == |Print(fs[..j])|)
            && (forall j: nat :: j <= |fs| && |s| == |Print(fs[..j])| ==> Decode(s) == Some(Onto(EMPTY, fs[..j])))
  {
    hide RingFields, Onto, Print, Parse, Decode;
    var f := Numbered(e, n);
    var s, fs := Stored(f, slotSize), RingFields(f);
    RingFieldsValid(f);
    DecodeIsLastOneWins(s);
    if Decode(s).Some? {
      CutPrint(fs, |s|);
      var gs := Parse(s).value;
      assert gs == fs[..|gs|];
    }
    forall j: nat | j <= |fs| && |s| == |Print(fs[..j])|
      ensures Decode(s) == Some(Onto(EMPTY, fs[..j]))
    {
      CutBetween(fs, j);
    }
  }

  lemma NoOversizeStored(ps: seq<seq<Byte>>, slotSize: nat)
    requires forall i :: 0 <= i < |ps| ==> |ps[i]| + HEADER_SIZE <= slotSize
    ensures slotSize <= MAX_FRAME + HEADER_SIZE ==> UpToOversize(ps) == (ps, false)
  {
    if slotSize <= MAX_FRAME + HEADER_SIZE {
      NoOversize(ps);
    }
  }

  /** The i-th popped frame is the stored encoding of its envelope, and is decoded and routed as that. */
  ghost predicate Handed(q: Fifo<seq<Byte>>, i: nat, es: seq<DataEnvelope>, slotSize: nat)
    requires slotSize >= HEADER_SIZE && i < |q.popped|
    requires forall k :: 0 <= k < |q.popped| ==> q.popped[k] < |q.log| == |es|
  {
    var e, n := es[q.popped[i]], q.popped[i];
    && Sent(q)[i] == Stored(Numbered(e, n), slotSize)
    && (FitsSlot(e, n, slotSize) ==> Decode(Sent(q)[i]) == Some(RingView(e.(seqNo := n % 0x1_0000_0000))))
    && (FitsSlot(e, n, slotSize) && |e.vehicleId| <= 50 ==> Hint(Sent(q)[i]) == e.streamType)
  }

  lemma HandedRight(q: Fifo<seq<Byte>>, i: nat, es: seq<DataEnvelope>, slotSize: nat)
    requires slotSize >= HEADER_SIZE && i < |q.popped| && q.log == StoreAll(es, 0, slotSize)
    requires forall k :: 0 <= k < |q.popped| ==> q.popped[k] < |q.log| == |es|
    requires es[q.popped[i]].InRange()
    ensures Handed(q, i, es, slotSize) && |Sent(q)[i]| + HEADER_SIZE <= slotSize
  {
    hide Decode, Hint, RingView, FitsSlot, RingEncode;
    var n := q.popped[i];
    StoreAllAt(es, 0, slotSize, n);
    if FitsSlot(es[n], n, slotSize) {
      DecodeStored(es[n], n, slotSize);
    }
  }

  /**
   * The main theorem of the telemetry path. Take any interleaving of pushes and pops, laps
   * included. Frame what was popped and let the relay unframe it: out come the popped frames, in
   * strictly increasing push order, up to the first one over the relay's limit, and no slot the
   * limit admits holds one. The ingest service decodes each frame to what the ring encoder sends of
   * its envelope, with its push number modulo 2^32, if the envelope fits a slot; what it makes of
   * the others is what `DecodeCut` says. If nothing was dropped, the popped frames are all frames
   * from the first to the last one popped.
   */
  lemma EndToEnd(ops: seq<Op<DataEnvelope>>, slotSize: nat, capacity: nat)
    requires capacity > 0 && HEADER_SIZE <= slotSize < U32_LIMIT
    requires forall i :: 0 <= i < |Pushed(ops)| ==> Pushed(ops)[i].InRange()
    ensures var q := Run(Empty(), RingOps(ops, 0, slotSize), capacity);
            && (forall i :: 0 <= i < |q.popped| ==> q.popped[i] < |q.log| == |Pushed(ops)|)
            && Increasing(q.popped)
            && Deframe(Stream(Sent(q))) == UpToOversize(Sent(q))
            && (slotSize <= 65_552 ==> UpToOversize(Sent(q)) == (Sent(q), false))
            && (forall i :: 0 <= i < |q.popped| ==> Handed(q, i, Pushed(ops), slotSize))
            && (q.dropped == [] ==> q.popped == seq(q.tail, i => i))
  {
    hide Handed, Deframe, Stream;
    var rops := RingOps(ops, 0, slotSize);
    RingOpsPush(ops, 0, slotSize);
    SentWithinLog(rops, capacity);
    var q := Run(Empty(), rops, capacity);
    forall i | 0 <= i < |q.popped|
      ensures Handed(q, i, Pushed(ops), slotSize) && |Sent(q)[i]| + HEADER_SIZE <= slotSize
    {
      HandedRight(q, i, Pushed(ops), slotSize);
    }
    DeframeStream(Sent(q));
    NoOversizeStored(Sent(q), slotSize);
    if q.dropped == [] {
      NoLapDeliversAll(rops, capacity);
    }
  }

  // ---------------------------------------------------------------- the sequencer's loop

  /** A queue after some more pushes. */
  function PushAll<T>(q: Fifo<T>, frames: seq<T>, capacity: nat): Fifo<T> {
    if frames == [] then q else DoPush(PushAll(q, frames[..|frames| - 1], capacity), frames[|frames| - 1], capacity)
  }

  lemma StoreAllMore(es: seq<DataEnvelope>, next: nat, slotSize: nat, i: nat)
    requires slotSize >= HEADER_SIZE && i < |es|
    ensures StoreAll(es[..i + 1], next, slotSize)
         == StoreAll(es[..i], next, slotSize) + [Stored(Numbered(es[i], next + i), slotSize)]
  {
    hide Stored;
    var a, b := StoreAll(es[..i + 1], next, slotSize), StoreAll(es[..i], next, slotSize);
    forall k | 0 <= k < i
      ensures a[k] == b[k]
    {
      StoreAllAt(es[..i + 1], next, slotSize, k);
      StoreAllAt(es[..i], next, slotSize, k);
    }
    StoreAllAt(es[..i + 1], next, slotSize, i);
  }

  lemma PushAllMore<T>(q: Fifo<T>, frames: seq<T>, frame: T, capacity: nat)
    ensures PushAll(q, frames + [frame], capacity) == DoPush(PushAll(q, frames, capacity), frame, capacity)
  {
    assert (frames + [frame])[..|frames|] == frames;
  }

  /**
   * The sequencer over the envelopes of its sources: it numbers each from a 32-bit counter, which
   * wraps around, and pushes it.
   */
  method Sequence(ring: RingBuffer, es: seq<DataEnvelope>, start: nat) returns (counter: nat)
    requires ring.Valid() && start < U32_LIMIT
    modifies ring`head, ring`tail, ring`fifo, ring.mmap, ring.encodeBuf
    ensures ring.Valid() && counter == (start + |es|) % U32_LIMIT
    ensures ring.fifo == PushAll(old(ring.fifo), StoreAll(es, start, ring.slotSize), ring.numSlots)
  {
    hide Stored, DoPush, SlotHolds, SlotOf;
    counter := start;
    for i := 0 to |es|
      invariant ring.Valid() && counter == (start + i) % U32_LIMIT
      invariant ring.fifo == PushAll(old(ring.fifo), StoreAll(es[..i], start, ring.slotSize), ring.numSlots)
    {
      SameNumber(es[i], counter, start + i);
      StoreAllMore(es, start, ring.slotSize, i);
      PushAllMore(old(ring.fifo), StoreAll(es[..i], start, ring.slotSize),
                  Stored(Numbered(es[i], start + i), ring.slotSize), ring.numSlots);
      ring.Push(es[i].(seqNo := counter));
      counter := if counter + 1 < U32_LIMIT then counter + 1 else 0;
    }
    assert es[..|es|] == es;
  }

  lemma SameNumber(e: DataEnvelope, counter: nat, n: nat)
    requires counter == n % U32_LIMIT
    ensures e.(seqNo := counter) == Numbered(e, n)
    ensures (if counter + 1 < U32_LIMIT then counter + 1 else 0) == (n + 1) % U32_LIMIT
  {}

  // ---------------------------------------------------------------- interleaved pushes and pops

  function BytesOf(ds: seq<RingInterleaving.Delivery>): seq<seq<Byte>> {
    seq(|ds|, i requires 0 <= i < |ds| => ds[i].bytes)
  }

  /**
   * Over every interleaving of the atomic steps of push and pop, laps included: each pop that
   * finished reading before its slot was reused is decoded to what the encoder sends of the envelope
   * of its own number, and the numbers increase.
   */
  lemma CleanDeliveriesDecode(s: RingInterleaving.State, n: nat, events: seq<RingInterleaving.Event>,
                              es: seq<DataEnvelope>, slotSize: nat)
    requires HEADER_SIZE <= slotSize
    requires RingInterleaving.Init(s, n) && RingInterleaving.AllFit(events) && RingInterleaving.Run(s, events).Some?
    requires forall i :: 0 <= i < |es| ==> es[i].InRange()
    requires RingInterleaving.Run(s, events).value.payloads == StoreAll(es, 0, slotSize)
    ensures var ds := RingInterleaving.Run(s, events).value.delivered;
            && (forall i, j :: 0 <= i < j < |ds| ==> ds[i].t < ds[j].t)
            && (forall i :: 0 <= i < |ds| && ds[i].clean ==>
                  && ds[i].t < |es|
                  && (FitsSlot(es[ds[i].t], ds[i].t, slotSize) ==>
                        Decode(ds[i].bytes) == Some(RingView(Numbered(es[ds[i].t], ds[i].t)))))
  {
    hide Decode, RingView, FitsSlot, RingEncode;
    RingInterleaving.DeliveriesAreFrames(s, n, events);
    var ds := RingInterleaving.Run(s, events).value.delivered;
    forall i | 0 <= i < |ds| && ds[i].clean
      ensures ds[i].t < |es|
      ensures FitsSlot(es[ds[i].t], ds[i].t, slotSize) ==>
                Decode(ds[i].bytes) == Some(RingView(Numbered(es[ds[i].t], ds[i].t)))
    {
      StoreAllAt(es, 0, slotSize, ds[i].t);
      if FitsSlot(es[ds[i].t], ds[i].t, slotSize) {
        DecodeStored(es[ds[i].t], ds[i].t, slotSize);
      }
    }
  }

  /**
   * The same over the interleaved atomic steps of push and pop, when no push starts on a full
   * buffer: the relay unframes every delivered frame, and the ingest service decodes the i-th one to
   * what the encoder sends of the i-th envelope.
   */
  lemma InterleavedEndToEnd(s: RingInterleaving.State, n: nat, events: seq<RingInterleaving.Event>,
                            es: seq<DataEnvelope>, slotSize: nat)
    requires HEADER_SIZE <= slotSize <= MAX_FRAME + HEADER_SIZE
    requires RingInterleaving.Init(s, n) && RingInterleaving.AllFit(events)
    requires RingInterleaving.Run(s, events).Some? && RingInterleaving.NeverFull(s, events)
    requires forall i :: 0 <= i < |es| ==> es[i].InRange() && FitsSlot(es[i], i, slotSize)
    requires RingInterleaving.Run(s, events).value.payloads == StoreAll(es, 0, slotSize)
    ensures var r := RingInterleaving.Run(s, events).value;
            && |r.delivered| == r.tail <= |es|
            && Deframe(Stream(BytesOf(r.delivered))) == (BytesOf(r.delivered), false)
            && forall i :: 0 <= i < |r.delivered| ==> Decode(r.delivered[i].bytes) == Some(RingView(Numbered(es[i], i)))
  {
    hide Decode, RingView, Deframe, Stream, FitsSlot, RingEncode;
    RingInterleaving.DeliversEverything(s, n, events);
    var r := RingInterleaving.Run(s, events).value;
    forall i | 0 <= i < |r.delivered|
      ensures |r.delivered[i].bytes| + HEADER_SIZE <= slotSize
      ensures Decode(r.delivered[i].bytes) == Some(RingView(Numbered(es[i], i)))
    {
      StoreAllAt(es, 0, slotSize, i);
      DecodeStored(es[i], i, slotSize);
    }
    DeframeStream(BytesOf(r.delivered));
    NoOversizeStored(BytesOf(r.delivered), slotSize);
  }
}
