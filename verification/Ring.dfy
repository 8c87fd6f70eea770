/**
 * The edge agent's ring buffer: fixed-size slots in a byte array under a head and a tail counter.
 *
 * `push` and `pop` are atomic here; RingInterleaving.dfy takes them apart. The ghost field `fifo`
 * is the bounded queue of Fifo.dfy that the bytes and counters implement.
 */
module RingBuffers {
  import opened Bytes
  import opened Wire
  import opened Envelopes
  import opened Encoders
  import opened Fifos

  const SLOT_MAGIC := 0xDEAD_BEAF
  const HEADER_SIZE := 16

  /** A slot that holds a payload: magic, length, eight bytes of timestamp, payload. */
  predicate SlotHolds(slot: seq<Byte>, payload: seq<Byte>) {
    && HEADER_SIZE + |payload| <= |slot|
    && slot[0..4] == LittleEndian(SLOT_MAGIC, 4)
    && slot[4..8] == LittleEndian(|payload|, 4)
    && slot[HEADER_SIZE..HEADER_SIZE + |payload|] == payload
  }

  lemma MagicOctets()
    ensures LittleEndian(SLOT_MAGIC, 4) == [0xAF, 0xBE, 0xAD, 0xDE]
  {
    LittleEndianByte(SLOT_MAGIC, 4, 0);
    LittleEndianByte(SLOT_MAGIC, 4, 1);
    LittleEndianByte(SLOT_MAGIC, 4, 2);
    LittleEndianByte(SLOT_MAGIC, 4, 3);
    assert Pow256(1) == 256 && Pow256(2) == 0x1_0000 && Pow256(3) == 0x100_0000;
  }

  /** A slot octet by octet: AF BE AD DE, the payload's length, least significant octet first, and the payload at 16. */
  lemma SlotOctets(slot: seq<Byte>, payload: seq<Byte>)
    requires |payload| < U32_LIMIT
    ensures SlotHolds(slot, payload) <==>
              && 16 + |payload| <= |slot|
              && slot[0] == 0xAF && slot[1] == 0xBE && slot[2] == 0xAD && slot[3] == 0xDE
              && slot[4] == |payload| % 256 && slot[5] == |payload| / 256 % 256
              && slot[6] == |payload| / 0x1_0000 % 256 && slot[7] == |payload| / 0x100_0000
              && forall i :: 0 <= i < |payload| ==> slot[16 + i] == payload[i]
  {
    MagicOctets();
    var len := LittleEndian(|payload|, 4);
    LengthOctets(|payload|);
    if 16 + |payload| <= |slot| {
      Four(slot[0..4], LittleEndian(SLOT_MAGIC, 4));
      Four(slot[4..8], len);
      assert slot[16..16 + |payload|] == payload <==> forall i :: 0 <= i < |payload| ==> slot[16 + i] == payload[i];
    }
  }

  lemma LengthOctets(n: nat)
    requires n < U32_LIMIT
    ensures LittleEndian(n, 4) == [n % 256, n / 256 % 256, n / 0x1_0000 % 256, n / 0x100_0000]
  {
    LittleEndianByte(n, 4, 0);
    LittleEndianByte(n, 4, 1);
    LittleEndianByte(n, 4, 2);
    LittleEndianByte(n, 4, 3);
    assert Pow256(1) == 256 && Pow256(2) == 0x1_0000 && Pow256(3) == 0x100_0000;
  }

  lemma Four(a: seq<Byte>, b: seq<Byte>)
    requires |a| == |b| == 4
    ensures a == b <==> a[0] == b[0] && a[1] == b[1] && a[2] == b[2] && a[3] == b[3]
  {}

  function SlotOf(mem: seq<Byte>, index: nat, slotSize: nat): seq<Byte> {
    var offset := index * slotSize;
    if offset + slotSize <= |mem| then mem[offset..offset + slotSize] else []
  }

  lemma SlotFits(index: nat, numSlots: nat, slotSize: nat)
    requires index < numSlots
    ensures 0 <= index * slotSize
    ensures index * slotSize + slotSize <= numSlots * slotSize
  {
    ProductNonNegative(index, slotSize);
    ProductNonNegative(numSlots - index - 1, slotSize);
    assert numSlots * slotSize == index * slotSize + slotSize + (numSlots - index - 1) * slotSize;
  }

  lemma ProductNonNegative(a: nat, b: nat)
    ensures a * b >= 0
  {}

  lemma SlotsApart(i: nat, j: nat, slotSize: nat)
    requires i != j
    ensures i * slotSize + slotSize <= j * slotSize || j * slotSize + slotSize <= i * slotSize
  {
    if i < j {
      SlotFits(i, j, slotSize);
    } else {
      SlotFits(j, i, slotSize);
    }
  }

  /** Two of any `n` consecutive frame numbers never share a slot. */
  lemma ResiduesDiffer(s: nat, t: nat, n: nat)
    requires s < t < s + n
    ensures s % n != t % n
  {
    if s % n == t % n {
      SameResidue(s / n, t / n, n, s % n);
    }
  }

  lemma SameResidue(a: nat, b: nat, n: nat, r: nat)
    ensures b * n + r >= a * n + r + n || b * n + r <= a * n + r
  {
    if b > a {
      SlotFits(a, b, n);
    } else {
      ProductNonNegative(a - b, n);
      assert a * n == b * n + (a - b) * n;
    }
  }

  lemma QuotientPositive(q: nat, s: nat, r: nat)
    requires r < s <= q * s + r
    ensures q > 0
  {}

  lemma WholeSlots(capacity: nat, slotSize: nat)
    requires 0 < slotSize <= capacity
    ensures capacity / slotSize > 0 && capacity / slotSize * slotSize <= capacity
  {
    var q, r := capacity / slotSize, capacity % slotSize;
    assert capacity == q * slotSize + r;
    QuotientPositive(q, slotSize, r);
  }

  lemma OtherSlotUnchanged(mem: seq<Byte>, mem': seq<Byte>, i: nat, j: nat, slotSize: nat)
    requires i != j && |mem| == |mem'|
    requires forall k :: 0 <= k < |mem| && !(i * slotSize <= k < i * slotSize + slotSize) ==> mem'[k] == mem[k]
    ensures SlotOf(mem', j, slotSize) == SlotOf(mem, j, slotSize)
  {
    SlotsApart(i, j, slotSize);
  }

  method WriteAt(mem: array<Byte>, offset: nat, bytes: seq<Byte>)
    requires offset + |bytes| <= mem.Length
    modifies mem
    ensures mem[offset..offset + |bytes|] == bytes
    ensures forall k :: 0 <= k < mem.Length && !(offset <= k < offset + |bytes|) ==> mem[k] == old(mem[k])
  {
    forall k | 0 <= k < |bytes| {
      mem[offset + k] := bytes[k];
    }
  }

  /** The four writes that fill a slot. */
  method WriteSlot(mem: array<Byte>, offset: nat, slotSize: nat, timestampNs: nat, payload: seq<Byte>)
    requires offset + slotSize <= mem.Length && HEADER_SIZE + |payload| <= slotSize
    modifies mem
    ensures SlotHolds(mem[..][offset..offset + slotSize], payload)
    ensures mem[offset + 8..offset + HEADER_SIZE] == LittleEndian(timestampNs, 8)
    ensures forall k :: 0 <= k < mem.Length && !(offset <= k < offset + slotSize) ==> mem[k] == old(mem[k])
  {
    WriteAt(mem, offset, LittleEndian(SLOT_MAGIC, 4));
    ghost var m1 := mem[..];
    WriteAt(mem, offset + 4, LittleEndian(|payload|, 4));
    ghost var m2 := mem[..];
    WriteAt(mem, offset + 8, LittleEndian(timestampNs, 8));
    ghost var m3 := mem[..];
    WriteAt(mem, offset + HEADER_SIZE, payload);
    SliceKept(m1, mem[..], offset, offset + 4);
    SliceKept(m2, mem[..], offset + 4, offset + 8);
    SliceKept(m3, mem[..], offset + 8, offset + HEADER_SIZE);
    HeldBy(mem[..], offset, slotSize, payload);
  }

  lemma SliceKept(m: seq<Byte>, m': seq<Byte>, a: nat, b: nat)
    requires a <= b <= |m| == |m'|
    requires forall k :: a <= k < b ==> m'[k] == m[k]
    ensures m'[a..b] == m[a..b]
  {}

  lemma HeldBy(m: seq<Byte>, offset: nat, slotSize: nat, payload: seq<Byte>)
    requires offset + slotSize <= |m| && HEADER_SIZE + |payload| <= slotSize
    requires m[offset..offset + 4] == LittleEndian(SLOT_MAGIC, 4)
    requires m[offset + 4..offset + 8] == LittleEndian(|payload|, 4)
    requires m[offset + 16..offset + 16 + |payload|] == payload
    ensures SlotHolds(m[offset..offset + slotSize], payload)
  {
    var slot := m[offset..offset + slotSize];
    SubSlice(m, offset, slotSize, 0, 4, slot, m[offset..offset + 4]);
    SubSlice(m, offset, slotSize, 4, 8, slot, m[offset + 4..offset + 8]);
    SubSlice(m, offset, slotSize, 16, 16 + |payload|, slot, m[offset + 16..offset + 16 + |payload|]);
  }

  lemma SubSlice(m: seq<Byte>, offset: nat, size: nat, a: nat, b: nat, slot: seq<Byte>, part: seq<Byte>)
    requires a <= b <= size && offset + size <= |m|
    requires slot == m[offset..offset + size] && part == m[offset + a..offset + b]
    ensures slot[a..b] == part
  {
    assert forall k :: 0 <= k < b - a ==> slot[a..b][k] == m[offset + a + k] == part[k];
  }

  lemma SlotIs(m: seq<Byte>, index: nat, slotSize: nat, offset: nat)
    requires offset == index * slotSize && offset + slotSize <= |m|
    ensures SlotOf(m, index, slotSize) == m[offset..offset + slotSize]
  {}

  /** The bytes a push stores: the encoding, cut to the slot. */
  function Stored(e: DataEnvelope, slotSize: nat): seq<Byte>
    requires slotSize >= HEADER_SIZE
  {
    var bytes := RingEncode(e);
    if |bytes| > slotSize - HEADER_SIZE then bytes[..slotSize - HEADER_SIZE] else bytes
  }

  class RingBuffer {
    const mmap: array<Byte>
    const slotSize: nat
    const numSlots: nat
    const encodeBuf: MessageBuffer
    var head: nat
    var tail: nat
    var inReplay: bool
    ghost var fifo: Fifo<seq<Byte>>

    ghost predicate Layout() {
      && numSlots > 0 && HEADER_SIZE + 64 <= slotSize < U32_LIMIT
      && numSlots * slotSize <= mmap.Length
    }

    ghost predicate Valid()
      reads this, mmap
    {
      && Layout()
      && Consistent(fifo, numSlots)
      && head == |fifo.log| && tail == fifo.tail
      && forall t :: tail <= t < head ==> SlotHolds(SlotOf(mmap[..], t % numSlots, slotSize), fifo.log[t])
    }

    /** A buffer over a backing file, whatever it contains; the counters start at zero. */
    constructor (capacityBytes: nat, slotSize: nat)
      requires HEADER_SIZE + 64 <= slotSize < U32_LIMIT && slotSize <= capacityBytes
      ensures Valid() && fifo == Empty() && !inReplay
      ensures this.slotSize == slotSize && numSlots == capacityBytes / slotSize
      ensures fresh(mmap) && fresh(encodeBuf)
    {
      WholeSlots(capacityBytes, slotSize);
      this.mmap := new Byte[capacityBytes];
      this.slotSize := slotSize;
      this.numSlots := capacityBytes / slotSize;
      this.encodeBuf := new MessageBuffer();
      head, tail, inReplay := 0, 0, false;
      fifo := Empty();
      new;
      WholeSlots(capacityBytes, slotSize);
    }

    /** Never blocks; overwrites the oldest frame when the buffer is full. */
    method Push(e: DataEnvelope)
      requires Valid()
      modifies this`head, this`tail, this`fifo, mmap, encodeBuf
      ensures Valid()
      ensures fifo == DoPush(old(fifo), Stored(e, slotSize), numSlots)
    {
      hide SlotHolds, SlotOf, Consistent, RingFields;
      Bounds(fifo, numSlots);
      encodeBuf.Clear();
      EncodeEnvelopeToBuf(encodeBuf, e);
      var payloadLen := |encodeBuf.bytes|;
      var maxPayload := slotSize - HEADER_SIZE;
      var writeLen := if payloadLen < maxPayload then payloadLen else maxPayload;

      var slotIdx := head % numSlots;
      SlotFits(slotIdx, numSlots, slotSize);
      var offset := slotIdx * slotSize;
      assert encodeBuf.bytes[..writeLen] == Stored(e, slotSize);
      ghost var before := mmap[..];
      WriteSlot(mmap, offset, slotSize, e.timestampNs, encodeBuf.bytes[..writeLen]);
      SlotIs(mmap[..], slotIdx, slotSize, offset);
      FillSlot(fifo, head, before, mmap[..], Stored(e, slotSize));

      var h := head;
      head := head + 1;
      if h + 1 > tail + numSlots {
        tail := tail + 1;
      }
      StepConsistent(fifo, Op.Push(Stored(e, slotSize)), numSlots);
      fifo := DoPush(fifo, Stored(e, slotSize), numSlots);
    }

    /** Filling the slot of the next frame keeps every frame that a full buffer does not drop. */
    lemma FillSlot(q: Fifo<seq<Byte>>, h: nat, mem: seq<Byte>, mem': seq<Byte>, x: seq<Byte>)
      requires Layout() && h == |q.log| && |mem| == |mem'| == mmap.Length
      requires q.tail <= h
      requires forall t :: q.tail <= t < h ==> SlotHolds(SlotOf(mem, t % numSlots, slotSize), q.log[t])
      requires SlotHolds(SlotOf(mem', h % numSlots, slotSize), x)
      requires var i := h % numSlots;
               forall k :: 0 <= k < |mem| && !(i * slotSize <= k < i * slotSize + slotSize) ==> mem'[k] == mem[k]
      ensures var log := q.log + [x];
              forall t :: q.tail <= t <= h && h < t + numSlots ==>
                SlotHolds(SlotOf(mem', t % numSlots, slotSize), log[t])
    {
      forall t | q.tail <= t < h && h < t + numSlots
        ensures SlotHolds(SlotOf(mem', t % numSlots, slotSize), q.log[t])
      {
        ResiduesDiffer(t, h, numSlots);
        OtherSlotUnchanged(mem, mem', h % numSlots, t % numSlots, slotSize);
      }
    }

    /**
     * The oldest frame, or None where the consumer would wait for the next push. The two checks
     * that would skip a slot never fire.
     */
    method Pop() returns (r: Option<seq<Byte>>)
      requires Valid()
      modifies this`tail, this`inReplay, this`fifo
      ensures Valid() && fifo == DoPop(old(fifo))
      ensures r == if old(fifo).Contents() == [] then None else Some(old(fifo).Contents()[0])
      ensures inReplay == (old(inReplay) && r.Some?)
    {
      if tail >= head {
        inReplay := false;
        return None;
      }
      var slotIdx := tail % numSlots;
      SlotFits(slotIdx, numSlots, slotSize);
      var offset := slotIdx * slotSize;
      SlotIs(mmap[..], slotIdx, slotSize, offset);
      var slot := mmap[..][offset..offset + slotSize];
      ghost var frame := fifo.log[tail];
      assert SlotHolds(slot, frame);
      FixedWidths();
      LittleEndianRoundTrip(SLOT_MAGIC, 4);
      LittleEndianRoundTrip(|frame|, 4);
      if FromLittleEndian(slot[0..4]) != SLOT_MAGIC {
        assert false;
      }
      var payloadLen := FromLittleEndian(slot[4..8]);
      if HEADER_SIZE + payloadLen > slotSize {
        assert false;
      }
      r := Some(slot[HEADER_SIZE..HEADER_SIZE + payloadLen]);
      StepConsistent(fifo, Op.Pop, numSlots);
      fifo := DoPop(fifo);
      tail := tail + 1;
    }

    /** Enters catch-up replay if anything is buffered. */
    method OnReconnect()
      requires Valid()
      modifies this`inReplay
      ensures Valid() && inReplay == (old(inReplay) || fifo.Contents() != [])
    {
      var lag := if head > tail then head - tail else 0;
      if lag > 0 {
        inReplay := true;
      }
    }
  }
}
