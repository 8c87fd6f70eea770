/** The video relay's record ring: length-prefixed records appended to a file that starts over when it is full. */
module VideoRings {
  import opened Bytes

  /** One chunk as it is recorded. */
  datatype Record = Record(number: nat, timestamp: nat, data: seq<Byte>)

  const HEADER := 20

  ghost predicate Recordable(r: Record) {
    r.number < U64_LIMIT && r.timestamp < U64_LIMIT && |r.data| < U32_LIMIT
  }

  /** The length field keeps the low 32 bits. */
  function Print(r: Record): (s: seq<Byte>)
    ensures |s| == HEADER + |r.data|
  {
    LittleEndian(r.number, 8) + LittleEndian(|r.data| % U32_LIMIT, 4) + LittleEndian(r.timestamp, 8) + r.data
  }

  function PrintAll(rs: seq<Record>): seq<Byte> {
    if rs == [] then [] else Print(rs[0]) + PrintAll(rs[1..])
  }

  /** Reading a byte string as a chain of records. */
  function Parse(s: seq<Byte>): Option<seq<Record>>
    decreases |s|
  {
    if s == [] then Some([])
    else if |s| < HEADER then None
    else
      var len := FromLittleEndian(s[8..12]);
      if |s| < HEADER + len then None else
      match Parse(s[HEADER + len..])
      case None => None
      case Some(rest) =>
        Some([Record(FromLittleEndian(s[..8]), FromLittleEndian(s[12..20]), s[HEADER..HEADER + len])] + rest)
  }

  lemma RecordPieces(r: Record, rest: seq<Byte>)
    ensures var s := Print(r) + rest;
            && s[..8] == LittleEndian(r.number, 8) && s[8..12] == LittleEndian(|r.data| % U32_LIMIT, 4)
            && s[12..20] == LittleEndian(r.timestamp, 8)
            && s[HEADER..HEADER + |r.data|] == r.data && s[HEADER + |r.data|..] == rest
  {
    hide LittleEndian;
  }

  /**
   * The layout of a record: number, length and timestamp in 8, 4 and 8 octets, least significant
   * first, and the data.
   */
  lemma RecordOctets(r: Record, i: nat)
    requires i < 20 + |r.data|
    ensures Pow256(i % 8) > 0 && (8 <= i < 12 ==> Pow256(i - 8) > 0) && (12 <= i < 20 ==> Pow256(i - 12) > 0)
    ensures i < 8 ==> Print(r)[i] == r.number / Pow256(i) % 256
    ensures 8 <= i < 12 ==> Print(r)[i] == |r.data| % 0x1_0000_0000 / Pow256(i - 8) % 256
    ensures 12 <= i < 20 ==> Print(r)[i] == r.timestamp / Pow256(i - 12) % 256
    ensures 20 <= i ==> Print(r)[i] == r.data[i - 20]
  {
    hide LittleEndian, Pow256;
    LittleEndianByte(r.number, 8, i % 8);
    if i < 8 {
      LittleEndianByte(r.number, 8, i);
    } else if i < 12 {
      LittleEndianByte(|r.data| % U32_LIMIT, 4, i - 8);
    } else if i < 20 {
      LittleEndianByte(r.timestamp, 8, i - 12);
    }
  }

  lemma ParseOne(r: Record, rest: seq<Byte>)
    requires Recordable(r) && Parse(rest).Some?
    ensures Parse(Print(r) + rest) == Some([r] + Parse(rest).value)
  {
    hide LittleEndian, FromLittleEndian, Print;
    RecordPieces(r, rest);
    FixedWidths();
    LittleEndianRoundTrip(r.number, 8);
    LittleEndianRoundTrip(|r.data|, 4);
    LittleEndianRoundTrip(r.timestamp, 8);
  }

  lemma {:induction false} ParsePrinted(rs: seq<Record>)
    requires forall i :: 0 <= i < |rs| ==> Recordable(rs[i])
    ensures Parse(PrintAll(rs)) == Some(rs)
  {
    hide Print;
    if rs != [] {
      ParsePrinted(rs[1..]);
      ParseOne(rs[0], PrintAll(rs[1..]));
      assert [rs[0]] + rs[1..] == rs;
    }
  }

  lemma {:induction false} PrintAllAppend(rs: seq<Record>, r: Record)
    ensures PrintAll(rs + [r]) == PrintAll(rs) + Print(r)
  {
    hide Print;
    if rs == [] {
      assert [] + [r] == [r] && |[r][1..]| == 0;
    } else {
      assert (rs + [r])[1..] == rs[1..] + [r];
      PrintAllAppend(rs[1..], r);
    }
  }

  // ---------------------------------------------------------------- the ring

  /** `file` can outgrow `capacity`: the operating system extends a file that is written past its end. */
  datatype View = View(file: seq<Byte>, capacity: nat, writePos: nat, next: nat)

  /** Bytes written at a position inside the file or right at its end. */
  function Write(file: seq<Byte>, pos: nat, bytes: seq<Byte>): (r: seq<Byte>)
    requires pos <= |file|
    ensures |r| == if |file| < pos + |bytes| then pos + |bytes| else |file|
  {
    file[..pos] + bytes + (if |file| < pos + |bytes| then [] else file[pos + |bytes|..])
  }

  /**
   * One append of a chunk; the disk takes `accepted` bytes of it and then fails, unless the record
   * is over before that.
   */
  datatype Append = Append(data: seq<Byte>, timestamp: nat, accepted: nat)

  function Total(a: Append): nat {
    HEADER + |a.data|
  }

  predicate Succeeds(a: Append) {
    Total(a) <= a.accepted
  }

  /** How much of the record reaches the file. */
  function Reaches(a: Append): nat {
    if Succeeds(a) then Total(a) else a.accepted
  }

  function StartOf(v: View, total: nat): nat {
    if v.writePos + total > v.capacity then 0 else v.writePos
  }

  function Appended(v: View, a: Append): View
    requires v.writePos <= |v.file|
  {
    var pos := StartOf(v, Total(a));
    var record := Print(Record(v.next, a.timestamp, a.data));
    View(Write(v.file, pos, record[..Reaches(a)]), v.capacity,
         if Succeeds(a) then pos + Total(a) else pos, if Succeeds(a) then v.next + 1 else v.next)
  }

  /** A newly opened file has exactly `capacity` bytes, whatever they are. */
  function Run(content: seq<Byte>, ops: seq<Append>): (v: View)
    ensures v.capacity == |content| && v.writePos <= |v.file|
    decreases |ops|
  {
    if ops == [] then View(content, |content|, 0, 0)
    else Appended(Run(content, ops[..|ops| - 1]), ops[|ops| - 1])
  }

  // ---------------------------------------------------------------- what the file holds

  function Size(rs: seq<Record>): nat {
    if rs == [] then 0 else Size(rs[..|rs| - 1]) + HEADER + |rs[|rs| - 1].data|
  }

  function Successes(ops: seq<Append>): nat
    decreases |ops|
  {
    if ops == [] then 0 else Successes(ops[..|ops| - 1]) + if Succeeds(ops[|ops| - 1]) then 1 else 0
  }

  /** The records kept when `a` is appended: all of them, or none when it starts over. */
  function Base(kept: seq<Record>, total: nat, capacity: nat): seq<Record> {
    if Size(kept) + total > capacity then [] else kept
  }

  /**
   * The chunks since the last wrap, told from the sizes alone: a chunk that would not fit after the
   * ones before it starts the list anew, and chunks the disk refuses are not in it.
   */
  function SinceWrap(capacity: nat, ops: seq<Append>): seq<Record>
    decreases |ops|
  {
    if ops == [] then [] else
    var earlier, a := ops[..|ops| - 1], ops[|ops| - 1];
    var kept := SinceWrap(capacity, earlier);
    var base := Base(kept, Total(a), capacity);
    if Succeeds(a) then base + [Record(Successes(earlier), a.timestamp, a.data)] else base
  }

  lemma WriteReads(file: seq<Byte>, pos: nat, bytes: seq<Byte>)
    requires pos <= |file|
    ensures Write(file, pos, bytes)[..pos] == file[..pos]
    ensures Write(file, pos, bytes)[..pos + |bytes|] == file[..pos] + bytes
  {}

  lemma SizeAppend(rs: seq<Record>, r: Record)
    ensures Size(rs + [r]) == Size(rs) + HEADER + |r.data|
  {
    assert (rs + [r])[..|rs|] == rs;
  }

  lemma AppendHolds(v: View, kept: seq<Record>, a: Append)
    requires v.writePos <= |v.file| && v.writePos == Size(kept) && v.file[..v.writePos] == PrintAll(kept)
    ensures var base := Base(kept, Total(a), v.capacity);
            var rs := if Succeeds(a) then base + [Record(v.next, a.timestamp, a.data)] else base;
            && Appended(v, a).writePos == Size(rs) && Appended(v, a).file[..Appended(v, a).writePos] == PrintAll(rs)
  {
    hide Print, Write;
    var base := Base(kept, Total(a), v.capacity);
    var pos := StartOf(v, Total(a));
    var r := Record(v.next, a.timestamp, a.data);
    assert v.file[..pos] == PrintAll(base) && pos == Size(base);
    WriteReads(v.file, pos, Print(r)[..Reaches(a)]);
    if Succeeds(a) {
      assert Print(r)[..Reaches(a)] == Print(r);
      PrintAllAppend(base, r);
      SizeAppend(base, r);
    }
  }

  lemma {:induction false} FileHolds(content: seq<Byte>, ops: seq<Append>)
    ensures var v, rs := Run(content, ops), SinceWrap(|content|, ops);
            && v.writePos == Size(rs) && v.file[..v.writePos] == PrintAll(rs)
            && v.next == Successes(ops) && |rs| <= v.next
            && forall i :: 0 <= i < |rs| ==> rs[i].number == v.next - |rs| + i
    decreases |ops|
  {
    hide Appended, PrintAll, Size;
    if ops == [] {
      NothingHeld();
    } else {
      var earlier, a := ops[..|ops| - 1], ops[|ops| - 1];
      FileHolds(content, earlier);
      AppendHolds(Run(content, earlier), SinceWrap(|content|, earlier), a);
      AppendNumbers(Run(content, earlier), a);
    }
  }

  lemma NothingHeld()
    ensures PrintAll([]) == [] && Size([]) == 0
  {}

  lemma AppendNumbers(v: View, a: Append)
    requires v.writePos <= |v.file|
    ensures Appended(v, a).next == v.next + if Succeeds(a) then 1 else 0
  {}

  /**
   * After any run of appends, failing ones included, the bytes before the write position read back
   * as exactly the chunks recorded since the last wrap, in order, numbered consecutively up to the
   * last number given.
   */
  lemma FileReadsBack(content: seq<Byte>, ops: seq<Append>)
    requires |ops| < U64_LIMIT
    requires forall i :: 0 <= i < |ops| ==> |ops[i].data| < U32_LIMIT && ops[i].timestamp < U64_LIMIT
    ensures var v, rs := Run(content, ops), SinceWrap(|content|, ops);
            && Parse(v.file[..v.writePos]) == Some(rs)
            && forall i :: 0 <= i < |rs| ==> rs[i].number == v.next - |rs| + i
  {
    FileHolds(content, ops);
    AllRecordable(|content|, ops);
    ParsePrinted(SinceWrap(|content|, ops));
  }

  lemma {:induction false} AllRecordable(capacity: nat, ops: seq<Append>)
    requires |ops| < U64_LIMIT
    requires forall i :: 0 <= i < |ops| ==> |ops[i].data| < U32_LIMIT && ops[i].timestamp < U64_LIMIT
    ensures Successes(ops) <= |ops|
    ensures forall r :: r in SinceWrap(capacity, ops) ==> Recordable(r)
    decreases |ops|
  {
    if ops != [] {
      var earlier := ops[..|ops| - 1];
      assert forall i :: 0 <= i < |earlier| ==> earlier[i] == ops[i];
      AllRecordable(capacity, earlier);
    }
  }

  /**
   * Where an append goes, after any run: behind the last record if it fits there to the last byte,
   * else to the start of the file. As many bytes of the record are written as the disk takes, no
   * others change, and only a whole record moves the position behind it and uses up a number.
   */
  lemma AppendExactly(content: seq<Byte>, ops: seq<Append>, a: Append)
    ensures var v, size := Run(content, ops), 20 + |a.data|;
            var t, start := Appended(v, a), if v.writePos + size <= |content| then v.writePos else 0;
            var record, n := Print(Record(v.next, a.timestamp, a.data)), if a.accepted < size then a.accepted else size;
            && |t.file| == (if |v.file| < start + n then start + n else |v.file|)
            && t.file[start..start + n] == record[..n]
            && (forall i :: 0 <= i < |v.file| && !(start <= i < start + n) ==> t.file[i] == v.file[i])
            && t.writePos == (if a.accepted < size then start else start + size)
            && t.next == (if a.accepted < size then v.next else v.next + 1)
  {
    hide Print, Run;
  }

  /** Nothing is ever written past the capacity if and only if no single append has more than the capacity to write. */
  lemma {:induction false} StaysInside(content: seq<Byte>, ops: seq<Append>)
    ensures |Run(content, ops).file| >= |content|
    ensures |Run(content, ops).file| == |content| <==> forall i :: 0 <= i < |ops| ==> Reaches(ops[i]) <= |content|
    decreases |ops|
  {
    hide Print, Write;
    if ops != [] {
      var earlier, a := ops[..|ops| - 1], ops[|ops| - 1];
      StaysInside(content, earlier);
      FileHolds(content, earlier);
      assert forall i :: 0 <= i < |earlier| ==> earlier[i] == ops[i];
    }
  }

  /** Appends of the given chunks, with any answers of the disk. */
  ghost predicate OfChunks(ops: seq<Append>, chunks: seq<seq<Byte>>) {
    |ops| == |chunks| && forall i :: 0 <= i < |ops| ==> ops[i].data == chunks[i]
  }

  /**
   * For given chunks, the file keeps its size whatever the disk answers if and only if every chunk
   * fits the capacity with its header.
   */
  lemma ChunksStayInside(content: seq<Byte>, chunks: seq<seq<Byte>>)
    ensures (forall ops :: OfChunks(ops, chunks) ==> |Run(content, ops).file| == |content|)
      <==> forall i :: 0 <= i < |chunks| ==> HEADER + |chunks[i]| <= |content|
  {
    hide Run;
    if forall i :: 0 <= i < |chunks| ==> HEADER + |chunks[i]| <= |content| {
      forall ops | OfChunks(ops, chunks)
        ensures |Run(content, ops).file| == |content|
      {
        ReachesAtMost(ops, chunks);
        StaysInside(content, ops);
      }
    } else {
      var i :| 0 <= i < |chunks| && HEADER + |chunks[i]| > |content|;
      var ops := AllWritten(content, chunks, i);
    }
  }

  lemma ReachesAtMost(ops: seq<Append>, chunks: seq<seq<Byte>>)
    requires OfChunks(ops, chunks)
    ensures forall i :: 0 <= i < |ops| ==> Reaches(ops[i]) <= HEADER + |chunks[i]|
  {}

  /** A disk that takes everything. */
  lemma AllWritten(content: seq<Byte>, chunks: seq<seq<Byte>>, i: nat) returns (ops: seq<Append>)
    requires i < |chunks| && HEADER + |chunks[i]| > |content|
    ensures OfChunks(ops, chunks) && |Run(content, ops).file| != |content|
  {
    ops := seq(|chunks|, k requires 0 <= k < |chunks| => Append(chunks[k], 0, HEADER + |chunks[k]|));
    assert Reaches(ops[i]) > |content|;
    StaysInside(content, ops);
  }

  // ---------------------------------------------------------------- the writer

  /** Writing the next `n` bytes of a record that is written up to `k`. */
  lemma PartWritten(file: seq<Byte>, pos: nat, record: seq<Byte>, k: nat, part: seq<Byte>, n: nat)
    requires pos <= |file| && n <= |part| && k + |part| <= |record| && record[k..k + |part|] == part
    ensures Write(Write(file, pos, record[..k]), pos + k, part[..n]) == Write(file, pos, record[..k + n])
  {
    assert record[..k] + part[..n] == record[..k + n];
  }

  lemma RecordParts(r: Record)
    ensures var s := Print(r);
            && s[..8] == LittleEndian(r.number, 8) && s[8..12] == LittleEndian(|r.data| % U32_LIMIT, 4)
            && s[12..20] == LittleEndian(r.timestamp, 8) && s[20..] == r.data
  {
    RecordPieces(r, []);
    assert Print(r) + [] == Print(r);
  }

  lemma NothingWritten(file: seq<Byte>, pos: nat)
    requires pos <= |file|
    ensures Write(file, pos, []) == file
  {}

  class VideoRingBuffer {
    var file: seq<Byte>
    var cursor: nat
    const capacity: nat
    var writePos: nat
    var next: nat

    ghost function V(): View
      reads this
    {
      View(file, capacity, writePos, next)
    }

    constructor (content: seq<Byte>)
      ensures V() == Run(content, [])
    {
      file, cursor, capacity, writePos, next := content, 0, |content|, 0, 0;
    }

    /** Writes the next part of a record at the cursor until the disk, which takes `left` more bytes, fails. */
    method WritePart(part: seq<Byte>, left: nat,
                     ghost f: seq<Byte>, ghost pos: nat, ghost record: seq<Byte>, ghost k: nat)
      returns (ok: bool, left': nat)
      requires pos <= |f| && k + |part| <= |record| && record[k..k + |part|] == part
      requires file == Write(f, pos, record[..k]) && cursor == pos + k
      modifies this`file, this`cursor
      ensures ok == (|part| <= left)
      ensures var n := if ok then |part| else left;
              file == Write(f, pos, record[..k + n]) && cursor == pos + k + n && left' == left - n
    {
      var n := if |part| <= left then |part| else left;
      PartWritten(f, pos, record, k, part, n);
      file := Write(file, cursor, part[..n]);
      cursor := cursor + n;
      return |part| <= left, left - n;
    }

    /** The four writes of a record at the cursor, of which the disk takes `accepted` bytes. */
    method WriteRecord(timestamp: nat, data: seq<Byte>, accepted: nat) returns (ok: bool)
      requires cursor <= |file|
      modifies this`file, this`cursor
      ensures ok == (HEADER + |data| <= accepted)
      ensures var record := Print(Record(next, timestamp, data));
              file == Write(old(file), old(cursor), record[..if ok then HEADER + |data| else accepted])
    {
      hide Write, LittleEndian, Print;
      ghost var f, pos := file, cursor;
      ghost var record := Print(Record(next, timestamp, data));
      RecordParts(Record(next, timestamp, data));
      NothingWritten(f, pos);
      var left;
      ok, left := WritePart(LittleEndian(next, 8), accepted, f, pos, record, 0);
      if !ok {
        return;
      }
      ok, left := WritePart(LittleEndian(|data| % U32_LIMIT, 4), left, f, pos, record, 8);
      if !ok {
        return;
      }
      ok, left := WritePart(LittleEndian(timestamp, 8), left, f, pos, record, 12);
      if !ok {
        return;
      }
      ok, left := WritePart(data, left, f, pos, record, 20);
    }

    method AppendChunk(data: seq<Byte>, timestamp: nat, accepted: nat) returns (ok: bool)
      requires writePos <= |file|
      modifies this
      ensures V() == Appended(old(V()), Append(data, timestamp, accepted))
      ensures ok == Succeeds(Append(data, timestamp, accepted))
    {
      hide Write, Print;
      var total := HEADER + |data|;
      if writePos + total > capacity {
        writePos := 0;
      }
      cursor := writePos;
      ok := WriteRecord(timestamp, data, accepted);
      if !ok {
        return;
      }
      writePos := writePos + total;
      next := next + 1;
    }
  }
}
