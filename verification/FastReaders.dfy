/**
 * The readers that look at a telemetry message without decoding all of it: the relay's subject
 * routing, the command service's stream filter and the WebSocket gateway. Each is compared with
 * the full decoder of the ingest service.
 */
module FastReaders {
  import opened Bytes
  import opened Varints
  import opened Wire
  import opened Envelopes
  import opened Encoders

  // ---------------------------------------------------------------- relay: stream type

  /** Field numbers are cut to 32 bits by the Rust readers. */
  predicate IsTypeField(f: Field) {
    f.VarintField? && f.num % U32_LIMIT == 3
  }

  /** Offset of the tag, and value, of the first stream type field; `off` bytes come before `s`. */
  function TypeTag(s: seq<Byte>, off: nat): Option<(nat, nat)>
    decreases |s|
  {
    if s == [] then None else
    match ParseField(s)
    case None => None
    case Some((f, n)) => if IsTypeField(f) then Some((off, f.val)) else TypeTag(s[n..], off + n)
  }

  /** The stream type the relay routes by: the first one, if its tag starts in the first 64 bytes. */
  function Hint(s: seq<Byte>): nat {
    match TypeTag(s, 0)
    case None => 1
    case Some((off, v)) => if off < 64 then v else 1
  }

  /** The low 32 bits of a word as a signed number. */
  function Int32(v: nat): int {
    var w := v % U32_LIMIT;
    if w < 0x8000_0000 then w else w - U32_LIMIT
  }

  /** Where the cursor stands after a varint, read or not: a failing read stops at the end or after ten bytes. */
  function AfterVarint(buf: seq<Byte>, start: nat): (pos: nat)
    requires start <= |buf|
    ensures pos >= start
  {
    match ReadVarint(buf[start..])
    case None => if |buf| < start + 10 then |buf| else start + 10
    case Some((_, n)) => start + n
  }

  /** Where the cursor stands after a skipped value, even beyond the end; None for a wire type that is not skipped. */
  function SkipTo(buf: seq<Byte>, start: nat, wire: nat): (pos: Option<nat>)
    requires start <= |buf|
    ensures pos.Some? ==> pos.value >= start
  {
    match wire
    case 0 => Some(AfterVarint(buf, start))
    case 1 => Some(start + 8)
    case 2 => Some(AfterVarint(buf, start) + match ReadVarint(buf[start..]) case None => 0 case Some((len, _)) => len)
    case 5 => Some(start + 4)
    case _ => None
  }

  /** What the relay's reader makes of the bytes from `pos` on, whatever they are; a cursor beyond 64 bits panics. */
  function FastFrom(buf: seq<Byte>, pos: nat): Outcome<int>
    decreases |buf| - pos
  {
    if pos >= |buf| || pos >= 64 then Decoded(1) else
    match ReadVarint(buf[pos..])
    case None => Decoded(1)
    case Some((tag, n)) =>
      if tag / 8 % U32_LIMIT == 3 && tag % 8 == 0 then
        Decoded(Int32(match ReadVarint(buf[pos + n..]) case None => 0 case Some((v, _)) => v))
      else
        match SkipTo(buf, pos + n, tag % 8)
        case None => Decoded(1)
        case Some(next) => if next >= U64_LIMIT then Panicked else FastFrom(buf, next)
  }

  method SkipValue(buf: seq<Byte>, start: nat, wire: nat) returns (pos: Option<nat>)
    requires start <= |buf|
    ensures pos == SkipTo(buf, start, wire)
  {
    hide ReadVarint;
    match wire {
      case 0 =>
        var _, p := ReadVarintAt(buf, start);
        return Some(p);
      case 1 =>
        return Some(start + 8);
      case 2 =>
        var v, p := ReadVarintAt(buf, start);
        var len := match v case Some(n) => n case None => 0;
        return Some(p + len);
      case 5 =>
        return Some(start + 4);
      case _ =>
        return None;
    }
  }

  /** The relay's loop, on every byte string. */
  method FastReadStreamType(buf: seq<Byte>) returns (r: Outcome<int>)
    ensures r == FastFrom(buf, 0)
  {
    hide ReadVarint, SkipTo;
    var pos := 0;
    while pos < |buf|
      invariant FastFrom(buf, pos) == FastFrom(buf, 0)
      decreases |buf| - pos
    {
      if pos >= 64 {
        break;
      }
      var tag, p := ReadVarintAt(buf, pos);
      if tag.None? {
        break;
      }
      var field, wire := tag.value / 8 % U32_LIMIT, tag.value % 8;
      if field == 3 && wire == 0 {
        var v, _ := ReadVarintAt(buf, p);
        return Decoded(Int32(match v case Some(n) => n case None => 0));
      }
      var next := SkipValue(buf, p, wire);
      if next.None? {
        break;
      }
      if next.value >= U64_LIMIT {
        return Panicked;
      }
      pos := next.value;
    }
    return Decoded(1);
  }

  ghost predicate AtField(buf: seq<Byte>, pos: nat) {
    && pos <= |buf|
    && Parse(buf[pos..]).Some?
    && TypeTag(buf, 0) == TypeTag(buf[pos..], pos)
  }

  lemma FieldTurn(buf: seq<Byte>, pos: nat, f: Field, n: nat, next: nat)
    requires AtField(buf, pos) && pos < |buf|
    requires ParseField(buf[pos..]) == Some((f, n)) && next == pos + n
    ensures if IsTypeField(f) then TypeTag(buf, 0) == Some((pos, f.val)) else AtField(buf, next)
  {
    DropTo(buf, pos, n, next);
    ParseStep(buf[pos..], f, n, buf[next..]);
    TypeTagStep(buf[pos..], pos, f, n, buf[next..], next);
  }

  lemma TypeTagStep(s: seq<Byte>, off: nat, f: Field, n: nat, t: seq<Byte>, next: nat)
    requires s != [] && n <= |s| && t == s[n..] && ParseField(s) == Some((f, n)) && next == off + n
    ensures TypeTag(s, off) == if IsTypeField(f) then Some((off, f.val)) else TypeTag(t, next)
  {
    hide ParseField;
  }

  lemma {:induction false} TypeTagOffset(s: seq<Byte>, off: nat)
    ensures TypeTag(s, off).Some? ==> TypeTag(s, off).value.0 >= off
    decreases |s|
  {
    hide ReadVarint, ParseBody;
    if s != [] && ParseField(s).Some? {
      var (f, n) := ParseField(s).value;
      if !IsTypeField(f) {
        TypeTagOffset(s[n..], off + n);
      }
    }
  }

  lemma FirstTagBeyond(buf: seq<Byte>, pos: nat)
    requires pos >= 64
    ensures AtField(buf, pos) ==> Hint(buf) == 1
  {
    if AtField(buf, pos) {
      TypeTagOffset(buf[pos..], pos);
    }
  }

  lemma SkipWellFormed(buf: seq<Byte>, start: nat, num: nat, wire: nat)
    requires start <= |buf| && ParseBody(num, wire, buf[start..]).Some?
    ensures SkipTo(buf, start, wire) == Some(start + ParseBody(num, wire, buf[start..]).value.1)
  {
    hide ReadVarint;
  }

  lemma {:induction false} FastAtField(buf: seq<Byte>, pos: nat)
    requires |buf| < 0x8000_0000_0000_0000 && AtField(buf, pos)
    ensures FastFrom(buf, pos) == Decoded(Int32(Hint(buf)))
    decreases |buf| - pos
  {
    hide ReadVarint, ParseBody, SkipTo;
    if pos >= 64 {
      FirstTagBeyond(buf, pos);
    } else if pos < |buf| {
      FastField(buf, pos);
      var (f, n) := ParseField(buf[pos..]).value;
      FieldTurn(buf, pos, f, n, pos + n);
      if !IsTypeField(f) {
        FastAtField(buf, pos + n);
      }
    }
  }

  /** One well-formed field under the fast reader. */
  lemma FastField(buf: seq<Byte>, pos: nat)
    requires pos < |buf| < 0x8000_0000_0000_0000 && pos < 64 && ParseField(buf[pos..]).Some?
    ensures var (f, n) := ParseField(buf[pos..]).value;
            FastFrom(buf, pos) == if IsTypeField(f) then Decoded(Int32(f.val)) else FastFrom(buf, pos + n)
  {
    hide ReadVarint;
    var (tag, n) := ReadVarint(buf[pos..]).value;
    DropDrop(buf, pos, n);
    SkipWellFormed(buf, pos + n, tag / 8, tag % 8);
  }

  /** On every well-formed message: the value of the first stream type field, if tagged within the first 64 bytes. */
  lemma FastOnWellFormed(buf: seq<Byte>)
    requires |buf| < 0x8000_0000_0000_0000 && Parse(buf).Some?
    ensures FastFrom(buf, 0) == Decoded(Int32(Hint(buf)))
  {
    assert buf[0..] == buf;
    FastAtField(buf, 0);
  }

  // ---------------------------------------------------------------- relay against the decoder

  /** How many fields of a wire type carry a number. */
  function Count(fs: seq<Field>, wire: nat, num: nat): nat {
    if fs == [] then 0
    else (if fs[0].WireType() == wire && fs[0].num == num then 1 else 0) + Count(fs[1..], wire, num)
  }

  ghost predicate SmallNumbers(fs: seq<Field>) {
    forall i :: 0 <= i < |fs| ==> fs[i].num < 0x2000_0000
  }

  lemma {:induction false} AbsentVarint(fs: seq<Field>, num: nat, d: nat)
    requires Count(fs, 0, num) == 0
    ensures LastVarint(fs, num, d) == d
  {
    if fs != [] {
      AbsentVarint(fs[1..], num, d);
    }
  }

  lemma {:induction false} AbsentLen(fs: seq<Field>, num: nat, d: seq<Byte>)
    requires Count(fs, 2, num) == 0
    ensures LastLen(fs, num, d) == d
  {
    if fs != [] {
      AbsentLen(fs[1..], num, d);
    }
  }

  /** The only stream type field is the first one. */
  lemma {:induction false} OnlyTypeTag(s: seq<Byte>, off: nat, d: nat)
    requires Parse(s).Some? && SmallNumbers(Parse(s).value) && Count(Parse(s).value, 0, 3) == 1
    ensures TypeTag(s, off).Some? && TypeTag(s, off).value.1 == LastVarint(Parse(s).value, 3, d)
    decreases |s|
  {
    hide ParseField;
    var (f, n) := ParseField(s).value;
    var rest := Parse(s[n..]).value;
    ParseStep(s, f, n, s[n..]);
    assert Parse(s).value[0] == f && Parse(s).value[1..] == rest;
    assert f.num < 0x2000_0000;
    if IsTypeField(f) {
      AbsentVarint(rest, 3, f.val);
    } else {
      assert forall i :: 0 <= i < |rest| ==> rest[i] == Parse(s).value[i + 1];
      OnlyTypeTag(s[n..], off + n, d);
    }
  }

  /**
   * On every message with exactly one stream type field, tagged within the first 64 bytes, the
   * relay routes by the very type that the ingest service decodes.
   */
  lemma FastMatchesDecoder(s: seq<Byte>)
    requires Parse(s).Some? && SmallNumbers(Parse(s).value) && Count(Parse(s).value, 0, 3) == 1
    requires TypeTag(s, 0).Some? && TypeTag(s, 0).value.0 < 64
    ensures Decode(s).Some? && Hint(s) == Decode(s).value.streamType
  {
    DecodeIsLastOneWins(s);
    OnlyTypeTag(s, 0, 0);
  }

  /** Where the stream type tag of a printed message starts. */
  lemma {:induction false} TypeTagPrinted(before: seq<Field>, v: nat, after: seq<Field>, off: nat)
    requires AllValid(before) && v < U64_LIMIT
    requires forall i :: 0 <= i < |before| ==> !IsTypeField(before[i])
    ensures TypeTag(Print(before + [VarintField(3, v)] + after), off) == Some((off + |Print(before)|, v))
  {
    hide ParseField, PrintField;
    var fs := before + [VarintField(3, v)] + after;
    var rest := Print(fs[1..]);
    assert fs[0] == if before == [] then VarintField(3, v) else before[0];
    ParseFieldPrinted(fs[0], rest);
    var n := |PrintField(fs[0])|;
    assert Print(fs)[n..] == rest;
    TypeTagStep(Print(fs), off, fs[0], n, rest, off + n);
    if before != [] {
      assert fs[1..] == before[1..] + [VarintField(3, v)] + after;
      TypeTagPrinted(before[1..], v, after, off + n);
    }
  }

  lemma RingFieldsTail(e: DataEnvelope)
    ensures RingFields(e) == [LenField(1, e.vehicleId), VarintField(2, e.timestampNs)]
                             + [VarintField(3, e.streamType)] + RingFields(e)[3..]
  {}

  lemma RingTypeTag(e: DataEnvelope)
    requires e.InRange()
    ensures TypeTag(RingEncode(e), 0)
         == Some((|PrintField(LenField(1, e.vehicleId))| + |PrintField(VarintField(2, e.timestampNs))|, e.streamType))
  {
    hide PrintField, Print, RingFields, TypeTag;
    var before := [LenField(1, e.vehicleId), VarintField(2, e.timestampNs)];
    PrintSingle(before[0]);
    PrintOne([before[0]], before[1]);
    assert before == [before[0]] + [before[1]];
    RingFieldsTail(e);
    TypeTagPrinted(before, e.streamType, RingFields(e)[3..], 0);
  }

  /** Bytes before the stream type tag in a message of the edge agent. */
  function RingTypeOffset(e: DataEnvelope): nat {
    2 + |Varint(|e.vehicleId|)| + |e.vehicleId| + |Varint(e.timestampNs)|
  }

  /**
   * The relay reads back the stream type of an agent's message exactly if its tag is in the first
   * 64 bytes, or the type is the default; a vehicle id of at most 50 bytes is always short enough.
   */
  lemma FastReadsRing(e: DataEnvelope)
    requires e.InRange()
    ensures Hint(RingEncode(e)) == e.streamType <==> RingTypeOffset(e) < 64 || e.streamType == 1
    ensures |e.vehicleId| <= 50 ==> RingTypeOffset(e) < 64
  {
    RingTypeTag(e);
    VarintFits(e.timestampNs);
  }

  /** The same for the Python SDK, which leaves out an empty id and a zero timestamp. */
  lemma FastReadsPy(e: DataEnvelope)
    requires e.InRange() && e.streamType != 0
    ensures var off := |Print(OptionalBytes(1, e.vehicleId))| + |Print(OptionalVarint(2, e.timestampNs))|;
            Hint(Print(PyFields(e))) == e.streamType <==> off < 64 || e.streamType == 1
    ensures |e.vehicleId| <= 50 ==> Hint(Print(PyFields(e))) == e.streamType
  {
    hide ParseField;
    var id, ts := OptionalBytes(1, e.vehicleId), OptionalVarint(2, e.timestampNs);
    PyFieldsTail(e);
    TypeTagPrinted(id + ts, e.streamType, PyFields(e)[|id + ts| + 1..], 0);
    PrintAppend(id, ts);
    PrintSingle(LenField(1, e.vehicleId));
    PrintSingle(VarintField(2, e.timestampNs));
    VarintFits(e.timestampNs);
  }

  lemma PyFieldsTail(e: DataEnvelope)
    requires e.streamType != 0
    ensures var before := OptionalBytes(1, e.vehicleId) + OptionalVarint(2, e.timestampNs);
            PyFields(e) == before + [VarintField(3, e.streamType)] + PyFields(e)[|before| + 1..]
  {
    assert OptionalVarint(3, e.streamType) == [VarintField(3, e.streamType)];
  }

  // ---------------------------------------------------------------- command service: stream filter

  function PeekId(f: Field, id: seq<Byte>): seq<Byte> {
    if f.LenField? && f.num == 1 then f.data else id
  }

  function PeekType(f: Field, streamType: nat): nat {
    if f.VarintField? && f.num == 3 then f.val % U32_LIMIT else streamType
  }

  /** What the filter has seen once both an id and a type are there, or the message has ended. */
  function PeekFields(fs: seq<Field>, id: seq<Byte>, streamType: nat): (seq<Byte>, nat) {
    if fs == [] then (id, streamType) else
    var id', type' := PeekId(fs[0], id), PeekType(fs[0], streamType);
    if id' != [] && type' > 0 then (id', type') else PeekFields(fs[1..], id', type')
  }

  /**
   * One field under the filter. A length that takes the end offset out of order is `Panicked`: for
   * the vehicle id the slice fails, for other fields the cursor moves backwards.
   */
  function PeekField(data: seq<Byte>, pos: nat, id: seq<Byte>, streamType: nat): (r: Outcome<(nat, seq<Byte>, nat)>)
    requires pos < |data|
    ensures r.Decoded? ==> pos < r.value.0 <= |data|
  {
    match ReadVarint(data[pos..])
    case None => Rejected
    case Some((tag, n)) =>
      match ParseBody(tag / 8, tag % 8, data[pos + n..])
      case Some((f, m)) => Decoded((pos + n + m, PeekId(f, id), PeekType(f, streamType)))
      case None => if tag % 8 == 2 then Fault(LengthFault(data, pos + n)) else Rejected
  }

  /** The filter on the bytes from `pos` on, whatever they are: it gives what it has when it can read no further. */
  function PeekFrom(data: seq<Byte>, pos: nat, id: seq<Byte>, streamType: nat): Outcome<(seq<Byte>, nat)>
    requires pos <= |data|
    decreases |data| - pos
  {
    if pos == |data| then Decoded((id, streamType)) else
    match PeekField(data, pos, id, streamType)
    case Rejected => Decoded((id, streamType))
    case Panicked => Panicked
    case Decoded((next, id', type')) =>
      if id' != [] && type' > 0 then Decoded((id', type')) else PeekFrom(data, next, id', type')
  }

  method PeekOneField(data: seq<Byte>, start: nat, id: seq<Byte>, streamType: nat)
    returns (r: Outcome<(nat, seq<Byte>, nat)>)
    requires start < |data| < 0x8000_0000_0000_0000
    ensures r == PeekField(data, start, id, streamType)
  {
    hide ReadVarint, LengthFault;
    var tag, n := ConsumeVarint(data[start..]);
    if n == 0 {
      return Rejected;
    }
    var pos := start + n;
    var fieldNum, wireType := tag / 8, tag % 8;
    match wireType {
      case 0 =>
        var val, n2 := ConsumeVarint(data[pos..]);
        if n2 == 0 {
          return Rejected;
        }
        return Decoded((pos + n2, id, if fieldNum == 3 then val % U32_LIMIT else streamType));
      case 1 =>
        if pos + 8 > |data| {
          return Rejected;
        }
        return Decoded((pos + 8, id, streamType));
      case 2 =>
        var field := ReadLenDelimited(data, pos, fieldNum);
        match field {
          case Decoded((b, end)) => return Decoded((end, if fieldNum == 1 then b else id, streamType));
          case Rejected => return Rejected;
          case Panicked => return Panicked;
        }
      case 5 =>
        if pos + 4 > |data| {
          return Rejected;
        }
        return Decoded((pos + 4, id, streamType));
      case _ =>
        return Rejected;
    }
  }

  /** The filter's loop, on every byte string. */
  method PeekDataEnvelope(data: seq<Byte>) returns (r: Outcome<(seq<Byte>, nat)>)
    requires |data| < 0x8000_0000_0000_0000
    ensures r == PeekFrom(data, 0, [], 0)
  {
    hide PeekField;
    var id: seq<Byte>, streamType := [], 0;
    var pos := 0;
    while pos < |data|
      invariant pos <= |data|
      invariant PeekFrom(data, pos, id, streamType) == PeekFrom(data, 0, [], 0)
    {
      var step := PeekOneField(data, pos, id, streamType);
      match step {
        case Rejected => return Decoded((id, streamType));
        case Panicked => return Panicked;
        case Decoded((next, id', type')) => pos, id, streamType := next, id', type';
      }
      if id != [] && streamType > 0 {
        return Decoded((id, streamType));
      }
    }
    return Decoded((id, streamType));
  }

  lemma PeekWellFormed(data: seq<Byte>, pos: nat, id: seq<Byte>, streamType: nat)
    requires pos < |data| && ParseField(data[pos..]).Some?
    ensures var (f, n) := ParseField(data[pos..]).value;
            PeekField(data, pos, id, streamType) == Decoded((pos + n, PeekId(f, id), PeekType(f, streamType)))
  {
    hide ReadVarint;
    var (tag, n) := ReadVarint(data[pos..]).value;
    DropDrop(data, pos, n);
  }

  /** On the rest of a well-formed message the filter gives what its fields say. */
  lemma {:induction false} PeekOnWellFormed(data: seq<Byte>, pos: nat, id: seq<Byte>, streamType: nat)
    requires pos <= |data| && Parse(data[pos..]).Some?
    ensures PeekFrom(data, pos, id, streamType) == Decoded(PeekFields(Parse(data[pos..]).value, id, streamType))
    decreases |data| - pos
  {
    hide ParseField, PeekField;
    if pos < |data| {
      var (f, n) := ParseField(data[pos..]).value;
      PeekWellFormed(data, pos, id, streamType);
      DropTo(data, pos, n, pos + n);
      ParseStep(data[pos..], f, n, data[pos + n..]);
      assert Parse(data[pos..]).value[0] == f && Parse(data[pos..]).value[1..] == Parse(data[pos + n..]).value;
      PeekOnWellFormed(data, pos + n, PeekId(f, id), PeekType(f, streamType));
    }
  }

  lemma {:induction false} PeekFieldsOnce(fs: seq<Field>, id: seq<Byte>, t: nat)
    requires Count(fs, 2, 1) <= (if id == [] then 1 else 0)
    requires Count(fs, 0, 3) <= (if t % U32_LIMIT == 0 then 1 else 0)
    ensures PeekFields(fs, id, t % U32_LIMIT) == (LastLen(fs, 1, id), LastVarint(fs, 3, t) % U32_LIMIT)
  {
    if fs != [] {
      var f := fs[0];
      var id' := PeekId(f, id);
      var t' := if f.VarintField? && f.num == 3 then f.val else t;
      if id' != [] && t' % U32_LIMIT > 0 {
        AbsentOrSeen(fs, id, t);
      } else {
        PeekFieldsOnce(fs[1..], id', t');
      }
    }
  }

  lemma AbsentOrSeen(fs: seq<Field>, id: seq<Byte>, t: nat)
    requires fs != [] && Count(fs, 2, 1) <= (if id == [] then 1 else 0)
    requires Count(fs, 0, 3) <= (if t % U32_LIMIT == 0 then 1 else 0)
    requires PeekId(fs[0], id) != [] && PeekType(fs[0], t % U32_LIMIT) > 0
    ensures LastLen(fs, 1, id) == PeekId(fs[0], id)
    ensures LastVarint(fs, 3, t) % U32_LIMIT == PeekType(fs[0], t % U32_LIMIT)
  {
    AbsentLen(fs[1..], 1, PeekId(fs[0], id));
    AbsentVarint(fs[1..], 3, if fs[0].VarintField? && fs[0].num == 3 then fs[0].val else t);
  }

  /**
   * The filter sees the vehicle id and stream type of the full decoder on every message that
   * carries each of them at most once, although it may stop before the end.
   */
  lemma PeekMatchesDecoder(s: seq<Byte>)
    requires Parse(s).Some? && Count(Parse(s).value, 2, 1) <= 1 && Count(Parse(s).value, 0, 3) <= 1
    ensures Decode(s).Some?
    ensures PeekFrom(s, 0, [], 0) == Decoded((Decode(s).value.vehicleId, Decode(s).value.streamType % U32_LIMIT))
  {
    assert s[0..] == s;
    PeekOnWellFormed(s, 0, [], 0);
    DecodeIsLastOneWins(s);
    PeekFieldsOnce(Parse(s).value, [], 0);
  }

  // ---------------------------------------------------------------- gateway: JSON frames

  datatype JsonFrame = JsonFrame(
    vehicleId: seq<Byte>, ts: nat, lat: nat, lon: nat, alt: nat, seqNo: nat, payload: seq<Byte>)

  const NO_FRAME := JsonFrame([], 0, 0, 0, 0, 0, [])

  /** The frame of a message; `repair` replaces malformed UTF-8. */
  function ToFrame(e: DataEnvelope, repair: seq<Byte> -> seq<Byte>): JsonFrame {
    JsonFrame(repair(e.vehicleId), e.timestampNs, e.lat, e.lon, e.alt, e.seqNo, e.payload)
  }

  /** One field put into a frame; field numbers are cut to 32 bits. */
  function Put(frame: JsonFrame, f: Field, repair: seq<Byte> -> seq<Byte>): JsonFrame {
    var num := f.num % U32_LIMIT;
    match f
    case VarintField(_, v) => if num == 2 then frame.(ts := v) else if num == 8 then frame.(seqNo := v) else frame
    case Fixed64Field(_, b) => if num == 5 then frame.(lat := b) else if num == 6 then frame.(lon := b) else frame
    case LenField(_, d) =>
      if num == 1 then frame.(vehicleId := repair(d)) else if num == 4 then frame.(payload := d) else frame
    case Fixed32Field(_, b) => if num == 7 then frame.(alt := b) else frame
  }

  lemma PutIsApply(e: DataEnvelope, f: Field, repair: seq<Byte> -> seq<Byte>)
    requires f.num < U32_LIMIT
    ensures Put(ToFrame(e, repair), f, repair) == ToFrame(Apply(e, f), repair)
  {}

  /** A length-delimited value that cannot be read; a cursor beyond 64 bits panics. */
  function CursorFault(data: seq<Byte>, start: nat): (r: Outcome<()>)
    requires start <= |data|
    ensures !r.Decoded?
  {
    match ReadVarint(data[start..])
    case None => Rejected
    case Some((len, n)) => if start + n + len >= U64_LIMIT then Panicked else Rejected
  }

  /** The value after a tag under the gateway's loop. */
  function FrameField(data: seq<Byte>, start: nat, tag: nat, frame: JsonFrame, repair: seq<Byte> -> seq<Byte>):
    (r: Outcome<(nat, JsonFrame)>)
    requires start <= |data|
    ensures r.Decoded? ==> start <= r.value.0 <= |data|
  {
    match ParseBody(tag / 8, tag % 8, data[start..])
    case Some((f, n)) => Decoded((start + n, Put(frame, f, repair)))
    case None => if tag % 8 == 2 then Fault(CursorFault(data, start)) else Rejected
  }

  /** The gateway's frame from the bytes from `pos` on, whatever they are: an unreadable tag ends the message early. */
  function FrameFrom(data: seq<Byte>, pos: nat, frame: JsonFrame, repair: seq<Byte> -> seq<Byte>): Outcome<JsonFrame>
    requires pos <= |data|
    decreases |data| - pos
  {
    if pos == |data| then Decoded(frame) else
    match ReadVarint(data[pos..])
    case None => Decoded(frame)
    case Some((tag, n)) =>
      match FrameField(data, pos + n, tag, frame, repair)
      case Rejected => Rejected
      case Panicked => Panicked
      case Decoded((next, frame')) => FrameFrom(data, next, frame', repair)
  }

  /** Reads the value after a tag into the frame. */
  method FrameValue(data: seq<Byte>, start: nat, tag: nat, frame: JsonFrame, repair: seq<Byte> -> seq<Byte>)
    returns (r: Outcome<(nat, JsonFrame)>)
    requires start <= |data| < 0x8000_0000_0000_0000
    ensures r == FrameField(data, start, tag, frame, repair)
  {
    hide ReadVarint;
    var field, wiretype := tag / 8 % U32_LIMIT, tag % 8;
    match wiretype {
      case 0 =>
        var v, n := ConsumeVarint(data[start..]);
        if n == 0 {
          return Rejected;
        }
        var f := if field == 2 then frame.(ts := v) else if field == 8 then frame.(seqNo := v) else frame;
        return Decoded((start + n, f));
      case 1 =>
        if start + 8 > |data| {
          return Rejected;
        }
        DropSlice(data, start, 0, 8);
        var val := FromLittleEndian(data[start..start + 8]);
        var f := if field == 5 then frame.(lat := val) else if field == 6 then frame.(lon := val) else frame;
        return Decoded((start + 8, f));
      case 2 =>
        var len, n := ConsumeVarint(data[start..]);
        if n == 0 {
          return Rejected;
        }
        var pos := start + n;
        if pos + len >= U64_LIMIT {
          return Panicked;
        }
        var end := pos + len;
        if end > |data| {
          return Rejected;
        }
        DropSlice(data, start, n, n + len);
        var b := data[pos..end];
        var f := if field == 1 then frame.(vehicleId := repair(b))
                 else if field == 4 then frame.(payload := b) else frame;
        return Decoded((end, f));
      case 5 =>
        if start + 4 > |data| {
          return Rejected;
        }
        DropSlice(data, start, 0, 4);
        var val := FromLittleEndian(data[start..start + 4]);
        return Decoded((start + 4, if field == 7 then frame.(alt := val) else frame));
      case _ =>
        return Rejected;
    }
  }

  /** The gateway's loop, on every byte string. */
  method EnvelopeToJsonFrame(data: seq<Byte>, repair: seq<Byte> -> seq<Byte>) returns (r: Outcome<JsonFrame>)
    requires |data| < 0x8000_0000_0000_0000
    ensures r == FrameFrom(data, 0, NO_FRAME, repair)
  {
    hide ReadVarint, FrameField;
    var frame := NO_FRAME;
    var pos := 0;
    while pos < |data|
      invariant pos <= |data|
      invariant FrameFrom(data, pos, frame, repair) == FrameFrom(data, 0, NO_FRAME, repair)
    {
      var tag, n := ConsumeVarint(data[pos..]);
      if n == 0 {
        break;
      }
      var step := FrameValue(data, pos + n, tag, frame, repair);
      match step {
        case Rejected => return Rejected;
        case Panicked => return Panicked;
        case Decoded((next, frame')) => pos, frame := next, frame';
      }
    }
    return Decoded(frame);
  }

  lemma FrameWellFormed(data: seq<Byte>, pos: nat, frame: JsonFrame, repair: seq<Byte> -> seq<Byte>)
    requires pos < |data| && ParseField(data[pos..]).Some?
    ensures var (f, n) := ParseField(data[pos..]).value;
            FrameFrom(data, pos, frame, repair) == FrameFrom(data, pos + n, Put(frame, f, repair), repair)
  {
    hide ReadVarint, Put;
    var (tag, n) := ReadVarint(data[pos..]).value;
    DropDrop(data, pos, n);
  }

  lemma {:induction false} FrameIsDecoding(data: seq<Byte>, pos: nat, env: DataEnvelope, repair: seq<Byte> -> seq<Byte>)
    requires pos <= |data| && Parse(data[pos..]).Some? && SmallNumbers(Parse(data[pos..]).value)
    ensures DecodeFrom(env, data[pos..]).Some?
    ensures FrameFrom(data, pos, ToFrame(env, repair), repair)
         == Decoded(ToFrame(DecodeFrom(env, data[pos..]).value, repair))
    decreases |data| - pos
  {
    hide ParseField, Apply, Put, FrameFrom, ToFrame;
    if pos < |data| {
      var (f, n) := ParseField(data[pos..]).value;
      var next := pos + n;
      DropTo(data, pos, n, next);
      DecodeTurn(data, pos, env, next, Apply(env, f));
      ParseStep(data[pos..], f, n, data[next..]);
      var fs, rest := Parse(data[pos..]).value, Parse(data[next..]).value;
      assert fs[0] == f && forall i :: 0 <= i < |rest| ==> rest[i] == fs[i + 1];
      FrameWellFormed(data, pos, ToFrame(env, repair), repair);
      PutIsApply(env, f, repair);
      FrameIsDecoding(data, next, Apply(env, f), repair);
    } else {
      FrameAtEnd(data, ToFrame(env, repair), repair);
    }
  }

  lemma FrameAtEnd(data: seq<Byte>, frame: JsonFrame, repair: seq<Byte> -> seq<Byte>)
    ensures FrameFrom(data, |data|, frame, repair) == Decoded(frame)
  {}

  /**
   * The gateway's frame carries the seven components that the full decoder finds, on every
   * well-formed message with field numbers below 2^29.
   */
  lemma FrameMatchesDecoder(data: seq<Byte>, repair: seq<Byte> -> seq<Byte>)
    requires Parse(data).Some? && SmallNumbers(Parse(data).value) && repair([]) == []
    ensures Decode(data).Some?
    ensures var e := Decode(data).value;
            FrameFrom(data, 0, NO_FRAME, repair) == Decoded(NO_FRAME.(
              vehicleId := repair(e.vehicleId), ts := e.timestampNs, lat := e.lat, lon := e.lon, alt := e.alt,
              seqNo := e.seqNo, payload := e.payload))
  {
    hide FrameFrom;
    assert data[0..] == data;
    FrameIsDecoding(data, 0, EMPTY, repair);
  }
}
