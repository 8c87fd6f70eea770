/**
 * The telemetry message: the decoder of the ingest service, the encoder of the edge agent's ring
 * buffer and the encoder of the Python SDK.
 *
 * Strings are their UTF-8 bytes and floating point numbers their bit patterns.
 */
module Envelopes {
  import opened Bytes
  import opened Varints
  import opened Wire

  datatype DataEnvelope = DataEnvelope(
    vehicleId: seq<Byte>, timestampNs: nat, streamType: nat, payload: seq<Byte>,
    lat: nat, lon: nat, alt: nat, seqNo: nat,
    fleetId: seq<Byte>, orgId: seq<Byte>, streamName: seq<Byte>, senderId: seq<Byte>,
    senderType: seq<Byte>, receiverId: seq<Byte>, receiverType: seq<Byte>)
  {
    /** Every component is within the machine type that holds it. */
    ghost predicate InRange() {
      && timestampNs < U64_LIMIT && streamType < U64_LIMIT && seqNo < U64_LIMIT
      && lat < U64_LIMIT && lon < U64_LIMIT && alt < U32_LIMIT
      && |vehicleId| < U64_LIMIT && |payload| < U64_LIMIT
      && |fleetId| < U64_LIMIT && |orgId| < U64_LIMIT && |streamName| < U64_LIMIT && |senderId| < U64_LIMIT
      && |senderType| < U64_LIMIT && |receiverId| < U64_LIMIT && |receiverType| < U64_LIMIT
    }
  }

  const EMPTY := DataEnvelope([], 0, 0, [], 0, 0, 0, 0, [], [], [], [], [], [], [])

  // ---------------------------------------------------------------- decoding

  /** `e` with every component that occurs among `fs` replaced by its last occurrence. */
  function Onto(e: DataEnvelope, fs: seq<Field>): DataEnvelope {
    DataEnvelope(
      LastLen(fs, 1, e.vehicleId), LastVarint(fs, 2, e.timestampNs), LastVarint(fs, 3, e.streamType),
      LastLen(fs, 4, e.payload), LastFixed64(fs, 5, e.lat), LastFixed64(fs, 6, e.lon),
      LastFixed32(fs, 7, e.alt), LastVarint(fs, 8, e.seqNo),
      LastLen(fs, 16, e.fleetId), LastLen(fs, 17, e.orgId), LastLen(fs, 18, e.streamName),
      LastLen(fs, 19, e.senderId), LastLen(fs, 20, e.senderType), LastLen(fs, 21, e.receiverId),
      LastLen(fs, 22, e.receiverType))
  }

  datatype Outcome<+T> = Decoded(value: T) | Rejected | Panicked

  function AsOption<T>(r: Outcome<T>): Option<T> {
    match r
    case Decoded(v) => Some(v)
    case _ => None
  }

  /** A 64-bit word read as a two's complement number. */
  function Int64(v: nat): int {
    var w := v % U64_LIMIT;
    if w < 0x8000_0000_0000_0000 then w else w - U64_LIMIT
  }

  /** `e` after one more field. */
  function Apply(e: DataEnvelope, f: Field): DataEnvelope {
    match f
    case VarintField(num, v) => SetVarint(e, num, v)
    case Fixed64Field(num, bits) => SetFixed64(e, num, bits)
    case LenField(num, data) => SetLen(e, num, data)
    case Fixed32Field(num, bits) => SetFixed32(e, num, bits)
  }

  /** Decoding field by field, with `e` decoded so far. */
  function DecodeFrom(e: DataEnvelope, s: seq<Byte>): Option<DataEnvelope>
    decreases |s|
  {
    if s == [] then Some(e) else
    match ParseField(s)
    case None => None
    case Some((f, n)) => DecodeFrom(Apply(e, f), s[n..])
  }

  function Decode(s: seq<Byte>): Option<DataEnvelope> {
    DecodeFrom(EMPTY, s)
  }

  lemma LastOne(f: Field, num: nat, d: nat, b: seq<Byte>)
    ensures LastVarint([f], num, d) == if f.VarintField? && f.num == num then f.val else d
    ensures LastFixed64([f], num, d) == if f.Fixed64Field? && f.num == num then f.bits else d
    ensures LastFixed32([f], num, d) == if f.Fixed32Field? && f.num == num then f.bits32 else d
    ensures LastLen([f], num, b) == if f.LenField? && f.num == num then f.data else b
  {
    assert [f][1..] == [];
  }

  lemma OntoOne(e: DataEnvelope, f: Field)
    ensures Onto(e, [f]) == Apply(e, f)
  {
    LastOne(f, 1, 0, e.vehicleId);
    LastOne(f, 2, e.timestampNs, []);
    LastOne(f, 3, e.streamType, []);
    LastOne(f, 4, 0, e.payload);
    LastOne(f, 5, e.lat, []);
    LastOne(f, 6, e.lon, []);
    LastOne(f, 7, e.alt, []);
    LastOne(f, 8, e.seqNo, []);
    LastOne(f, 16, 0, e.fleetId);
    LastOne(f, 17, 0, e.orgId);
    LastOne(f, 18, 0, e.streamName);
    LastOne(f, 19, 0, e.senderId);
    LastOne(f, 20, 0, e.senderType);
    LastOne(f, 21, 0, e.receiverId);
    LastOne(f, 22, 0, e.receiverType);
  }

  lemma {:induction false} DecodeFromIsOnto(e: DataEnvelope, s: seq<Byte>)
    ensures DecodeFrom(e, s) == match Parse(s) case None => None case Some(fs) => Some(Onto(e, fs))
    decreases |s|
  {
    if s != [] && ParseField(s).Some? {
      var (f, n) := ParseField(s).value;
      DecodeFromIsOnto(Apply(e, f), s[n..]);
      OntoOne(e, f);
      if Parse(s[n..]).Some? {
        OntoAppend(e, [f], Parse(s[n..]).value);
      }
    }
  }

  /**
   * A byte string is a message exactly if it splits into fields, and every component of the
   * message is then the last field with its number and wire type, or zero.
   */
  lemma DecodeIsLastOneWins(s: seq<Byte>)
    ensures Decode(s) == match Parse(s) case None => None case Some(fs) => Some(Onto(EMPTY, fs))
  {
    DecodeFromIsOnto(EMPTY, s);
  }

  /** `pos + int(length)` in 64-bit arithmetic, compared with the slice it must stay inside. */
  method SliceEnd(pos: nat, length: nat, size: nat) returns (end: int)
    requires pos <= size < 0x8000_0000_0000_0000 && length < U64_LIMIT
    ensures end == Int64(pos + length)
    ensures pos <= end <= size <==> pos + length <= size
    ensures pos <= end <= size ==> end == pos + length
  {
    end := Int64(pos + length);
  }

  method DecodeDataEnvelope(data: seq<Byte>) returns (r: Outcome<DataEnvelope>)
    requires |data| < 0x8000_0000_0000_0000
    ensures AsOption(r) == Decode(data)
  {
    var env := EMPTY;
    var pos := 0;
    assert data[0..] == data;
    while pos < |data|
      invariant pos <= |data|
      invariant DecodeFrom(env, data[pos..]) == Decode(data)
    {
      var step := DecodeOneField(data, pos, env);
      match step {
        case Decoded((next, e)) =>
          DecodeTurn(data, pos, env, next, e);
          pos, env := next, e;
        case Rejected => return Rejected;
        case Panicked => return Panicked;
      }
    }
    return Decoded(env);
  }

  /**
   * What an unreadable length-delimited value is taken for: a length that overflows the end offset
   * fails the slice itself.
   */
  function LengthFault(data: seq<Byte>, start: nat): (r: Outcome<()>)
    requires start <= |data|
    ensures !r.Decoded?
  {
    match ReadVarint(data[start..])
    case None => Rejected
    case Some((length, n)) => if Int64(start + n + length) > |data| then Rejected else Panicked
  }

  function Fault<T>(r: Outcome<()>): Outcome<T> {
    if r.Panicked? then Panicked else Rejected
  }

  /** A length and as many bytes. */
  method ReadLenDelimited(data: seq<Byte>, start: nat, ghost num: nat) returns (r: Outcome<(seq<Byte>, nat)>)
    requires start <= |data| < 0x8000_0000_0000_0000
    ensures match ParseBody(num, 2, data[start..])
            case None => r == Fault(LengthFault(data, start))
            case Some((f, n)) => f.LenField? && r == Decoded((f.data, start + n))
  {
    var length, n := ConsumeVarint(data[start..]);
    if n == 0 {
      return Rejected;
    }
    var pos := start + n;
    var end := SliceEnd(pos, length, |data|);
    if end > |data| {
      return Rejected;
    }
    if end < pos {
      return Panicked;
    }
    DropSlice(data, start, n, n + length);
    return Decoded((data[pos..end], end));
  }

  lemma DecodeTurn(data: seq<Byte>, pos: nat, e: DataEnvelope, next: nat, e': DataEnvelope)
    requires pos < |data| && ParseField(data[pos..]).Some?
    requires (next, e') == (pos + ParseField(data[pos..]).value.1, Apply(e, ParseField(data[pos..]).value.0))
    ensures DecodeFrom(e, data[pos..]) == DecodeFrom(e', data[next..])
  {
    var (f, n) := ParseField(data[pos..]).value;
    DropTo(data, pos, n, next);
  }

  /** The body of the decoding loop: reads the field at `pos` into `env` and moves past it. */
  method DecodeOneField(data: seq<Byte>, start: nat, env: DataEnvelope) returns (r: Outcome<(nat, DataEnvelope)>)
    requires start < |data| < 0x8000_0000_0000_0000
    ensures match ParseField(data[start..])
            case None => !r.Decoded?
            case Some((f, n)) => r == Decoded((start + n, Apply(env, f)))
  {
    var tag, n := ConsumeVarint(data[start..]);
    if n == 0 {
      return Rejected;
    }
    var pos := start + n;
    var fieldNum, wireType := tag / 8, tag % 8;
    ghost var body := ParseBody(fieldNum, wireType, data[pos..]);
    if body == None {
      FieldUnreadable(data, start, tag, n);
    } else {
      FieldRead(data, start, tag, n, body.value.0, body.value.1);
    }
    match wireType {
      case 0 =>
        var val, n2 := ConsumeVarint(data[pos..]);
        if n2 == 0 {
          return Rejected;
        }
        return Decoded((pos + n2, SetVarint(env, fieldNum, val)));
      case 1 =>
        if pos + 8 > |data| {
          return Rejected;
        }
        DropSlice(data, pos, 0, 8);
        var bits := FromLittleEndian(data[pos..pos + 8]);
        return Decoded((pos + 8, SetFixed64(env, fieldNum, bits)));
      case 2 =>
        var field := ReadLenDelimited(data, pos, fieldNum);
        match field {
          case Decoded((b, end)) => return Decoded((end, SetLen(env, fieldNum, b)));
          case Rejected => return Rejected;
          case Panicked => return Panicked;
        }
      case 5 =>
        if pos + 4 > |data| {
          return Rejected;
        }
        DropSlice(data, pos, 0, 4);
        var bits := FromLittleEndian(data[pos..pos + 4]);
        return Decoded((pos + 4, SetFixed32(env, fieldNum, bits)));
      case _ =>
        return Rejected;
    }
  }

  // The inner switches of the decoder: which component a field number sets.

  function SetVarint(env: DataEnvelope, fieldNum: nat, val: nat): DataEnvelope {
    match fieldNum
    case 2 => env.(timestampNs := val)
    case 3 => env.(streamType := val)
    case 8 => env.(seqNo := val)
    case _ => env
  }

  function SetFixed64(env: DataEnvelope, fieldNum: nat, bits: nat): DataEnvelope {
    match fieldNum
    case 5 => env.(lat := bits)
    case 6 => env.(lon := bits)
    case _ => env
  }

  function SetFixed32(env: DataEnvelope, fieldNum: nat, bits: nat): DataEnvelope {
    match fieldNum
    case 7 => env.(alt := bits)
    case _ => env
  }

  function SetLen(env: DataEnvelope, fieldNum: nat, b: seq<Byte>): DataEnvelope {
    match fieldNum
    case 1 => env.(vehicleId := b)
    case 4 => env.(payload := b)
    case 16 => env.(fleetId := b)
    case 17 => env.(orgId := b)
    case 18 => env.(streamName := b)
    case 19 => env.(senderId := b)
    case 20 => env.(senderType := b)
    case 21 => env.(receiverId := b)
    case 22 => env.(receiverType := b)
    case _ => env
  }

  // ---------------------------------------------------------------- decoding is a merge

  lemma {:induction false} LastAppend(x: seq<Field>, y: seq<Field>, num: nat, d: nat, b: seq<Byte>)
    ensures LastVarint(x + y, num, d) == LastVarint(y, num, LastVarint(x, num, d))
    ensures LastFixed64(x + y, num, d) == LastFixed64(y, num, LastFixed64(x, num, d))
    ensures LastFixed32(x + y, num, d) == LastFixed32(y, num, LastFixed32(x, num, d))
    ensures LastLen(x + y, num, b) == LastLen(y, num, LastLen(x, num, b))
  {
    if x == [] {
      assert x + y == y;
    } else {
      assert (x + y)[1..] == x[1..] + y;
      var f := x[0];
      var hit := f.num == num;
      LastAppend(x[1..], y, num,
                 if !hit then d else match f
                   case VarintField(_, v) => v
                   case Fixed64Field(_, v) => v
                   case Fixed32Field(_, v) => v
                   case LenField(_, _) => d,
                 if hit && f.LenField? then f.data else b);
      LastAppend(x[1..], y, num, d, b);
    }
  }

  lemma OntoAppend(e: DataEnvelope, x: seq<Field>, y: seq<Field>)
    ensures Onto(e, x + y) == Onto(Onto(e, x), y)
  {
    LastAppend(x, y, 1, 0, e.vehicleId);
    LastAppend(x, y, 2, e.timestampNs, []);
    LastAppend(x, y, 3, e.streamType, []);
    LastAppend(x, y, 4, 0, e.payload);
    LastAppend(x, y, 5, e.lat, []);
    LastAppend(x, y, 6, e.lon, []);
    LastAppend(x, y, 7, e.alt, []);
    LastAppend(x, y, 8, e.seqNo, []);
    LastAppend(x, y, 16, 0, e.fleetId);
    LastAppend(x, y, 17, 0, e.orgId);
    LastAppend(x, y, 18, 0, e.streamName);
    LastAppend(x, y, 19, 0, e.senderId);
    LastAppend(x, y, 20, 0, e.senderType);
    LastAppend(x, y, 21, 0, e.receiverId);
    LastAppend(x, y, 22, 0, e.receiverType);
  }

  /** The later message wins wherever it says anything; `fs` are the fields it carries. */
  function Merge(x: DataEnvelope, y: DataEnvelope, fs: seq<Field>): DataEnvelope {
    DataEnvelope(
      if Occurs(fs, 2, 1) then y.vehicleId else x.vehicleId,
      if Occurs(fs, 0, 2) then y.timestampNs else x.timestampNs,
      if Occurs(fs, 0, 3) then y.streamType else x.streamType,
      if Occurs(fs, 2, 4) then y.payload else x.payload,
      if Occurs(fs, 1, 5) then y.lat else x.lat,
      if Occurs(fs, 1, 6) then y.lon else x.lon,
      if Occurs(fs, 5, 7) then y.alt else x.alt,
      if Occurs(fs, 0, 8) then y.seqNo else x.seqNo,
      if Occurs(fs, 2, 16) then y.fleetId else x.fleetId,
      if Occurs(fs, 2, 17) then y.orgId else x.orgId,
      if Occurs(fs, 2, 18) then y.streamName else x.streamName,
      if Occurs(fs, 2, 19) then y.senderId else x.senderId,
      if Occurs(fs, 2, 20) then y.senderType else x.senderType,
      if Occurs(fs, 2, 21) then y.receiverId else x.receiverId,
      if Occurs(fs, 2, 22) then y.receiverType else x.receiverType)
  }

  lemma OntoIsMerge(x: DataEnvelope, fs: seq<Field>)
    ensures Onto(x, fs) == Merge(x, Onto(EMPTY, fs), fs)
  {
    LastLenPresence(fs, 1, x.vehicleId);
    LastVarintPresence(fs, 2, x.timestampNs);
    LastVarintPresence(fs, 3, x.streamType);
    LastLenPresence(fs, 4, x.payload);
    LastFixed64Presence(fs, 5, x.lat);
    LastFixed64Presence(fs, 6, x.lon);
    LastFixed32Presence(fs, 7, x.alt);
    LastVarintPresence(fs, 8, x.seqNo);
    LastLenPresence(fs, 16, x.fleetId);
    LastLenPresence(fs, 17, x.orgId);
    LastLenPresence(fs, 18, x.streamName);
    LastLenPresence(fs, 19, x.senderId);
    LastLenPresence(fs, 20, x.senderType);
    LastLenPresence(fs, 21, x.receiverId);
    LastLenPresence(fs, 22, x.receiverType);
  }

  /** Decoding two messages written one after the other merges them, last one wins. */
  lemma DecodeIsMerge(a: seq<Byte>, b: seq<Byte>)
    requires Decode(a).Some?
    ensures Decode(b).Some? ==> Parse(b).Some?
    ensures Decode(b).Some? ==>
              Decode(a + b) == Some(Merge(Decode(a).value, Decode(b).value, Parse(b).value))
    ensures Decode(b).None? ==> Decode(a + b).None?
  {
    DecodeIsLastOneWins(a);
    DecodeIsLastOneWins(b);
    DecodeIsLastOneWins(a + b);
    ParseConcat(a, b);
    if Decode(b).Some? {
      OntoAppend(EMPTY, Parse(a).value, Parse(b).value);
      OntoIsMerge(Decode(a).value, Parse(b).value);
    }
  }

  predicate Known(f: Field) {
    match f
    case VarintField(n, _) => n in {2, 3, 8}
    case Fixed64Field(n, _) => n in {5, 6}
    case LenField(n, _) => n in {1, 4, 16, 17, 18, 19, 20, 21, 22}
    case Fixed32Field(n, _) => n == 7
  }

  /** A field the receiver does not know changes nothing, wherever it is inserted. */
  lemma UnknownFieldIgnored(a: seq<Byte>, f: Field, b: seq<Byte>)
    requires Decode(a).Some? && f.Valid() && !Known(f)
    ensures Decode(a + (PrintField(f) + b)) == Decode(a + b)
  {
    var s := PrintField(f);
    DecodeIsLastOneWins(a);
    DecodeIsLastOneWins(a + b);
    DecodeIsLastOneWins(a + (s + b));
    ParseFieldPrinted(f, b);
    assert (s + b)[|s|..] == b;
    assert Parse(s + b) == Prepend([f], Parse(b));
    ParseConcat(a, b);
    ParseConcat(a, s + b);
    var x := Parse(a).value;
    if Parse(b).Some? {
      OntoAppend(EMPTY, x, Parse(b).value);
      OntoAppend(EMPTY, x, [f] + Parse(b).value);
      OntoAppend(Onto(EMPTY, x), [f], Parse(b).value);
      OntoOne(Onto(EMPTY, x), f);
      assert Apply(Onto(EMPTY, x), f) == Onto(EMPTY, x);
    }
  }
}
