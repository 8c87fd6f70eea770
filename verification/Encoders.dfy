/**
 * The two encoders of telemetry messages, each proved to print a list of fields, and what the
 * ingest decoder makes of their output.
 */
module Encoders {
  import opened Bytes
  import opened Varints
  import opened Wire
  import opened Envelopes

  /** Floating point zero has two bit patterns. */
  predicate IsZero64(bits: nat) {
    bits == 0 || bits == 0x8000_0000_0000_0000
  }

  predicate IsZero32(bits: nat) {
    bits == 0 || bits == 0x8000_0000
  }

  // ---------------------------------------------------------------- field encoders of the edge agent

  lemma PrintOne(fs: seq<Field>, f: Field)
    ensures Print(fs + [f]) == Print(fs) + PrintField(f)
  {
    PrintAppend(fs, [f]);
    assert [f][1..] == [];
    assert Print([f]) == PrintField(f);
  }

  lemma PrintSingle(f: Field)
    ensures Print([f]) == PrintField(f) == Varint(f.num * 8 + f.WireType()) + Body(f)
  {
    assert [f][1..] == [];
    assert PrintField(f) + [] == PrintField(f);
  }

  /** A byte vector that encoders append to; `fields` is the message it spells so far. */
  class MessageBuffer {
    var bytes: seq<Byte>
    ghost var fields: seq<Field>

    ghost predicate Valid()
      reads this
    {
      bytes == Print(fields)
    }

    constructor ()
      ensures Valid() && fields == []
    {
      bytes, fields := [], [];
    }

    method Clear()
      modifies this
      ensures Valid() && fields == []
    {
      bytes, fields := [], [];
    }

    method EncodeTag(field: nat, wire: nat)
      requires wire < 8
      modifies this
      ensures bytes == old(bytes) + Varint(field * 8 + wire) && fields == old(fields)
    {
      bytes := EncodeVarint(bytes, field * 8 + wire);
    }

    /** Records that tag and body, appended one after the other, make one more field. */
    ghost method Close(before: seq<Byte>, f: Field, tag: seq<Byte>, body: seq<Byte>)
      requires tag == Varint(f.num * 8 + f.WireType()) && body == Body(f)
      requires before == Print(fields) && bytes == before + tag + body
      modifies `fields
      ensures Valid() && fields == old(fields) + [f]
    {
      PrintOne(fields, f);
      ConcatAssoc(before, tag, body);
      fields := fields + [f];
    }

    method EncodeUint64Field(field: nat, v: nat)
      requires Valid()
      modifies this
      ensures Valid() && fields == old(fields) + [VarintField(field, v)]
    {
      ghost var before := bytes;
      EncodeTag(field, 0);
      bytes := EncodeVarint(bytes, v);
      Close(before, VarintField(field, v), Varint(field * 8), Varint(v));
    }

    method EncodeLenDelimField(field: nat, data: seq<Byte>)
      requires Valid()
      modifies this
      ensures Valid() && fields == old(fields) + [LenField(field, data)]
    {
      ghost var before := bytes;
      EncodeTag(field, 2);
      bytes := EncodeVarint(bytes, |data|);
      bytes := bytes + data;
      ConcatAssoc(before + Varint(field * 8 + 2), Varint(|data|), data);
      Close(before, LenField(field, data), Varint(field * 8 + 2), Varint(|data|) + data);
    }

    method EncodeDoubleField(field: nat, bits: nat)
      requires Valid()
      modifies this
      ensures Valid() && fields == old(fields) + [Fixed64Field(field, bits)]
    {
      ghost var before := bytes;
      EncodeTag(field, 1);
      bytes := bytes + LittleEndian(bits, 8);
      Close(before, Fixed64Field(field, bits), Varint(field * 8 + 1), LittleEndian(bits, 8));
    }

    method EncodeFloatField(field: nat, bits: nat)
      requires Valid()
      modifies this
      ensures Valid() && fields == old(fields) + [Fixed32Field(field, bits)]
    {
      ghost var before := bytes;
      EncodeTag(field, 5);
      bytes := bytes + LittleEndian(bits, 4);
      Close(before, Fixed32Field(field, bits), Varint(field * 8 + 5), LittleEndian(bits, 4));
    }
  }

  // ---------------------------------------------------------------- the ring buffer's encoder

  /** The fields the edge agent sends: no longitude without a latitude, none of fields 16 to 22. */
  function RingFields(e: DataEnvelope): seq<Field> {
    [LenField(1, e.vehicleId), VarintField(2, e.timestampNs), VarintField(3, e.streamType), LenField(4, e.payload)]
    + (if IsZero64(e.lat) then [] else [Fixed64Field(5, e.lat), Fixed64Field(6, e.lon)])
    + (if IsZero32(e.alt) then [] else [Fixed32Field(7, e.alt)])
    + [VarintField(8, e.seqNo)]
  }

  method EncodeEnvelopeToBuf(buf: MessageBuffer, e: DataEnvelope)
    requires buf.Valid() && buf.fields == []
    modifies buf
    ensures buf.Valid() && buf.fields == RingFields(e)
  {
    buf.EncodeLenDelimField(1, e.vehicleId);
    buf.EncodeUint64Field(2, e.timestampNs);
    buf.EncodeUint64Field(3, e.streamType);
    buf.EncodeLenDelimField(4, e.payload);
    assert buf.fields == RingFields(e)[..4];
    if !IsZero64(e.lat) {
      buf.EncodeDoubleField(5, e.lat);
      buf.EncodeDoubleField(6, e.lon);
    }
    assert buf.fields == RingFields(e)[..4]
                         + if IsZero64(e.lat) then [] else [Fixed64Field(5, e.lat), Fixed64Field(6, e.lon)];
    if !IsZero32(e.alt) {
      buf.EncodeFloatField(7, e.alt);
    }
    assert buf.fields == RingFields(e)[..|RingFields(e)| - 1];
    buf.EncodeUint64Field(8, e.seqNo);
  }

  function RingEncode(e: DataEnvelope): seq<Byte> {
    Print(RingFields(e))
  }

  /** What is left of a message after the ring encoder. */
  function RingView(e: DataEnvelope): DataEnvelope {
    EMPTY.(vehicleId := e.vehicleId, timestampNs := e.timestampNs, streamType := e.streamType, payload := e.payload,
           lat := if IsZero64(e.lat) then 0 else e.lat,
           lon := if IsZero64(e.lat) then 0 else e.lon,
           alt := if IsZero32(e.alt) then 0 else e.alt,
           seqNo := e.seqNo)
  }

  // ---------------------------------------------------------------- the Python SDK's encoder

  /** A component is sent only if it is not the zero of its type. */
  function OptionalBytes(field: nat, data: seq<Byte>): seq<Field> {
    if data == [] then [] else [LenField(field, data)]
  }

  function OptionalVarint(field: nat, v: nat): seq<Field> {
    if v == 0 then [] else [VarintField(field, v)]
  }

  function OptionalDouble(field: nat, bits: nat): seq<Field> {
    if IsZero64(bits) then [] else [Fixed64Field(field, bits)]
  }

  function OptionalFloat(field: nat, bits: nat): seq<Field> {
    if IsZero32(bits) then [] else [Fixed32Field(field, bits)]
  }

  function PyFields(e: DataEnvelope): seq<Field> {
    OptionalBytes(1, e.vehicleId) + OptionalVarint(2, e.timestampNs)
    + OptionalVarint(3, e.streamType) + OptionalBytes(4, e.payload)
    + OptionalDouble(5, e.lat) + OptionalDouble(6, e.lon) + OptionalFloat(7, e.alt) + OptionalVarint(8, e.seqNo)
    + OptionalBytes(16, e.fleetId) + OptionalBytes(17, e.orgId)
    + OptionalBytes(18, e.streamName) + OptionalBytes(19, e.senderId)
    + OptionalBytes(20, e.senderType) + OptionalBytes(21, e.receiverId) + OptionalBytes(22, e.receiverType)
  }

  function PyView(e: DataEnvelope): DataEnvelope {
    e.(lat := if IsZero64(e.lat) then 0 else e.lat,
       lon := if IsZero64(e.lon) then 0 else e.lon,
       alt := if IsZero32(e.alt) then 0 else e.alt)
  }

  method PyFieldBytes(field: nat, data: seq<Byte>) returns (out: seq<Byte>)
    ensures out == Print(OptionalBytes(field, data))
  {
    if data == [] {
      return [];
    }
    hide Varint, Print;
    var tag := AppendVarint([], field * 8 + 2);
    var length := AppendVarint([], |data|);
    PrintSingle(LenField(field, data));
    ConcatAssoc(tag, length, data);
    return tag + length + data;
  }

  method PyFieldVarint(field: nat, v: nat) returns (out: seq<Byte>)
    ensures out == Print(OptionalVarint(field, v))
  {
    if v == 0 {
      return [];
    }
    var tag := AppendVarint([], field * 8);
    var value := AppendVarint([], v);
    PrintSingle(VarintField(field, v));
    return tag + value;
  }

  method PyFieldDouble(field: nat, bits: nat) returns (out: seq<Byte>)
    ensures out == Print(OptionalDouble(field, bits))
  {
    if IsZero64(bits) {
      return [];
    }
    var tag := AppendVarint([], field * 8 + 1);
    PrintSingle(Fixed64Field(field, bits));
    return tag + LittleEndian(bits, 8);
  }

  method PyFieldFloat(field: nat, bits: nat) returns (out: seq<Byte>)
    ensures out == Print(OptionalFloat(field, bits))
  {
    if IsZero32(bits) {
      return [];
    }
    var tag := AppendVarint([], field * 8 + 5);
    PrintSingle(Fixed32Field(field, bits));
    return tag + LittleEndian(bits, 4);
  }

  method PyEncodeDataEnvelope(e: DataEnvelope) returns (buf: seq<Byte>)
    ensures buf == Print(PyFields(e))
  {
    ghost var fs := OptionalBytes(1, e.vehicleId);
    buf := PyFieldBytes(1, e.vehicleId);
    buf, fs := PyPlusVarint(buf, fs, 2, e.timestampNs);
    buf, fs := PyPlusVarint(buf, fs, 3, e.streamType);
    buf, fs := PyPlusBytes(buf, fs, 4, e.payload);
    var part := PyFieldDouble(5, e.lat);
    PrintAppend(fs, OptionalDouble(5, e.lat));
    buf, fs := buf + part, fs + OptionalDouble(5, e.lat);
    part := PyFieldDouble(6, e.lon);
    PrintAppend(fs, OptionalDouble(6, e.lon));
    buf, fs := buf + part, fs + OptionalDouble(6, e.lon);
    part := PyFieldFloat(7, e.alt);
    PrintAppend(fs, OptionalFloat(7, e.alt));
    buf, fs := buf + part, fs + OptionalFloat(7, e.alt);
    buf, fs := PyPlusVarint(buf, fs, 8, e.seqNo);
    buf, fs := PyPlusBytes(buf, fs, 16, e.fleetId);
    buf, fs := PyPlusBytes(buf, fs, 17, e.orgId);
    buf, fs := PyPlusBytes(buf, fs, 18, e.streamName);
    buf, fs := PyPlusBytes(buf, fs, 19, e.senderId);
    buf, fs := PyPlusBytes(buf, fs, 20, e.senderType);
    buf, fs := PyPlusBytes(buf, fs, 21, e.receiverId);
    buf, fs := PyPlusBytes(buf, fs, 22, e.receiverType);
  }

  method PyPlusBytes(buf: seq<Byte>, ghost fs: seq<Field>, field: nat, data: seq<Byte>)
    returns (out: seq<Byte>, ghost gs: seq<Field>)
    requires buf == Print(fs)
    ensures out == buf + Print(OptionalBytes(field, data))
    ensures gs == fs + OptionalBytes(field, data) && out == Print(gs)
  {
    var part := PyFieldBytes(field, data);
    PrintAppend(fs, OptionalBytes(field, data));
    return buf + part, fs + OptionalBytes(field, data);
  }

  method PyPlusVarint(buf: seq<Byte>, ghost fs: seq<Field>, field: nat, v: nat)
    returns (out: seq<Byte>, ghost gs: seq<Field>)
    requires buf == Print(fs)
    ensures out == buf + Print(OptionalVarint(field, v))
    ensures gs == fs + OptionalVarint(field, v) && out == Print(gs)
  {
    var part := PyFieldVarint(field, v);
    PrintAppend(fs, OptionalVarint(field, v));
    return buf + part, fs + OptionalVarint(field, v);
  }

  // ---------------------------------------------------------------- what the decoder makes of it

  /** The decoder applied to a list of fields. */
  function ApplyAll(e: DataEnvelope, fs: seq<Field>): DataEnvelope
    decreases |fs|
  {
    if fs == [] then e else ApplyAll(Apply(e, fs[0]), fs[1..])
  }

  lemma {:induction false} DecodeFromFields(e: DataEnvelope, s: seq<Byte>)
    requires Parse(s).Some?
    ensures DecodeFrom(e, s) == Some(ApplyAll(e, Parse(s).value))
    decreases |s|
  {
    if s != [] {
      var (f, n) := ParseField(s).value;
      DecodeFromFields(Apply(e, f), s[n..]);
      assert ([f] + Parse(s[n..]).value)[1..] == Parse(s[n..]).value;
    }
  }

  lemma DecodePrinted(fs: seq<Field>)
    requires AllValid(fs)
    ensures Decode(Print(fs)) == Some(ApplyAll(EMPTY, fs))
  {
    ParsePrint(fs);
    DecodeFromFields(EMPTY, Print(fs));
  }

  lemma {:induction false} ApplyMore(e: DataEnvelope, fs: seq<Field>, f: Field)
    ensures ApplyAll(e, fs + [f]) == Apply(ApplyAll(e, fs), f)
    decreases |fs|
  {
    if fs == [] {
      assert fs + [f] == [f] && [f][1..] == [];
    } else {
      assert (fs + [f])[1..] == fs[1..] + [f];
      ApplyMore(Apply(e, fs[0]), fs[1..], f);
    }
  }

  /** One more optional field, when leaving it out means its zero. */
  lemma ApplyOptional(fs: seq<Field>, e: DataEnvelope, more: seq<Field>, zero: Field)
    requires ApplyAll(EMPTY, fs) == e && Apply(e, zero) == e && |more| <= 1
    ensures ApplyAll(EMPTY, fs + more) == Apply(e, if more == [] then zero else more[0])
  {
    if more == [] {
      assert fs + more == fs;
    } else {
      assert more == [more[0]];
      ApplyMore(EMPTY, fs, more[0]);
    }
  }

  lemma ApplyOptionalBytes(fs: seq<Field>, e: DataEnvelope, field: nat, data: seq<Byte>)
    requires ApplyAll(EMPTY, fs) == e && SetLen(e, field, []) == e
    ensures ApplyAll(EMPTY, fs + OptionalBytes(field, data)) == SetLen(e, field, data)
  {
    ApplyOptional(fs, e, OptionalBytes(field, data), LenField(field, []));
  }

  lemma ApplyOptionalVarint(fs: seq<Field>, e: DataEnvelope, field: nat, v: nat)
    requires ApplyAll(EMPTY, fs) == e && SetVarint(e, field, 0) == e
    ensures ApplyAll(EMPTY, fs + OptionalVarint(field, v)) == SetVarint(e, field, v)
  {
    ApplyOptional(fs, e, OptionalVarint(field, v), VarintField(field, 0));
  }

  lemma ApplyOptionalDouble(fs: seq<Field>, e: DataEnvelope, field: nat, bits: nat)
    requires ApplyAll(EMPTY, fs) == e && SetFixed64(e, field, 0) == e
    ensures ApplyAll(EMPTY, fs + OptionalDouble(field, bits))
         == SetFixed64(e, field, if IsZero64(bits) then 0 else bits)
  {
    ApplyOptional(fs, e, OptionalDouble(field, bits), Fixed64Field(field, 0));
  }

  lemma ApplyOptionalFloat(fs: seq<Field>, e: DataEnvelope, field: nat, bits: nat)
    requires ApplyAll(EMPTY, fs) == e && SetFixed32(e, field, 0) == e
    ensures ApplyAll(EMPTY, fs + OptionalFloat(field, bits)) == SetFixed32(e, field, if IsZero32(bits) then 0 else bits)
  {
    ApplyOptional(fs, e, OptionalFloat(field, bits), Fixed32Field(field, 0));
  }

  lemma RingFieldsValid(e: DataEnvelope)
    requires e.InRange()
    ensures AllValid(RingFields(e))
  {}

  /** The ring encoder's message field by field, the two zeros of each float told by their bits. */
  lemma RingWire(e: DataEnvelope)
    requires e.InRange()
    ensures Parse(RingEncode(e)) == Some(
              [LenField(1, e.vehicleId), VarintField(2, e.timestampNs),
               VarintField(3, e.streamType), LenField(4, e.payload)]
              + (if e.lat % 0x8000_0000_0000_0000 != 0 then [Fixed64Field(5, e.lat), Fixed64Field(6, e.lon)] else [])
              + (if e.alt % 0x8000_0000 != 0 then [Fixed32Field(7, e.alt)] else [])
              + [VarintField(8, e.seqNo)])
  {
    hide Parse, Print;
    RingFieldsValid(e);
    ParsePrint(RingFields(e));
  }

  /** The four fields every ring message starts with. */
  lemma ApplyRingHead(e: DataEnvelope)
    ensures ApplyAll(EMPTY, RingFields(e)[..4])
         == EMPTY.(vehicleId := e.vehicleId, timestampNs := e.timestampNs,
                   streamType := e.streamType, payload := e.payload)
  {
    var f1 := [LenField(1, e.vehicleId)];
    var f2 := f1 + [VarintField(2, e.timestampNs)];
    var f3 := f2 + [VarintField(3, e.streamType)];
    assert [] + f1 == f1;
    ApplyMore(EMPTY, [], LenField(1, e.vehicleId));
    ApplyMore(EMPTY, f1, VarintField(2, e.timestampNs));
    ApplyMore(EMPTY, f2, VarintField(3, e.streamType));
    ApplyMore(EMPTY, f3, LenField(4, e.payload));
    assert RingFields(e)[..4] == f3 + [LenField(4, e.payload)];
  }

  /**
   * What the ingest service decodes from the ring encoder's output: fields 1 to 4 and 8 always,
   * altitude up to the sign of zero, position only if the latitude is not zero.
   */
  lemma RingRoundTrip(e: DataEnvelope)
    requires e.InRange()
    ensures Decode(RingEncode(e)) == Some(RingView(e))
    ensures RingView(e) == EMPTY.(
              vehicleId := e.vehicleId, timestampNs := e.timestampNs, streamType := e.streamType, payload := e.payload,
              lat := if e.lat % 0x8000_0000_0000_0000 != 0 then e.lat else 0,
              lon := if e.lat % 0x8000_0000_0000_0000 != 0 then e.lon else 0,
              alt := if e.alt % 0x8000_0000 != 0 then e.alt else 0,
              seqNo := e.seqNo)
  {
    RingFieldsValid(e);
    DecodePrinted(RingFields(e));
    ApplyRingHead(e);
    var v := RingView(e);
    var f4, e4 := RingFields(e)[..4], v.(lat := 0, lon := 0, alt := 0, seqNo := 0);
    var f5, e5 := f4 + OptionalDouble(5, e.lat), e4.(lat := v.lat);
    ApplyOptionalDouble(f4, e4, 5, e.lat);
    var lon := if IsZero64(e.lat) then [] else [Fixed64Field(6, e.lon)];
    var f6, e6 := f5 + lon, e5.(lon := v.lon);
    ApplyOptional(f5, e5, lon, Fixed64Field(6, 0));
    var f7, e7 := f6 + OptionalFloat(7, e.alt), e6.(alt := v.alt);
    ApplyOptionalFloat(f6, e6, 7, e.alt);
    ApplyMore(EMPTY, f7, VarintField(8, e.seqNo));
    RingFieldsShape(e);
  }

  lemma RingFieldsShape(e: DataEnvelope)
    ensures RingFields(e) == RingFields(e)[..4] + OptionalDouble(5, e.lat)
                             + (if IsZero64(e.lat) then [] else [Fixed64Field(6, e.lon)])
                             + OptionalFloat(7, e.alt) + [VarintField(8, e.seqNo)]
  {}

  /** The ring path preserves a message exactly if it has only what the encoder sends. */
  lemma RingLossless(e: DataEnvelope)
    requires e.InRange()
    ensures Decode(RingEncode(e)) == Some(e) <==>
            && (e.lat % 0x8000_0000_0000_0000 == 0 ==> e.lat == 0 && e.lon == 0)
            && (e.alt % 0x8000_0000 == 0 ==> e.alt == 0)
            && e.fleetId == e.orgId == e.streamName == e.senderId == []
            && e.senderType == e.receiverId == e.receiverType == []
  {
    RingRoundTrip(e);
  }

  lemma PyFieldsValid(e: DataEnvelope)
    requires e.InRange()
    ensures AllValid(PyFields(e))
  {
    var head := OptionalBytes(1, e.vehicleId) + OptionalVarint(2, e.timestampNs)
                + OptionalVarint(3, e.streamType) + OptionalBytes(4, e.payload);
    assert AllValid(head);
    var middle := head + OptionalDouble(5, e.lat) + OptionalDouble(6, e.lon)
                  + OptionalFloat(7, e.alt) + OptionalVarint(8, e.seqNo);
    assert AllValid(middle);
    var more := middle + OptionalBytes(16, e.fleetId) + OptionalBytes(17, e.orgId) + OptionalBytes(18, e.streamName);
    assert AllValid(more);
  }

  /** The Python encoder's message field by field: whatever is empty or a zero is left out. */
  lemma PyWire(e: DataEnvelope)
    requires e.InRange()
    ensures Parse(Print(PyFields(e))) == Some(
              (if |e.vehicleId| > 0 then [LenField(1, e.vehicleId)] else [])
              + (if e.timestampNs > 0 then [VarintField(2, e.timestampNs)] else [])
              + (if e.streamType > 0 then [VarintField(3, e.streamType)] else [])
              + (if |e.payload| > 0 then [LenField(4, e.payload)] else [])
              + (if e.lat % 0x8000_0000_0000_0000 != 0 then [Fixed64Field(5, e.lat)] else [])
              + (if e.lon % 0x8000_0000_0000_0000 != 0 then [Fixed64Field(6, e.lon)] else [])
              + (if e.alt % 0x8000_0000 != 0 then [Fixed32Field(7, e.alt)] else [])
              + (if e.seqNo > 0 then [VarintField(8, e.seqNo)] else [])
              + (if |e.fleetId| > 0 then [LenField(16, e.fleetId)] else [])
              + (if |e.orgId| > 0 then [LenField(17, e.orgId)] else [])
              + (if |e.streamName| > 0 then [LenField(18, e.streamName)] else [])
              + (if |e.senderId| > 0 then [LenField(19, e.senderId)] else [])
              + (if |e.senderType| > 0 then [LenField(20, e.senderType)] else [])
              + (if |e.receiverId| > 0 then [LenField(21, e.receiverId)] else [])
              + (if |e.receiverType| > 0 then [LenField(22, e.receiverType)] else []))
  {
    hide Parse, Print, AllValid;
    PyFieldsValid(e);
    ParsePrint(PyFields(e));
  }

  lemma PyApplied(e: DataEnvelope)
    ensures ApplyAll(EMPTY, PyFields(e)) == PyView(e)
  {
    hide IsZero64, IsZero32, ApplyAll;
    assert ApplyAll(EMPTY, []) == EMPTY by {
      ApplyNone(EMPTY);
    }
    var f1, e1 := OptionalBytes(1, e.vehicleId), EMPTY.(vehicleId := e.vehicleId);
    ApplyOptionalBytes([], EMPTY, 1, e.vehicleId);
    assert [] + f1 == f1;
    var f2, e2 := f1 + OptionalVarint(2, e.timestampNs), e1.(timestampNs := e.timestampNs);
    ApplyOptionalVarint(f1, e1, 2, e.timestampNs);
    var f3, e3 := f2 + OptionalVarint(3, e.streamType), e2.(streamType := e.streamType);
    ApplyOptionalVarint(f2, e2, 3, e.streamType);
    var f4, e4 := f3 + OptionalBytes(4, e.payload), e3.(payload := e.payload);
    ApplyOptionalBytes(f3, e3, 4, e.payload);
    var f5, e5 := f4 + OptionalDouble(5, e.lat), e4.(lat := PyView(e).lat);
    ApplyOptionalDouble(f4, e4, 5, e.lat);
    var f6, e6 := f5 + OptionalDouble(6, e.lon), e5.(lon := PyView(e).lon);
    ApplyOptionalDouble(f5, e5, 6, e.lon);
    var f7, e7 := f6 + OptionalFloat(7, e.alt), e6.(alt := PyView(e).alt);
    ApplyOptionalFloat(f6, e6, 7, e.alt);
    ApplyOptionalVarint(f7, e7, 8, e.seqNo);
    PyTail(e, f7 + OptionalVarint(8, e.seqNo), e7.(seqNo := e.seqNo));
  }

  lemma ApplyNone(e: DataEnvelope)
    ensures ApplyAll(e, []) == e
  {}

  lemma PyTail(e: DataEnvelope, f8: seq<Field>, e8: DataEnvelope)
    requires ApplyAll(EMPTY, f8) == e8
    requires e8 == PyView(e).(fleetId := [], orgId := [], streamName := [], senderId := [],
                              senderType := [], receiverId := [], receiverType := [])
    ensures ApplyAll(EMPTY, f8 + OptionalBytes(16, e.fleetId) + OptionalBytes(17, e.orgId)
                            + OptionalBytes(18, e.streamName) + OptionalBytes(19, e.senderId)
                            + OptionalBytes(20, e.senderType) + OptionalBytes(21, e.receiverId)
                            + OptionalBytes(22, e.receiverType)) == PyView(e)
  {
    var f16, e16 := f8 + OptionalBytes(16, e.fleetId), e8.(fleetId := e.fleetId);
    ApplyOptionalBytes(f8, e8, 16, e.fleetId);
    var f17, e17 := f16 + OptionalBytes(17, e.orgId), e16.(orgId := e.orgId);
    ApplyOptionalBytes(f16, e16, 17, e.orgId);
    var f18, e18 := f17 + OptionalBytes(18, e.streamName), e17.(streamName := e.streamName);
    ApplyOptionalBytes(f17, e17, 18, e.streamName);
    var f19, e19 := f18 + OptionalBytes(19, e.senderId), e18.(senderId := e.senderId);
    ApplyOptionalBytes(f18, e18, 19, e.senderId);
    var f20, e20 := f19 + OptionalBytes(20, e.senderType), e19.(senderType := e.senderType);
    ApplyOptionalBytes(f19, e19, 20, e.senderType);
    var f21, e21 := f20 + OptionalBytes(21, e.receiverId), e20.(receiverId := e.receiverId);
    ApplyOptionalBytes(f20, e20, 21, e.receiverId);
    ApplyOptionalBytes(f21, e21, 22, e.receiverType);
  }

  /** The decoder inverts the Python encoder on every field, up to the sign of zero. */
  lemma PyRoundTrip(e: DataEnvelope)
    requires e.InRange()
    ensures Decode(Print(PyFields(e))) == Some(PyView(e))
    ensures PyView(e) == e.(lat := if e.lat % 0x8000_0000_0000_0000 != 0 then e.lat else 0,
                            lon := if e.lon % 0x8000_0000_0000_0000 != 0 then e.lon else 0,
                            alt := if e.alt % 0x8000_0000 != 0 then e.alt else 0)
  {
    hide Decode, Print, ApplyAll, PyFields, AllValid;
    PyFieldsValid(e);
    DecodePrinted(PyFields(e));
    PyApplied(e);
  }

  /** The Python encoder loses nothing but the sign of a zero. */
  lemma PyLossless(e: DataEnvelope)
    requires e.InRange()
    ensures Decode(Print(PyFields(e))) == Some(e) <==>
            e.lat != 0x8000_0000_0000_0000 && e.lon != 0x8000_0000_0000_0000 && e.alt != 0x8000_0000
  {
    PyRoundTrip(e);
  }
}
