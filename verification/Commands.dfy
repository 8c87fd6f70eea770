/**
 * The command path: the command service encodes, the relay frames, the agent decodes; and the
 * acknowledgements that come back.
 */
module Commands {
  import opened Bytes
  import opened Varints
  import opened Wire
  import opened Envelopes
  import opened Encoders
  import opened FastReaders
  import opened Telemetry

  // ---------------------------------------------------------------- messages

  datatype CommandEnvelope = CommandEnvelope(
    vehicleId: seq<Byte>, commandId: seq<Byte>, payload: seq<Byte>, priority: int,
    issuerId: seq<Byte>, issuedAt: nat, ttlMs: nat)
  {
    ghost predicate InRange() {
      && -0x8000_0000 <= priority < 0x8000_0000 && issuedAt < U64_LIMIT && ttlMs < U32_LIMIT
      && |vehicleId| < U64_LIMIT && |commandId| < U64_LIMIT && |payload| < U64_LIMIT && |issuerId| < U64_LIMIT
    }
  }

  const NO_COMMAND := CommandEnvelope([], [], [], 0, [], 0, 0)

  datatype Priority = Normal | High | Emergency

  /** A command as the agent hands it to its adapter. */
  datatype AgentCommand = AgentCommand(
    vehicleId: seq<Byte>, commandId: seq<Byte>, payload: seq<Byte>, priority: Priority, ttlMs: nat)

  /** A signed number widened to an unsigned 64-bit word. */
  function Word(v: int): nat
    requires -0x8000_0000 <= v < 0x8000_0000
  {
    if v < 0 then v + U64_LIMIT else v
  }

  lemma WordRoundTrip(v: int)
    requires -0x8000_0000 <= v < 0x8000_0000
    ensures Word(v) < U64_LIMIT && Int32(Word(v)) == v
  {}

  // ---------------------------------------------------------------- the service's encoder

  function CommandFields(c: CommandEnvelope): (fs: seq<Field>)
    requires c.InRange()
    ensures |fs| >= 4
  {
    [LenField(1, c.vehicleId), LenField(2, c.commandId), LenField(3, c.payload), VarintField(4, Word(c.priority))]
    + OptionalBytes(5, c.issuerId) + OptionalVarint(6, c.issuedAt) + OptionalVarint(7, c.ttlMs)
  }

  method AppendProtoVarint(out: seq<Byte>, ghost fs: seq<Field>, field: nat, val: nat)
    returns (out': seq<Byte>, ghost fs': seq<Field>)
    requires out == Print(fs)
    ensures out' == out + PrintField(VarintField(field, val))
    ensures fs' == fs + [VarintField(field, val)] && out' == Print(fs')
  {
    hide Print;
    out' := AppendVarint(out, field * 8);
    out' := AppendVarint(out', val);
    ConcatAssoc(out, Varint(field * 8), Varint(val));
    PrintOne(fs, VarintField(field, val));
    fs' := fs + [VarintField(field, val)];
  }

  method AppendProtoBytes(out: seq<Byte>, ghost fs: seq<Field>, field: nat, b: seq<Byte>)
    returns (out': seq<Byte>, ghost fs': seq<Field>)
    requires out == Print(fs)
    ensures out' == out + PrintField(LenField(field, b))
    ensures fs' == fs + [LenField(field, b)] && out' == Print(fs')
  {
    hide Print;
    out' := AppendVarint(out, field * 8 + 2);
    out' := AppendVarint(out', |b|);
    out' := out' + b;
    ConcatAssoc(out + Varint(field * 8 + 2), Varint(|b|), b);
    ConcatAssoc(out, Varint(field * 8 + 2), Varint(|b|) + b);
    PrintOne(fs, LenField(field, b));
    fs' := fs + [LenField(field, b)];
  }

  method EncodeCommandEnvelope(c: CommandEnvelope) returns (out: seq<Byte>)
    requires c.InRange()
    ensures out == Print(CommandFields(c))
  {
    hide Print, PrintField;
    ghost var fs: seq<Field> := [];
    PrintNone();
    out := [];
    out, fs := AppendProtoBytes(out, fs, 1, c.vehicleId);
    out, fs := AppendProtoBytes(out, fs, 2, c.commandId);
    out, fs := AppendProtoBytes(out, fs, 3, c.payload);
    out, fs := AppendProtoVarint(out, fs, 4, Word(c.priority));
    assert fs == CommandFields(c)[..4];
    if c.issuerId != [] {
      out, fs := AppendProtoBytes(out, fs, 5, c.issuerId);
    }
    assert fs == CommandFields(c)[..4] + OptionalBytes(5, c.issuerId);
    if c.issuedAt > 0 {
      out, fs := AppendProtoVarint(out, fs, 6, c.issuedAt);
    }
    assert fs == CommandFields(c)[..4] + OptionalBytes(5, c.issuerId) + OptionalVarint(6, c.issuedAt);
    if c.ttlMs > 0 {
      out, fs := AppendProtoVarint(out, fs, 7, c.ttlMs);
    }
    assert fs == CommandFields(c);
  }

  lemma PrintNone()
    ensures Print([]) == []
  {}

  // ---------------------------------------------------------------- the service's decoder

  function SetCommand(c: CommandEnvelope, f: Field): CommandEnvelope {
    match f
    case VarintField(4, v) => c.(priority := Int32(v))
    case VarintField(6, v) => c.(issuedAt := v)
    case VarintField(7, v) => c.(ttlMs := v % U32_LIMIT)
    case LenField(1, d) => c.(vehicleId := d)
    case LenField(2, d) => c.(commandId := d)
    case LenField(3, d) => c.(payload := d)
    case LenField(5, d) => c.(issuerId := d)
    case _ => c
  }

  /** Fixed-width fields are refused by this decoder. */
  predicate Scalar(f: Field) {
    f.VarintField? || f.LenField?
  }

  function CommandFrom(c: CommandEnvelope, s: seq<Byte>): Option<CommandEnvelope>
    decreases |s|
  {
    if s == [] then Some(c) else
    match ParseField(s)
    case None => None
    case Some((f, n)) => if Scalar(f) then CommandFrom(SetCommand(c, f), s[n..]) else None
  }

  function DecodeCommand(s: seq<Byte>): Option<CommandEnvelope> {
    CommandFrom(NO_COMMAND, s)
  }

  /** Reads a varint or length-delimited field; other wire types are an error. */
  method ReadScalarField(data: seq<Byte>, start: nat) returns (r: Outcome<(Field, nat)>)
    requires start < |data| < 0x8000_0000_0000_0000
    ensures match ParseField(data[start..])
            case None => !r.Decoded?
            case Some((f, n)) => if Scalar(f) then r == Decoded((f, start + n)) else r == Rejected
  {
    hide ReadVarint, ParseField;
    var tag, n := ConsumeVarint(data[start..]);
    if n == 0 {
      TagUnreadable(data, start);
      return Rejected;
    }
    var pos := start + n;
    var fieldNum, wireType := tag / 8, tag % 8;
    ghost var body := ParseBody(fieldNum, wireType, data[pos..]);
    if body == None {
      FieldUnreadable(data, start, tag, n);
    } else {
      FieldRead(data, start, tag, n, body.value.0, body.value.1);
    }
    match wireType {
      case 0 =>
        var val, n2 := ConsumeVarint(data[pos..]);
        if n2 == 0 {
          return Rejected;
        }
        return Decoded((VarintField(fieldNum, val), pos + n2));
      case 2 =>
        var field := ReadLenDelimited(data, pos, fieldNum);
        match field {
          case Decoded((b, end)) => return Decoded((LenField(fieldNum, b), end));
          case Rejected => return Rejected;
          case Panicked => return Panicked;
        }
      case _ =>
        return Rejected;
    }
  }

  lemma CommandTurn(data: seq<Byte>, pos: nat, c: CommandEnvelope, f: Field, next: nat, c': CommandEnvelope)
    requires pos < |data| && ParseField(data[pos..]).Some? && Scalar(f)
    requires (f, next) == (ParseField(data[pos..]).value.0, pos + ParseField(data[pos..]).value.1)
    requires c' == SetCommand(c, f)
    ensures CommandFrom(c, data[pos..]) == CommandFrom(c', data[next..])
  {
    hide ParseField, SetCommand;
    DropTo(data, pos, ParseField(data[pos..]).value.1, next);
  }

  method DecodeCommandEnvelopeInto(data: seq<Byte>) returns (r: Outcome<CommandEnvelope>)
    requires |data| < 0x8000_0000_0000_0000
    ensures AsOption(r) == DecodeCommand(data)
  {
    hide ParseField, SetCommand;
    var env := NO_COMMAND;
    var pos := 0;
    assert data[0..] == data;
    while pos < |data|
      invariant pos <= |data|
      invariant CommandFrom(env, data[pos..]) == DecodeCommand(data)
    {
      var step := ReadScalarField(data, pos);
      match step {
        case Rejected => return Rejected;
        case Panicked => return Panicked;
        case Decoded((f, next)) =>
          var env' := SetCommand(env, f);
          CommandTurn(data, pos, env, f, next, env');
          pos, env := next, env';
      }
    }
    return Decoded(env);
  }

  // ---------------------------------------------------------------- decoding what was printed

  function SetAll(c: CommandEnvelope, fs: seq<Field>): CommandEnvelope
    decreases |fs|
  {
    if fs == [] then c else SetAll(SetCommand(c, fs[0]), fs[1..])
  }

  lemma {:induction false} CommandFromPrinted(c: CommandEnvelope, fs: seq<Field>)
    requires AllValid(fs) && forall i :: 0 <= i < |fs| ==> Scalar(fs[i])
    ensures CommandFrom(c, Print(fs)) == Some(SetAll(c, fs))
    decreases |fs|
  {
    hide ParseField, SetCommand, PrintField;
    if fs != [] {
      var s, rest := Print(fs), Print(fs[1..]);
      ParseFieldPrinted(fs[0], rest);
      assert s[|PrintField(fs[0])|..] == rest;
      CommandFromPrinted(SetCommand(c, fs[0]), fs[1..]);
    }
  }

  lemma {:induction false} SetMore(c: CommandEnvelope, fs: seq<Field>, f: Field)
    ensures SetAll(c, fs + [f]) == SetCommand(SetAll(c, fs), f)
    decreases |fs|
  {
    if fs == [] {
      assert fs + [f] == [f] && |[f][1..]| == 0;
    } else {
      assert (fs + [f])[1..] == fs[1..] + [f];
      SetMore(SetCommand(c, fs[0]), fs[1..], f);
    }
  }

  lemma SetOptional(fs: seq<Field>, c: CommandEnvelope, more: seq<Field>, zero: Field)
    requires SetAll(NO_COMMAND, fs) == c && SetCommand(c, zero) == c && |more| <= 1
    ensures SetAll(NO_COMMAND, fs + more) == SetCommand(c, if more == [] then zero else more[0])
  {
    if more == [] {
      assert fs + more == fs;
    } else {
      assert more == [more[0]];
      SetMore(NO_COMMAND, fs, more[0]);
    }
  }

  lemma CommandFieldsFine(c: CommandEnvelope)
    requires c.InRange()
    ensures AllValid(CommandFields(c)) && SmallNumbers(CommandFields(c))
    ensures forall i :: 0 <= i < |CommandFields(c)| ==> Scalar(CommandFields(c)[i])
  {}

  lemma CommandHead(c: CommandEnvelope)
    requires c.InRange()
    ensures SetAll(NO_COMMAND, CommandFields(c)[..4]) == c.(issuerId := [], issuedAt := 0, ttlMs := 0)
  {
    WordRoundTrip(c.priority);
    var f1 := [LenField(1, c.vehicleId)];
    var f2 := f1 + [LenField(2, c.commandId)];
    var f3 := f2 + [LenField(3, c.payload)];
    assert [] + f1 == f1;
    SetMore(NO_COMMAND, [], LenField(1, c.vehicleId));
    SetMore(NO_COMMAND, f1, LenField(2, c.commandId));
    SetMore(NO_COMMAND, f2, LenField(3, c.payload));
    SetMore(NO_COMMAND, f3, VarintField(4, Word(c.priority)));
    assert CommandFields(c)[..4] == f3 + [VarintField(4, Word(c.priority))];
  }

  /** The service's message field by field; a negative priority is widened to 64 bits with its sign. */
  lemma CommandWire(c: CommandEnvelope)
    requires c.InRange()
    ensures Parse(Print(CommandFields(c))) == Some(
              [LenField(1, c.vehicleId), LenField(2, c.commandId), LenField(3, c.payload),
               VarintField(4, if c.priority < 0 then 0x1_0000_0000_0000_0000 + c.priority else c.priority)]
              + (if |c.issuerId| > 0 then [LenField(5, c.issuerId)] else [])
              + (if c.issuedAt > 0 then [VarintField(6, c.issuedAt)] else [])
              + (if c.ttlMs > 0 then [VarintField(7, c.ttlMs)] else []))
  {
    hide Parse, Print, AllValid;
    CommandFieldsFine(c);
    ParsePrint(CommandFields(c));
  }

  /** The service's decoder inverts its encoder on every command, negative priorities included. */
  lemma CommandRoundTrip(c: CommandEnvelope)
    requires c.InRange()
    ensures DecodeCommand(Print(CommandFields(c))) == Some(c)
  {
    hide Print, CommandFields, CommandFrom, SetAll;
    CommandFieldsFine(c);
    CommandFromPrinted(NO_COMMAND, CommandFields(c));
    CommandHead(c);
    var f4, c4 := CommandFields(c)[..4], c.(issuerId := [], issuedAt := 0, ttlMs := 0);
    var f5, c5 := f4 + OptionalBytes(5, c.issuerId), c4.(issuerId := c.issuerId);
    SetOptional(f4, c4, OptionalBytes(5, c.issuerId), LenField(5, []));
    var f6, c6 := f5 + OptionalVarint(6, c.issuedAt), c5.(issuedAt := c.issuedAt);
    SetOptional(f5, c5, OptionalVarint(6, c.issuedAt), VarintField(6, 0));
    SetOptional(f6, c6, OptionalVarint(7, c.ttlMs), VarintField(7, 0));
    CommandFieldsShape(c);
  }

  lemma CommandFieldsShape(c: CommandEnvelope)
    requires c.InRange()
    ensures CommandFields(c) == CommandFields(c)[..4] + OptionalBytes(5, c.issuerId)
                                + OptionalVarint(6, c.issuedAt) + OptionalVarint(7, c.ttlMs)
  {}

  lemma {:induction false} CommandFromLast(c: CommandEnvelope, p: nat, t: nat, s: seq<Byte>)
    requires c.priority == Int32(p) && c.ttlMs == t % U32_LIMIT
    ensures CommandFrom(c, s) ==
      match Parse(s)
      case None => None
      case Some(fs) =>
        if exists f :: f in fs && !Scalar(f) then None
        else Some(CommandEnvelope(LastLen(fs, 1, c.vehicleId), LastLen(fs, 2, c.commandId), LastLen(fs, 3, c.payload),
                                  Int32(LastVarint(fs, 4, p)), LastLen(fs, 5, c.issuerId),
                                  LastVarint(fs, 6, c.issuedAt), LastVarint(fs, 7, t) % U32_LIMIT))
    decreases |s|
  {
    hide ParseField;
    if s != [] && ParseField(s).Some? {
      var (f, n) := ParseField(s).value;
      CommandFromLast(SetCommand(c, f), if f.VarintField? && f.num == 4 then f.val else p,
                      if f.VarintField? && f.num == 7 then f.val else t, s[n..]);
      if Parse(s[n..]).Some? {
        var rest := Parse(s[n..]).value;
        assert ([f] + rest)[1..] == rest && forall x :: x in [f] + rest <==> x == f || x in rest;
      }
    }
  }

  /**
   * The service decodes exactly the well-formed messages without fixed-width fields, and every
   * component is the last field with its number and wire type, cut to its width, or zero.
   */
  lemma CommandIsLastOneWins(s: seq<Byte>)
    ensures DecodeCommand(s) ==
      match Parse(s)
      case None => None
      case Some(fs) =>
        if exists f :: f in fs && !(f.VarintField? || f.LenField?) then None
        else Some(CommandEnvelope(LastLen(fs, 1, []), LastLen(fs, 2, []), LastLen(fs, 3, []),
                                  Int32(LastVarint(fs, 4, 0)), LastLen(fs, 5, []),
                                  LastVarint(fs, 6, 0), LastVarint(fs, 7, 0) % 0x1_0000_0000))
  {
    CommandFromLast(NO_COMMAND, 0, 0, s);
  }

  // ---------------------------------------------------------------- the agent's decoder

  function PriorityOf(v: nat): Priority {
    if v == 2 then High else if v == 3 then Emergency else Normal
  }

  /** One field read by the agent, which cuts field numbers to 32 bits and repairs UTF-8. */
  function Take(a: AgentCommand, f: Field, repair: seq<Byte> -> seq<Byte>): AgentCommand {
    match f.(num := f.num % U32_LIMIT)
    case LenField(1, d) => a.(vehicleId := repair(d))
    case LenField(2, d) => a.(commandId := repair(d))
    case LenField(3, d) => a.(payload := d)
    case VarintField(4, v) => a.(priority := PriorityOf(v))
    case VarintField(7, v) => a.(ttlMs := v % U32_LIMIT)
    case _ => a
  }

  const NO_AGENT_COMMAND := AgentCommand([], [], [], Normal, 0)

  function TakeAll(a: AgentCommand, fs: seq<Field>, repair: seq<Byte> -> seq<Byte>): AgentCommand
    decreases |fs|
  {
    if fs == [] then a else TakeAll(Take(a, fs[0], repair), fs[1..], repair)
  }

  /** A command without a vehicle or command id is refused. */
  function Checked(a: AgentCommand): Option<AgentCommand> {
    if a.vehicleId == [] || a.commandId == [] then None else Some(a)
  }

  /** The command once the loop is over. */
  function Finish(a: AgentCommand): Outcome<AgentCommand> {
    match Checked(a)
    case None => Rejected
    case Some(b) => Decoded(b)
  }

  /**
   * The value after a tag under the agent's loop: the command and the cursor after it. Fixed-width
   * values are skipped without looking, even beyond the end; None stops at an unknown wire type.
   */
  function TakeField(buf: seq<Byte>, start: nat, tag: nat, a: AgentCommand, repair: seq<Byte> -> seq<Byte>):
    (r: Outcome<Option<(AgentCommand, nat)>>)
    requires start <= |buf|
    ensures r.Decoded? && r.value.Some? ==> r.value.value.1 >= start
  {
    match ParseBody(tag / 8, tag % 8, buf[start..])
    case Some((f, n)) => Decoded(Some((Take(a, f, repair), start + n)))
    case None =>
      match tag % 8
      case 0 => Rejected
      case 1 => Decoded(Some((a, start + 8)))
      case 2 => Fault(CursorFault(buf, start))
      case 5 => Decoded(Some((a, start + 4)))
      case _ => Decoded(None)
  }

  /** The agent's decoding of the bytes from `pos` on, whatever they are. */
  function TakeFrom(buf: seq<Byte>, pos: nat, a: AgentCommand, repair: seq<Byte> -> seq<Byte>): Outcome<AgentCommand>
    decreases |buf| - pos
  {
    if pos >= |buf| then Finish(a) else
    match ReadVarint(buf[pos..])
    case None => Rejected
    case Some((tag, n)) =>
      match TakeField(buf, pos + n, tag, a, repair)
      case Rejected => Rejected
      case Panicked => Panicked
      case Decoded(None) => Finish(a)
      case Decoded(Some((b, next))) => TakeFrom(buf, next, b, repair)
  }

  method ReadLenDelim(buf: seq<Byte>, start: nat, ghost num: nat) returns (r: Outcome<(seq<Byte>, nat)>)
    requires start <= |buf| < 0x8000_0000_0000_0000
    ensures match ParseBody(num, 2, buf[start..])
            case None => r == Fault(CursorFault(buf, start))
            case Some((f, n)) => f.LenField? && r == Decoded((f.data, start + n))
  {
    hide ReadVarint;
    var len, p := ReadVarintAt(buf, start);
    if len.None? {
      return Rejected;
    }
    if p + len.value >= U64_LIMIT {
      return Panicked;
    }
    if p + len.value > |buf| {
      return Rejected;
    }
    DropSlice(buf, start, p - start, p - start + len.value);
    return Decoded((buf[p..p + len.value], p + len.value));
  }

  method TakeValue(buf: seq<Byte>, start: nat, tag: nat, a: AgentCommand, repair: seq<Byte> -> seq<Byte>)
    returns (r: Outcome<Option<(AgentCommand, nat)>>)
    requires start <= |buf| < 0x8000_0000_0000_0000
    ensures r == TakeField(buf, start, tag, a, repair)
  {
    hide ReadVarint, CursorFault;
    var field, wire := tag / 8 % U32_LIMIT, tag % 8;
    match wire {
      case 0 =>
        var v, p := ReadVarintAt(buf, start);
        if v.None? {
          return Rejected;
        }
        var b := if field == 4 then a.(priority := PriorityOf(v.value))
                 else if field == 7 then a.(ttlMs := v.value % U32_LIMIT) else a;
        return Decoded(Some((b, p)));
      case 2 =>
        var data := ReadLenDelim(buf, start, tag / 8);
        match data {
          case Rejected => return Rejected;
          case Panicked => return Panicked;
          case Decoded((d, p)) =>
            var b := if field == 1 then a.(vehicleId := repair(d))
                     else if field == 2 then a.(commandId := repair(d))
                     else if field == 3 then a.(payload := d) else a;
            return Decoded(Some((b, p)));
        }
      case 5 => return Decoded(Some((a, start + 4)));
      case 1 => return Decoded(Some((a, start + 8)));
      case _ => return Decoded(None);
    }
  }

  /** The agent's decoder, on every byte string. */
  method DecodeCommandEnvelope(buf: seq<Byte>, repair: seq<Byte> -> seq<Byte>) returns (r: Outcome<AgentCommand>)
    requires |buf| < 0x8000_0000_0000_0000
    ensures r == TakeFrom(buf, 0, NO_AGENT_COMMAND, repair)
  {
    hide ReadVarint, TakeField;
    var a := NO_AGENT_COMMAND;
    var pos := 0;
    while pos < |buf|
      invariant TakeFrom(buf, pos, a, repair) == TakeFrom(buf, 0, NO_AGENT_COMMAND, repair)
      decreases |buf| - pos
    {
      var tag, p := ReadVarintAt(buf, pos);
      if tag.None? {
        return Rejected;
      }
      var step := TakeValue(buf, p, tag.value, a, repair);
      match step {
        case Rejected => return Rejected;
        case Panicked => return Panicked;
        case Decoded(None) => break;
        case Decoded(Some((b, next))) => a, pos := b, next;
      }
    }
    if a.vehicleId == [] {
      return Rejected;
    }
    if a.commandId == [] {
      return Rejected;
    }
    return Decoded(a);
  }

  lemma TakeWellFormed(buf: seq<Byte>, pos: nat, a: AgentCommand, repair: seq<Byte> -> seq<Byte>)
    requires pos < |buf| && ParseField(buf[pos..]).Some?
    ensures var (f, n) := ParseField(buf[pos..]).value;
            TakeFrom(buf, pos, a, repair) == TakeFrom(buf, pos + n, Take(a, f, repair), repair)
  {
    hide ReadVarint, Take;
    var (tag, n) := ReadVarint(buf[pos..]).value;
    DropDrop(buf, pos, n);
  }

  lemma TakeAtEnd(buf: seq<Byte>, a: AgentCommand, repair: seq<Byte> -> seq<Byte>)
    ensures TakeFrom(buf, |buf|, a, repair) == Finish(a)
  {}

  /** On well-formed messages the agent decodes every field in order and checks the identifiers. */
  lemma {:induction false} TakeOnWellFormed(buf: seq<Byte>, pos: nat, a: AgentCommand, repair: seq<Byte> -> seq<Byte>)
    requires pos <= |buf| && Parse(buf[pos..]).Some?
    ensures TakeFrom(buf, pos, a, repair) == Finish(TakeAll(a, Parse(buf[pos..]).value, repair))
    decreases |buf| - pos
  {
    hide ParseField, Take, Finish, TakeFrom;
    if pos == |buf| {
      TakeAtEnd(buf, a, repair);
    } else {
      var (f, n) := ParseField(buf[pos..]).value;
      TakeWellFormed(buf, pos, a, repair);
      DropTo(buf, pos, n, pos + n);
      ParseStep(buf[pos..], f, n, buf[pos + n..]);
      assert Parse(buf[pos..]).value[0] == f && Parse(buf[pos..]).value[1..] == Parse(buf[pos + n..]).value;
      TakeOnWellFormed(buf, pos + n, Take(a, f, repair), repair);
    }
  }

  lemma {:induction false} TakeAllLast(fs: seq<Field>, x: seq<Byte>, y: seq<Byte>, d: seq<Byte>, p: nat, t: nat,
                                       repair: seq<Byte> -> seq<Byte>)
    requires SmallNumbers(fs)
    ensures TakeAll(AgentCommand(repair(x), repair(y), d, PriorityOf(p), t % U32_LIMIT), fs, repair)
         == AgentCommand(repair(LastLen(fs, 1, x)), repair(LastLen(fs, 2, y)), LastLen(fs, 3, d),
                         PriorityOf(LastVarint(fs, 4, p)), LastVarint(fs, 7, t) % U32_LIMIT)
    decreases |fs|
  {
    if fs != [] {
      var f := fs[0];
      assert forall i :: 0 <= i < |fs[1..]| ==> fs[1..][i] == fs[i + 1];
      TakeAllLast(fs[1..], if f.LenField? && f.num == 1 then f.data else x,
                  if f.LenField? && f.num == 2 then f.data else y, if f.LenField? && f.num == 3 then f.data else d,
                  if f.VarintField? && f.num == 4 then f.val else p,
                  if f.VarintField? && f.num == 7 then f.val else t, repair);
    }
  }

  /**
   * Of a well-formed message with field numbers below 2^29 the agent takes the last field of each
   * number it knows, reads priority 2 as high and 3 as emergency, and refuses a command without a
   * vehicle or command id.
   */
  lemma AgentIsLastOneWins(s: seq<Byte>, repair: seq<Byte> -> seq<Byte>)
    requires Parse(s).Some? && SmallNumbers(Parse(s).value) && repair([]) == []
    ensures var fs := Parse(s).value;
            var vehicle, id, p := repair(LastLen(fs, 1, [])), repair(LastLen(fs, 2, [])), LastVarint(fs, 4, 0);
            TakeFrom(s, 0, NO_AGENT_COMMAND, repair) ==
              if vehicle == [] || id == [] then Rejected
              else Decoded(AgentCommand(vehicle, id, LastLen(fs, 3, []),
                                        if p == 2 then High else if p == 3 then Emergency else Normal,
                                        LastVarint(fs, 7, 0) % 0x1_0000_0000))
  {
    hide TakeFrom, TakeAll, Parse, SmallNumbers;
    assert s[0..] == s;
    TakeOnWellFormed(s, 0, NO_AGENT_COMMAND, repair);
    TakeAllLast(Parse(s).value, [], [], [], 0, 0, repair);
  }

  /** The relay's loop over the commands of its channel. */
  method SendCommandsFromChannel(cmds: seq<seq<Byte>>) returns (wire: seq<Byte>)
    ensures wire == Stream(cmds)
  {
    hide Stream;
    wire := [];
    StreamNone();
    for i := 0 to |cmds|
      invariant wire == Stream(cmds[..i])
    {
      assert cmds[..i + 1] == cmds[..i] + [cmds[i]] && [] + Stream(cmds[..i]) == Stream(cmds[..i]);
      wire := WriteFrame(wire, cmds[i], [], cmds[..i]);
      assert [] + Stream(cmds[..i + 1]) == Stream(cmds[..i + 1]);
    }
    assert cmds[..|cmds|] == cmds;
  }

  // ---------------------------------------------------------------- from service to adapter

  /** Priorities arrive as the protocol numbers them: 2 is high, 3 is emergency. */
  function Meaning(priority: int): Priority {
    if priority == 2 then High else if priority == 3 then Emergency else Normal
  }

  function AgentView(c: CommandEnvelope): AgentCommand {
    AgentCommand(c.vehicleId, c.commandId, c.payload, Meaning(c.priority), c.ttlMs)
  }

  lemma {:induction false} TakeMore(a: AgentCommand, fs: seq<Field>, f: Field, repair: seq<Byte> -> seq<Byte>)
    ensures TakeAll(a, fs + [f], repair) == Take(TakeAll(a, fs, repair), f, repair)
    decreases |fs|
  {
    hide Take;
    if fs == [] {
      assert fs + [f] == [f] && |[f][1..]| == 0;
    } else {
      assert (fs + [f])[1..] == fs[1..] + [f];
      TakeMore(Take(a, fs[0], repair), fs[1..], f, repair);
    }
  }

  lemma TakeOptional(fs: seq<Field>, a: AgentCommand, more: seq<Field>, zero: Field, repair: seq<Byte> -> seq<Byte>)
    requires TakeAll(NO_AGENT_COMMAND, fs, repair) == a && Take(a, zero, repair) == a && |more| <= 1
    ensures TakeAll(NO_AGENT_COMMAND, fs + more, repair) == Take(a, if more == [] then zero else more[0], repair)
  {
    if more == [] {
      assert fs + more == fs;
    } else {
      assert more == [more[0]];
      TakeMore(NO_AGENT_COMMAND, fs, more[0], repair);
    }
  }

  lemma TakeHead(c: CommandEnvelope, repair: seq<Byte> -> seq<Byte>)
    requires c.InRange() && repair(c.vehicleId) == c.vehicleId && repair(c.commandId) == c.commandId
    ensures TakeAll(NO_AGENT_COMMAND, CommandFields(c)[..4], repair) == AgentView(c).(ttlMs := 0)
  {
    var f1 := [LenField(1, c.vehicleId)];
    var f2 := f1 + [LenField(2, c.commandId)];
    var f3 := f2 + [LenField(3, c.payload)];
    assert [] + f1 == f1;
    TakeMore(NO_AGENT_COMMAND, [], LenField(1, c.vehicleId), repair);
    TakeMore(NO_AGENT_COMMAND, f1, LenField(2, c.commandId), repair);
    TakeMore(NO_AGENT_COMMAND, f2, LenField(3, c.payload), repair);
    TakeMore(NO_AGENT_COMMAND, f3, VarintField(4, Word(c.priority)), repair);
    assert CommandFields(c)[..4] == f3 + [VarintField(4, Word(c.priority))];
  }

  lemma TakeCommand(c: CommandEnvelope, repair: seq<Byte> -> seq<Byte>)
    requires c.InRange() && repair(c.vehicleId) == c.vehicleId && repair(c.commandId) == c.commandId
    ensures TakeAll(NO_AGENT_COMMAND, CommandFields(c), repair) == AgentView(c)
  {
    hide CommandFields, TakeAll;
    TakeHead(c, repair);
    var f4, a4 := CommandFields(c)[..4], AgentView(c).(ttlMs := 0);
    var f5 := f4 + OptionalBytes(5, c.issuerId);
    TakeOptional(f4, a4, OptionalBytes(5, c.issuerId), LenField(5, []), repair);
    var f6 := f5 + OptionalVarint(6, c.issuedAt);
    TakeOptional(f5, a4, OptionalVarint(6, c.issuedAt), VarintField(6, 0), repair);
    TakeOptional(f6, a4, OptionalVarint(7, c.ttlMs), VarintField(7, 0), repair);
    CommandFieldsShape(c);
  }

  /** How the agent's receiving loop ends. */
  datatype ReceiveEnd = StreamClosed | FrameTooLarge | DecoderPanicked

  /** Commands forwarded to the adapter: frames that do not decode are skipped, a panic ends the loop. */
  function Received(frames: seq<seq<Byte>>, repair: seq<Byte> -> seq<Byte>): (seq<AgentCommand>, bool) {
    if frames == [] then ([], false) else
    match TakeFrom(frames[0], 0, NO_AGENT_COMMAND, repair)
    case Decoded(a) => var (rest, panicked) := Received(frames[1..], repair); ([a] + rest, panicked)
    case Rejected => Received(frames[1..], repair)
    case Panicked => ([], true)
  }

  /** The agent's receiving loop, on every stream. */
  method ReceiveCommands(stream: seq<Byte>, repair: seq<Byte> -> seq<Byte>)
    returns (received: seq<AgentCommand>, end: ReceiveEnd)
    ensures received == Received(Deframe(stream).0, repair).0
    ensures end == if Received(Deframe(stream).0, repair).1 then DecoderPanicked
                   else if Deframe(stream).1 then FrameTooLarge else StreamClosed
  {
    hide TakeFrom;
    received := [];
    var rest := stream;
    while true
      invariant Received(Deframe(stream).0, repair).0 == received + Received(Deframe(rest).0, repair).0
      invariant Received(Deframe(stream).0, repair).1 == Received(Deframe(rest).0, repair).1
      invariant Deframe(stream).1 == Deframe(rest).1
      decreases |rest|
    {
      if |rest| < 4 {
        return received, StreamClosed;
      }
      var len := FromLittleEndian(rest[..4]);
      if len > MAX_FRAME {
        return received, FrameTooLarge;
      }
      if |rest| < 4 + len {
        return received, StreamClosed;
      }
      var payload := rest[4..4 + len];
      DeframeFirst(rest, len);
      var cmd := DecodeCommandEnvelope(payload, repair);
      rest := rest[4 + len..];
      match cmd {
        case Decoded(a) =>
          ConcatAssoc(received, [a], Received(Deframe(rest).0, repair).0);
          received := received + [a];
        case Rejected =>
        case Panicked =>
          return received, DecoderPanicked;
      }
    }
  }

  /**
   * Frames one by one: a command that decodes is forwarded in its place, a frame that does not is
   * skipped, and one on which the decoder panics is the last one looked at.
   */
  lemma {:induction false} ReceivedInTurn(x: seq<seq<Byte>>, frame: seq<Byte>, y: seq<seq<Byte>>,
                                          repair: seq<Byte> -> seq<Byte>)
    requires !Received(x, repair).1
    ensures var before, after := Received(x, repair).0, Received(y, repair);
            Received(x + [frame] + y, repair) ==
              match TakeFrom(frame, 0, NO_AGENT_COMMAND, repair)
              case Decoded(a) => (before + [a] + after.0, after.1)
              case Rejected => (before + after.0, after.1)
              case Panicked => (before, true)
  {
    hide TakeFrom;
    var all := x + [frame] + y;
    if x == [] {
      assert all[1..] == y && [] + Received(y, repair).0 == Received(y, repair).0;
      if TakeFrom(frame, 0, NO_AGENT_COMMAND, repair).Decoded? {
        var a := TakeFrom(frame, 0, NO_AGENT_COMMAND, repair).value;
        assert Received(x, repair).0 + [a] == [a];
      }
    } else {
      assert all[1..] == x[1..] + [frame] + y;
      ReceivedInTurn(x[1..], frame, y, repair);
      if TakeFrom(x[0], 0, NO_AGENT_COMMAND, repair).Decoded? {
        var a := TakeFrom(x[0], 0, NO_AGENT_COMMAND, repair).value;
        Shift(a, Received(x[1..], repair).0, TakeFrom(frame, 0, NO_AGENT_COMMAND, repair), Received(y, repair).0);
      }
    }
  }

  lemma Shift(a: AgentCommand, x: seq<AgentCommand>, r: Outcome<AgentCommand>, y: seq<AgentCommand>)
    ensures [a] + (x + y) == [a] + x + y
    ensures r.Decoded? ==> [a] + (x + [r.value] + y) == [a] + x + [r.value] + y
  {
    if r.Decoded? {
      assert [a] + (x + [r.value] + y) == [a] + x + [r.value] + y;
    }
  }

  /** A command that the path carries whole. */
  ghost predicate Deliverable(c: CommandEnvelope, repair: seq<Byte> -> seq<Byte>)
    requires c.InRange()
  {
    && c.vehicleId != [] && c.commandId != []
    && repair(c.vehicleId) == c.vehicleId && repair(c.commandId) == c.commandId
    && |Print(CommandFields(c))| <= 65_536
  }

  function Encodings(cs: seq<CommandEnvelope>): (r: seq<seq<Byte>>)
    requires forall i :: 0 <= i < |cs| ==> cs[i].InRange()
    ensures |r| == |cs|
  {
    seq(|cs|, i requires 0 <= i < |cs| => Print(CommandFields(cs[i])))
  }

  lemma AcceptedCommand(c: CommandEnvelope, repair: seq<Byte> -> seq<Byte>)
    requires c.InRange() && Deliverable(c, repair)
    ensures TakeFrom(Print(CommandFields(c)), 0, NO_AGENT_COMMAND, repair) == Decoded(AgentView(c))
  {
    hide CommandFields, TakeAll, TakeFrom, Print;
    var s := Print(CommandFields(c));
    CommandFieldsFine(c);
    ParsePrint(CommandFields(c));
    assert s[0..] == s;
    TakeOnWellFormed(s, 0, NO_AGENT_COMMAND, repair);
    TakeCommand(c, repair);
  }

  /**
   * The main theorem of the command path: any sequence of commands with well-formed nonempty ids
   * and encodings within the frame limit, encoded by the service, framed by the relay and decoded
   * by the agent, arrives as the same sequence, with the protocol's meaning of each priority.
   */
  lemma CommandsArrive(cs: seq<CommandEnvelope>, repair: seq<Byte> -> seq<Byte>)
    requires forall i :: 0 <= i < |cs| ==> cs[i].InRange() && Deliverable(cs[i], repair)
    ensures var (frames, closed) := Deframe(Stream(Encodings(cs)));
            && !closed && Received(frames, repair) == (seq(|cs|, i requires 0 <= i < |cs| => AgentView(cs[i])), false)
    ensures forall c :: c in cs ==> AgentView(c) == AgentCommand(
              c.vehicleId, c.commandId, c.payload,
              if c.priority == 2 then High else if c.priority == 3 then Emergency else Normal, c.ttlMs)
  {
    hide CommandFields, Print, TakeFrom;
    var frames := Encodings(cs);
    DeframeStream(frames);
    NoOversize(frames);
    forall i | 0 <= i < |cs|
      ensures TakeFrom(frames[i], 0, NO_AGENT_COMMAND, repair) == Decoded(AgentView(cs[i]))
    {
      AcceptedCommand(cs[i], repair);
    }
    ReceivedAll(frames, seq(|cs|, i requires 0 <= i < |cs| => AgentView(cs[i])), repair);
  }

  lemma {:induction false} ReceivedAll(frames: seq<seq<Byte>>, views: seq<AgentCommand>, repair: seq<Byte> -> seq<Byte>)
    requires |frames| == |views|
    requires forall i :: 0 <= i < |frames| ==> TakeFrom(frames[i], 0, NO_AGENT_COMMAND, repair) == Decoded(views[i])
    ensures Received(frames, repair) == (views, false)
  {
    hide TakeFrom;
    if frames != [] {
      ReceivedAll(frames[1..], views[1..], repair);
      assert [views[0]] + views[1..] == views;
    }
  }

  // ---------------------------------------------------------------- acknowledgements

  datatype AckStatus = AckAccepted | AckCompleted | AckRejected | AckFailed | AckTimeout

  /** An acknowledgement as the agent sends it. */
  datatype Ack = Ack(commandId: seq<Byte>, status: AckStatus, message: seq<Byte>, ackTimeNs: nat)
  {
    ghost predicate InRange() {
      |commandId| < U64_LIMIT && |message| < U64_LIMIT && ackTimeNs < U64_LIMIT
    }
  }

  function StatusCode(s: AckStatus): nat {
    match s
    case AckAccepted => 1
    case AckCompleted => 2
    case AckRejected => 3
    case AckFailed => 4
    case AckTimeout => 5
  }

  /** An acknowledgement as the service reads and sends it. */
  datatype CommandAck = CommandAck(
    commandId: seq<Byte>, vehicleId: seq<Byte>, status: int, message: seq<Byte>, latencyMs: nat)
  {
    ghost predicate InRange() {
      && -0x8000_0000 <= status < 0x8000_0000 && latencyMs < U32_LIMIT
      && |commandId| < U64_LIMIT && |vehicleId| < U64_LIMIT && |message| < U64_LIMIT
    }
  }

  const NO_ACK := CommandAck([], [], 0, [], 0)

  function AgentAckFields(a: Ack): seq<Field> {
    [LenField(1, a.commandId), VarintField(2, StatusCode(a.status))]
    + OptionalBytes(3, a.message) + [VarintField(4, a.ackTimeNs)]
  }

  function ServiceAckFields(k: CommandAck): seq<Field>
    requires k.InRange()
  {
    OptionalBytes(1, k.commandId) + OptionalBytes(2, k.vehicleId) + OptionalVarint(3, Word(k.status))
    + OptionalBytes(4, k.message) + OptionalVarint(5, k.latencyMs)
  }

  /** The agent's encoder, with its four tags as single octets. */
  method EncodeAck(a: Ack) returns (buf: seq<Byte>)
    ensures buf == Print(AgentAckFields(a))
  {
    hide Print, PrintField;
    ghost var fs: seq<Field> := [];
    PrintNone();
    buf := [];
    buf, fs := AppendLiteral(buf, fs, 0x0A, LenField(1, a.commandId));
    buf, fs := AppendLiteral(buf, fs, 0x10, VarintField(2, StatusCode(a.status)));
    assert fs == [LenField(1, a.commandId), VarintField(2, StatusCode(a.status))];
    if a.message != [] {
      buf, fs := AppendLiteral(buf, fs, 0x1A, LenField(3, a.message));
    }
    assert fs == [LenField(1, a.commandId), VarintField(2, StatusCode(a.status))] + OptionalBytes(3, a.message);
    buf, fs := AppendLiteral(buf, fs, 0x20, VarintField(4, a.ackTimeNs));
  }

  /** A tag octet, then a number, or a length and its bytes. */
  method AppendLiteral(buf: seq<Byte>, ghost fs: seq<Field>, tag: Byte, f: Field)
    returns (out: seq<Byte>, ghost fs': seq<Field>)
    requires buf == Print(fs) && tag < 128 && (f.VarintField? || f.LenField?)
    requires tag == f.num * 8 + if f.VarintField? then 0 else 2
    ensures out == buf + PrintField(f)
    ensures fs' == fs + [f] && out == Print(fs')
  {
    hide Print;
    out := buf + [tag];
    assert Varint(tag) == [tag];
    match f {
      case VarintField(_, v) =>
        out := AppendVarintFlagged(out, v);
        ConcatAssoc(buf, [tag], Varint(v));
      case LenField(_, d) =>
        out := AppendVarintFlagged(out, |d|);
        out := out + d;
        ConcatAssoc(buf + [tag], Varint(|d|), d);
        ConcatAssoc(buf, [tag], Varint(|d|) + d);
    }
    PrintOne(fs, f);
    fs' := fs + [f];
  }

  /** The service's encoder: components that are empty or zero are left out. */
  method EncodeCommandAckProto(k: CommandAck) returns (out: seq<Byte>)
    requires k.InRange()
    ensures out == Print(ServiceAckFields(k))
  {
    hide Print, PrintField;
    ghost var fs: seq<Field> := [];
    PrintNone();
    out := [];
    if k.commandId != [] {
      out, fs := AppendProtoBytes(out, fs, 1, k.commandId);
    }
    ghost var f1 := OptionalBytes(1, k.commandId);
    assert fs == f1;
    if k.vehicleId != [] {
      out, fs := AppendProtoBytes(out, fs, 2, k.vehicleId);
    }
    ghost var f2 := f1 + OptionalBytes(2, k.vehicleId);
    assert fs == f2;
    if k.status != 0 {
      out, fs := AppendProtoVarint(out, fs, 3, Word(k.status));
    }
    ghost var f3 := f2 + OptionalVarint(3, Word(k.status));
    assert fs == f3;
    if k.message != [] {
      out, fs := AppendProtoBytes(out, fs, 4, k.message);
    }
    ghost var f4 := f3 + OptionalBytes(4, k.message);
    assert fs == f4;
    if k.latencyMs > 0 {
      out, fs := AppendProtoVarint(out, fs, 5, k.latencyMs);
    }
    assert fs == f4 + OptionalVarint(5, k.latencyMs);
  }

  function SetAck(k: CommandAck, f: Field): CommandAck {
    match f
    case VarintField(3, v) => k.(status := Int32(v))
    case VarintField(5, v) => k.(latencyMs := v % U32_LIMIT)
    case LenField(1, d) => k.(commandId := d)
    case LenField(2, d) => k.(vehicleId := d)
    case LenField(4, d) => k.(message := d)
    case _ => k
  }

  /** The service's reading of a well-formed acknowledgement; fixed-width fields are an error. */
  function AckOf(k: CommandAck, fs: seq<Field>): Option<CommandAck>
    decreases |fs|
  {
    if fs == [] then Some(k)
    else if !Scalar(fs[0]) then None
    else AckOf(SetAck(k, fs[0]), fs[1..])
  }

  /**
   * One field under the service's decoder; None for a tag that cannot be read. A value's slice is
   * taken without a bounds check: past the message it runs into `spare`, what the buffer holds behind
   * the message, and past that it panics.
   */
  function AckField(data: seq<Byte>, spare: seq<Byte>, pos: nat, k: CommandAck): (r: Outcome<Option<(CommandAck, nat)>>)
    requires pos < |data|
    ensures r.Decoded? && r.value.Some? ==> pos < r.value.value.1
  {
    match ReadVarint(data[pos..])
    case None => Decoded(None)
    case Some((tag, n)) =>
      match tag % 8
      case 0 =>
        (match ReadVarint(data[pos + n..])
         case None => Rejected
         case Some((v, m)) => Decoded(Some((SetAck(k, VarintField(tag / 8, v)), pos + n + m))))
      case 2 =>
        (match ReadVarint(data[pos + n..])
         case None => Rejected
         case Some((len, m)) =>
           var from := pos + n + m;
           if from + len > |data + spare| then Panicked
           else Decoded(Some((SetAck(k, LenField(tag / 8, (data + spare)[from..from + len])), from + len))))
      case _ => Rejected
  }

  /** The service's decoding of the bytes from `pos` on, whatever they are: a bad tag ends the message early. */
  function AckFrom(data: seq<Byte>, spare: seq<Byte>, pos: nat, k: CommandAck): Outcome<CommandAck>
    decreases |data| - pos
  {
    if pos >= |data| then Decoded(k) else
    match AckField(data, spare, pos, k)
    case Rejected => Rejected
    case Panicked => Panicked
    case Decoded(None) => Decoded(k)
    case Decoded(Some((k', next))) => AckFrom(data, spare, next, k')
  }

  method ReadAckField(data: seq<Byte>, spare: seq<Byte>, start: nat, k: CommandAck)
    returns (r: Outcome<Option<(CommandAck, nat)>>)
    requires start < |data| && |data + spare| < 0x8000_0000_0000_0000
    ensures r == AckField(data, spare, start, k)
  {
    hide ReadVarint;
    var tag, n := ConsumeVarint(data[start..]);
    if n == 0 {
      return Decoded(None);
    }
    var pos := start + n;
    var fieldNum, wireType := tag / 8, tag % 8;
    match wireType {
      case 0 =>
        var val, n2 := ConsumeVarint(data[pos..]);
        if n2 == 0 {
          return Rejected;
        }
        return Decoded(Some((SetAck(k, VarintField(fieldNum, val)), pos + n2)));
      case 2 =>
        var length, n2 := ConsumeVarint(data[pos..]);
        if n2 == 0 {
          return Rejected;
        }
        var from := pos + n2;
        var end := SliceEnd(from, length, |data + spare|);
        if end < from || end > |data + spare| {
          return Panicked;
        }
        return Decoded(Some((SetAck(k, LenField(fieldNum, (data + spare)[from..end])), end)));
      case _ =>
        return Rejected;
    }
  }

  /** The service's decoder, on every byte string in every buffer. */
  method DecodeCommandAck(data: seq<Byte>, spare: seq<Byte>) returns (r: Outcome<CommandAck>)
    requires |data + spare| < 0x8000_0000_0000_0000
    ensures r == AckFrom(data, spare, 0, NO_ACK)
  {
    hide AckField;
    var ack := NO_ACK;
    var pos := 0;
    while pos < |data|
      invariant AckFrom(data, spare, pos, ack) == AckFrom(data, spare, 0, NO_ACK)
      decreases |data| - pos
    {
      var step := ReadAckField(data, spare, pos, ack);
      match step {
        case Rejected => return Rejected;
        case Panicked => return Panicked;
        case Decoded(None) => break;
        case Decoded(Some((ack', next))) => ack, pos := ack', next;
      }
    }
    return Decoded(ack);
  }

  lemma AckWellFormed(data: seq<Byte>, spare: seq<Byte>, pos: nat, k: CommandAck)
    requires pos < |data| && ParseField(data[pos..]).Some?
    ensures var (f, n) := ParseField(data[pos..]).value;
            AckField(data, spare, pos, k) == if Scalar(f) then Decoded(Some((SetAck(k, f), pos + n))) else Rejected
  {
    hide ReadVarint, SetAck;
    var (tag, n) := ReadVarint(data[pos..]).value;
    var (f, m) := ParseBody(tag / 8, tag % 8, data[pos + n..]).value;
    DropDrop(data, pos, n);
    if tag % 8 == 2 {
      var (len, j) := ReadVarint(data[pos + n..]).value;
      var from := pos + n + j;
      DropSlice(data, pos + n, j, j + len);
      assert (data + spare)[from..from + len] == data[from..from + len];
    }
  }

  /** On well-formed messages the decoder never panics, fails exactly on a fixed-width field, and does not read on. */
  lemma {:induction false} AckOnWellFormed(data: seq<Byte>, spare: seq<Byte>, pos: nat, k: CommandAck)
    requires pos <= |data| && Parse(data[pos..]).Some?
    ensures AckFrom(data, spare, pos, k) != Panicked
    ensures AsOption(AckFrom(data, spare, pos, k)) == AckOf(k, Parse(data[pos..]).value)
    decreases |data| - pos
  {
    hide ParseField, SetAck, AckField;
    if pos < |data| {
      var (f, n) := ParseField(data[pos..]).value;
      AckWellFormed(data, spare, pos, k);
      DropTo(data, pos, n, pos + n);
      ParseStep(data[pos..], f, n, data[pos + n..]);
      assert Parse(data[pos..]).value[0] == f && Parse(data[pos..]).value[1..] == Parse(data[pos + n..]).value;
      if Scalar(f) {
        AckOnWellFormed(data, spare, pos + n, SetAck(k, f));
      }
    }
  }

  /** What an encoder's fields are decoded to. */
  lemma AckPrinted(fs: seq<Field>, spare: seq<Byte>, k: CommandAck)
    requires AllValid(fs) && AckOf(NO_ACK, fs) == Some(k)
    ensures AckFrom(Print(fs), spare, 0, NO_ACK) == Decoded(k)
  {
    hide AckFrom, Print;
    var s := Print(fs);
    ParsePrint(fs);
    assert s[0..] == s;
    AckOnWellFormed(s, spare, 0, NO_ACK);
  }

  lemma {:induction false} AckMore(k: CommandAck, fs: seq<Field>, f: Field)
    requires AckOf(k, fs).Some? && Scalar(f)
    ensures AckOf(k, fs + [f]) == Some(SetAck(AckOf(k, fs).value, f))
    decreases |fs|
  {
    hide SetAck;
    if fs == [] {
      assert fs + [f] == [f] && |[f][1..]| == 0;
    } else {
      assert (fs + [f])[1..] == fs[1..] + [f];
      AckMore(SetAck(k, fs[0]), fs[1..], f);
    }
  }

  lemma AckOptional(fs: seq<Field>, k: CommandAck, more: seq<Field>, zero: Field)
    requires AckOf(NO_ACK, fs) == Some(k) && SetAck(k, zero) == k && |more| <= 1
    requires more != [] ==> Scalar(more[0])
    ensures AckOf(NO_ACK, fs + more) == Some(SetAck(k, if more == [] then zero else more[0]))
  {
    if more == [] {
      assert fs + more == fs;
    } else {
      assert more == [more[0]];
      AckMore(NO_ACK, fs, more[0]);
    }
  }

  /** The agent's acknowledgement field by field. */
  lemma AgentAckWire(a: Ack)
    requires a.InRange()
    ensures var code := match a.status
              case AckAccepted => 1
              case AckCompleted => 2
              case AckRejected => 3
              case AckFailed => 4
              case AckTimeout => 5;
            Parse(Print(AgentAckFields(a))) == Some(
              [LenField(1, a.commandId), VarintField(2, code)]
              + (if |a.message| > 0 then [LenField(3, a.message)] else []) + [VarintField(4, a.ackTimeNs)])
  {
    hide Parse, Print;
    ParsePrint(AgentAckFields(a));
  }

  /** The service's acknowledgement field by field: what is empty or zero is left out. */
  lemma ServiceAckWire(k: CommandAck)
    requires k.InRange()
    ensures Parse(Print(ServiceAckFields(k))) == Some(
              (if |k.commandId| > 0 then [LenField(1, k.commandId)] else [])
              + (if |k.vehicleId| > 0 then [LenField(2, k.vehicleId)] else [])
              + (if k.status > 0 then [VarintField(3, k.status)]
                 else if k.status < 0 then [VarintField(3, 0x1_0000_0000_0000_0000 + k.status)] else [])
              + (if |k.message| > 0 then [LenField(4, k.message)] else [])
              + (if k.latencyMs > 0 then [VarintField(5, k.latencyMs)] else []))
  {
    hide Parse, Print, AllValid;
    ServiceAckValid(k);
    ParsePrint(ServiceAckFields(k));
  }

  lemma {:induction false} AckOfLast(k: CommandAck, status: nat, latency: nat, fs: seq<Field>)
    requires k.status == Int32(status) && k.latencyMs == latency % U32_LIMIT
    ensures AckOf(k, fs) ==
      if exists f :: f in fs && !Scalar(f) then None
      else Some(CommandAck(LastLen(fs, 1, k.commandId), LastLen(fs, 2, k.vehicleId), Int32(LastVarint(fs, 3, status)),
                           LastLen(fs, 4, k.message), LastVarint(fs, 5, latency) % U32_LIMIT))
    decreases |fs|
  {
    if fs != [] {
      var f := fs[0];
      assert forall x :: x in fs <==> x == f || x in fs[1..];
      AckOfLast(SetAck(k, f), if f.VarintField? && f.num == 3 then f.val else status,
                if f.VarintField? && f.num == 5 then f.val else latency, fs[1..]);
    }
  }

  /**
   * The service reads exactly the well-formed acknowledgements without fixed-width fields, whatever
   * the buffer holds behind them, and every component is its last occurrence, cut to its width.
   */
  lemma AckIsLastOneWins(s: seq<Byte>, spare: seq<Byte>)
    requires Parse(s).Some?
    ensures var fs := Parse(s).value;
            AsOption(AckFrom(s, spare, 0, NO_ACK)) ==
              if exists f :: f in fs && !(f.VarintField? || f.LenField?) then None
              else Some(CommandAck(LastLen(fs, 1, []), LastLen(fs, 2, []), Int32(LastVarint(fs, 3, 0)),
                                   LastLen(fs, 4, []), LastVarint(fs, 5, 0) % 0x1_0000_0000))
  {
    hide AckFrom, AckOf, Parse;
    assert s[0..] == s;
    AckOnWellFormed(s, spare, 0, NO_ACK);
    AckOfLast(NO_ACK, 0, 0, Parse(s).value);
  }

  /** Of an agent's acknowledgement the service reads the command id and nothing else. */
  lemma AgentAckKeepsOnlyId(a: Ack, spare: seq<Byte>)
    requires a.InRange()
    ensures AckFrom(Print(AgentAckFields(a)), spare, 0, NO_ACK) == Decoded(NO_ACK.(commandId := a.commandId))
  {
    hide Print, AckFrom;
    var f1, k1 := [LenField(1, a.commandId)], NO_ACK.(commandId := a.commandId);
    assert [] + f1 == f1;
    AckMore(NO_ACK, [], LenField(1, a.commandId));
    var f2 := f1 + [VarintField(2, StatusCode(a.status))];
    AckMore(NO_ACK, f1, VarintField(2, StatusCode(a.status)));
    var f3 := f2 + OptionalBytes(3, a.message);
    AckOptional(f2, k1, OptionalBytes(3, a.message), LenField(3, []));
    AckMore(NO_ACK, f3, VarintField(4, a.ackTimeNs));
    assert f3 + [VarintField(4, a.ackTimeNs)] == AgentAckFields(a);
    AckPrinted(AgentAckFields(a), spare, k1);
  }

  lemma ServiceAckHead(k: CommandAck)
    requires k.InRange()
    ensures var head := OptionalBytes(1, k.commandId) + OptionalBytes(2, k.vehicleId);
            AckOf(NO_ACK, head) == Some(NO_ACK.(commandId := k.commandId, vehicleId := k.vehicleId))
  {
    var f1 := OptionalBytes(1, k.commandId);
    assert [] + f1 == f1;
    AckOptional([], NO_ACK, f1, LenField(1, []));
    AckOptional(f1, NO_ACK.(commandId := k.commandId), OptionalBytes(2, k.vehicleId), LenField(2, []));
  }

  lemma ServiceAckTail(k: CommandAck, head: seq<Field>, k2: CommandAck)
    requires k.InRange() && k2 == NO_ACK.(commandId := k.commandId, vehicleId := k.vehicleId)
    requires AckOf(NO_ACK, head) == Some(k2)
    ensures AckOf(NO_ACK, head + OptionalVarint(3, Word(k.status)) + OptionalBytes(4, k.message)
                          + OptionalVarint(5, k.latencyMs))
         == Some(k)
  {
    WordRoundTrip(k.status);
    var f3, k3 := head + OptionalVarint(3, Word(k.status)), k2.(status := k.status);
    AckOptional(head, k2, OptionalVarint(3, Word(k.status)), VarintField(3, 0));
    AckOptional(f3, k3, OptionalBytes(4, k.message), LenField(4, []));
    var f4, k4 := f3 + OptionalBytes(4, k.message), k3.(message := k.message);
    AckOptional(f4, k4, OptionalVarint(5, k.latencyMs), VarintField(5, 0));
  }

  lemma ServiceAckValid(k: CommandAck)
    requires k.InRange()
    ensures AllValid(ServiceAckFields(k))
  {}

  /** The service's own acknowledgements are read back whole, negative statuses included. */
  lemma AckRoundTrip(k: CommandAck, spare: seq<Byte>)
    requires k.InRange()
    ensures AckFrom(Print(ServiceAckFields(k)), spare, 0, NO_ACK) == Decoded(k)
  {
    hide Print, AckFrom, AckOf, Word, AllValid;
    ServiceAckHead(k);
    ServiceAckTail(k, OptionalBytes(1, k.commandId) + OptionalBytes(2, k.vehicleId),
                   NO_ACK.(commandId := k.commandId, vehicleId := k.vehicleId));
    ServiceAckValid(k);
    AckPrinted(ServiceAckFields(k), spare, k);
  }
}
