/**
 * What the five decoders outside the ingest service make of a message that goes wrong: well-formed
 * fields, and then bytes that are no field. They differ: one ignores the rest, one fails, one stops
 * or fails by the kind of damage, one reads on into whatever the buffer holds behind the message.
 */
module Malformed {
  import opened Bytes
  import opened Varints
  import opened Wire
  import opened Envelopes
  import opened FastReaders
  import opened Commands

  /** Bytes that do not start with a field. */
  predicate Damaged(g: seq<Byte>) {
    g != [] && ParseField(g).None?
  }

  /** A message of well-formed fields `a` and damage `g`, short enough for the machine. */
  ghost predicate Broken(a: seq<Byte>, g: seq<Byte>) {
    Parse(a).Some? && Damaged(g) && |a + g| < 0x8000_0000_0000_0000
  }

  lemma Before(a: seq<Byte>, g: seq<Byte>, pos: nat)
    requires pos < |a| && Parse(a[pos..]).Some?
    ensures ParseField(a[pos..]).Some? && ParseField((a + g)[pos..]) == ParseField(a[pos..])
    ensures var (f, n) := ParseField(a[pos..]).value;
            && pos + n <= |a| && Parse(a[pos + n..]).Some?
            && Parse(a[pos..]).value == [f] + Parse(a[pos + n..]).value
  {
    assert (a + g)[pos..] == a[pos..] + g;
    ParseFieldStable(a[pos..], g);
    DropDrop(a, pos, ParseField(a[pos..]).value.1);
  }

  /** At the damage: its tag, if it has one, and what is left after the tag. */
  lemma At(a: seq<Byte>, g: seq<Byte>)
    requires Damaged(g)
    ensures (a + g)[|a|..] == g
    ensures ReadVarint(g).Some? ==>
              var (tag, n) := ReadVarint(g).value;
              && (a + g)[|a| + n..] == g[n..] && ParseBody(tag / 8, tag % 8, g[n..]).None?
  {
    assert (a + g)[|a|..] == g;
    if ReadVarint(g).Some? {
      var n := ReadVarint(g).value.1;
      assert (a + g)[|a| + n..] == g[n..];
    }
  }

  // ---------------------------------------------------------------- relay: stream type

  lemma {:induction false} FastPasses(a: seq<Byte>, g: seq<Byte>, pos: nat)
    requires pos <= |a| < 64 && |a + g| < 0x8000_0000_0000_0000 && Parse(a[pos..]).Some?
    requires forall f :: f in Parse(a[pos..]).value ==> !IsTypeField(f)
    ensures FastFrom(a + g, pos) == FastFrom(a + g, |a|)
    decreases |a| - pos
  {
    hide ReadVarint, ParseBody, SkipTo, Parse, ParseField;
    if pos < |a| {
      Before(a, g, pos);
      var (f, n) := ParseField(a[pos..]).value;
      assert f in Parse(a[pos..]).value;
      FastField(a + g, pos);
      FastPasses(a, g, pos + n);
    }
  }

  /**
   * The relay's reader, when no stream type came before the damage: it gives the default where it can
   * read no tag, skip no value or would skip beyond the end, and 0 for a stream type that cannot be
   * read. From another number or length that does not end it resumes ten bytes on, and a length that
   * takes the cursor beyond 64 bits panics.
   */
  lemma FastOnBroken(a: seq<Byte>, g: seq<Byte>)
    requires Broken(a, g) && |a| < 64
    requires forall f :: f in Parse(a).value ==> !(f.VarintField? && f.num % 0x1_0000_0000 == 3)
    ensures ReadVarint(g).None? ==> FastFrom(a + g, 0) == Decoded(1)
    ensures ReadVarint(g).Some? ==>
              var (tag, n) := ReadVarint(g).value;
              var field, wire := tag / 8 % 0x1_0000_0000, tag % 8;
              && (wire == 0 && field == 3 ==> FastFrom(a + g, 0) == Decoded(0))
              && ((wire == 0 && field != 3) || (wire == 2 && ReadVarint(g[n..]).None?) ==>
                    FastFrom(a + g, 0) == if |g| <= n + 10 then Decoded(1) else FastFrom(a + g, |a| + n + 10))
              && (wire == 2 && ReadVarint(g[n..]).Some? ==>
                    FastFrom(a + g, 0) ==
                      if |a| + n + ReadVarint(g[n..]).value.1 + ReadVarint(g[n..]).value.0 >= 0x1_0000_0000_0000_0000
                      then Panicked else Decoded(1))
              && (wire != 0 && wire != 2 ==> FastFrom(a + g, 0) == Decoded(1))
  {
    hide Parse, ReadVarint, FastFrom, Damaged;
    assert a[0..] == a;
    FastPasses(a, g, 0);
    FastDamage(a, g);
  }

  /** Where the cursor goes from a value that cannot be read. */
  lemma SkipDamage(buf: seq<Byte>, start: nat, num: nat, wire: nat)
    requires start <= |buf| < 0x8000_0000_0000_0000 && ParseBody(num, wire, buf[start..]).None?
    ensures wire == 0 || (wire == 2 && ReadVarint(buf[start..]).None?) ==>
              SkipTo(buf, start, wire) == Some(if |buf| <= start + 10 then |buf| else start + 10)
    ensures wire == 2 && ReadVarint(buf[start..]).Some? ==>
              var (length, m) := ReadVarint(buf[start..]).value;
              SkipTo(buf, start, wire) == Some(start + m + length) && start + m + length > |buf|
    ensures wire == 1 || wire == 5 ==>
              SkipTo(buf, start, wire).Some? && |buf| <= SkipTo(buf, start, wire).value < U64_LIMIT
    ensures wire !in {0, 1, 2, 5} ==> SkipTo(buf, start, wire).None?
  {
    hide ReadVarint;
  }

  lemma FastDamage(a: seq<Byte>, g: seq<Byte>)
    requires Damaged(g) && |a| < 64 && |a + g| < 0x8000_0000_0000_0000
    ensures ReadVarint(g).None? ==> FastFrom(a + g, |a|) == Decoded(1)
    ensures ReadVarint(g).Some? ==>
              var (tag, n) := ReadVarint(g).value;
              var field, wire := tag / 8 % 0x1_0000_0000, tag % 8;
              && (wire == 0 && field == 3 ==> FastFrom(a + g, |a|) == Decoded(0))
              && ((wire == 0 && field != 3) || (wire == 2 && ReadVarint(g[n..]).None?) ==>
                    FastFrom(a + g, |a|) == if |g| <= n + 10 then Decoded(1) else FastFrom(a + g, |a| + n + 10))
              && (wire == 2 && ReadVarint(g[n..]).Some? ==>
                    FastFrom(a + g, |a|) ==
                      if |a| + n + ReadVarint(g[n..]).value.1 + ReadVarint(g[n..]).value.0 >= 0x1_0000_0000_0000_0000
                      then Panicked else Decoded(1))
              && (wire != 0 && wire != 2 ==> FastFrom(a + g, |a|) == Decoded(1))
  {
    hide ReadVarint, SkipTo, ParseBody;
    At(a, g);
    if ReadVarint(g).Some? {
      var (tag, n) := ReadVarint(g).value;
      SkipDamage(a + g, |a| + n, tag / 8, tag % 8);
      TypeUnreadable(g, tag, n);
    }
  }

  lemma TypeUnreadable(g: seq<Byte>, tag: nat, n: nat)
    requires n <= |g| && ParseBody(tag / 8, tag % 8, g[n..]).None?
    ensures tag % 8 == 0 ==> ReadVarint(g[n..]).None?
  {}

  // ---------------------------------------------------------------- command service: stream filter

  lemma {:induction false} PeekPasses(a: seq<Byte>, g: seq<Byte>, pos: nat, id: seq<Byte>, streamType: nat)
    requires pos <= |a| && Parse(a[pos..]).Some? && !(id != [] && streamType > 0)
    ensures var seen := PeekFields(Parse(a[pos..]).value, id, streamType);
            PeekFrom(a + g, pos, id, streamType) == if seen.0 != [] && seen.1 > 0 then Decoded(seen)
                                                   else PeekFrom(a + g, |a|, seen.0, seen.1)
    decreases |a| - pos
  {
    hide ReadVarint, ParseBody, Parse, ParseField, PeekField;
    if pos < |a| {
      Before(a, g, pos);
      var (f, n) := ParseField(a[pos..]).value;
      PeekWellFormed(a + g, pos, id, streamType);
      assert ([f] + Parse(a[pos + n..]).value)[1..] == Parse(a[pos + n..]).value;
      if !(PeekId(f, id) != [] && PeekType(f, streamType) > 0) {
        PeekPasses(a, g, pos + n, PeekId(f, id), PeekType(f, streamType));
      }
    } else {
      ParseNothing(a[pos..]);
    }
  }

  lemma ParseNothing(s: seq<Byte>)
    requires s == []
    ensures Parse(s) == Some([])
  {}

  /**
   * The stream filter: damage changes nothing of what it has seen before, unless it looks on and
   * meets a length that takes the end offset beyond the signed 64-bit numbers.
   */
  lemma PeekOnBroken(a: seq<Byte>, g: seq<Byte>)
    requires Broken(a, g)
    ensures PeekFrom(a, 0, [], 0).Decoded?
    ensures var seen := PeekFrom(a, 0, [], 0);
            PeekFrom(a + g, 0, [], 0) ==
              if !(seen.value.0 != [] && seen.value.1 > 0) && Overlong(|a|, g, 0x8000_0000_0000_0000)
              then Panicked else seen
  {
    hide ReadVarint, ParseBody, Parse, ParseField, PeekField;
    assert a[0..] == a;
    PeekOnWellFormed(a, 0, [], 0);
    PeekPasses(a, g, 0, [], 0);
    var seen := PeekFields(Parse(a).value, [], 0);
    PeekDamage(a, g, seen.0, seen.1);
  }

  /** After a readable tag comes a readable length that takes the offset to `limit` or beyond. */
  predicate Overlong(start: nat, g: seq<Byte>, limit: nat) {
    match ReadVarint(g)
    case None => false
    case Some((tag, n)) =>
      match ReadVarint(g[n..])
      case None => false
      case Some((length, m)) => tag % 8 == 2 && start + n + m + length >= limit
  }

  lemma PeekDamage(a: seq<Byte>, g: seq<Byte>, id: seq<Byte>, streamType: nat)
    requires Damaged(g) && |a + g| < 0x8000_0000_0000_0000
    ensures PeekFrom(a + g, |a|, id, streamType)
         == if Overlong(|a|, g, 0x8000_0000_0000_0000) then Panicked else Decoded((id, streamType))
  {
    hide ReadVarint;
    At(a, g);
  }

  // ---------------------------------------------------------------- gateway: JSON frames

  lemma {:induction false} FramePasses(a: seq<Byte>, g: seq<Byte>, pos: nat, env: DataEnvelope,
                                       repair: seq<Byte> -> seq<Byte>)
    requires pos <= |a| && Parse(a[pos..]).Some? && SmallNumbers(Parse(a[pos..]).value)
    ensures FrameFrom(a + g, pos, ToFrame(env, repair), repair)
         == FrameFrom(a + g, |a|, ToFrame(Onto(env, Parse(a[pos..]).value), repair), repair)
    decreases |a| - pos
  {
    hide ReadVarint, ParseBody, Parse, ParseField, Put, Apply, FrameFrom, ToFrame, Onto;
    if pos < |a| {
      Before(a, g, pos);
      var (f, n) := ParseField(a[pos..]).value;
      var fs, rest := Parse(a[pos..]).value, Parse(a[pos + n..]).value;
      assert fs[0] == f && forall i :: 0 <= i < |rest| ==> rest[i] == fs[i + 1];
      FrameWellFormed(a + g, pos, ToFrame(env, repair), repair);
      PutIsApply(env, f, repair);
      OntoOne(env, f);
      OntoAppend(env, [f], rest);
      FramePasses(a, g, pos + n, Apply(env, f), repair);
    } else {
      ParseNothing(a[pos..]);
      OntoNothing(env);
    }
  }

  lemma OntoNothing(env: DataEnvelope)
    ensures Onto(env, []) == env
  {}

  /** The gateway: an unreadable tag ends the frame early, an unreadable value rejects it whole. */
  lemma FrameOnBroken(a: seq<Byte>, g: seq<Byte>, repair: seq<Byte> -> seq<Byte>)
    requires Broken(a, g) && SmallNumbers(Parse(a).value) && repair([]) == []
    ensures FrameFrom(a + g, 0, NO_FRAME, repair) ==
              if ReadVarint(g).None? then FrameFrom(a, 0, NO_FRAME, repair)
              else if Overlong(|a|, g, 0x1_0000_0000_0000_0000) then Panicked
              else Rejected
  {
    hide ReadVarint, ParseBody, Parse, ParseField, FrameFrom, Onto;
    assert a[0..] == a;
    FramePasses(a, g, 0, EMPTY, repair);
    FramePasses(a, [], 0, EMPTY, repair);
    assert a + [] == a;
    FrameDamage(a, g, ToFrame(Onto(EMPTY, Parse(a).value), repair), repair);
  }

  lemma FrameDamage(a: seq<Byte>, g: seq<Byte>, frame: JsonFrame, repair: seq<Byte> -> seq<Byte>)
    requires Damaged(g) && |a + g| < 0x8000_0000_0000_0000
    ensures FrameFrom(a, |a|, frame, repair) == Decoded(frame)
    ensures FrameFrom(a + g, |a|, frame, repair) ==
              if ReadVarint(g).None? then Decoded(frame)
              else if Overlong(|a|, g, 0x1_0000_0000_0000_0000) then Panicked
              else Rejected
  {
    hide ReadVarint;
    At(a, g);
  }

  // ---------------------------------------------------------------- agent: commands

  lemma {:induction false} TakePasses(a: seq<Byte>, g: seq<Byte>, pos: nat, c: AgentCommand,
                                      repair: seq<Byte> -> seq<Byte>)
    requires pos <= |a| && Parse(a[pos..]).Some?
    ensures TakeFrom(a + g, pos, c, repair) == TakeFrom(a + g, |a|, TakeAll(c, Parse(a[pos..]).value, repair), repair)
    decreases |a| - pos
  {
    hide ReadVarint, ParseBody, Parse, ParseField, Take, TakeFrom;
    if pos < |a| {
      Before(a, g, pos);
      var (f, n) := ParseField(a[pos..]).value;
      TakeWellFormed(a + g, pos, c, repair);
      var rest := Parse(a[pos + n..]).value;
      assert ([f] + rest)[0] == f && ([f] + rest)[1..] == rest;
      TakePasses(a, g, pos + n, Take(c, f, repair), repair);
    } else {
      ParseNothing(a[pos..]);
    }
  }

  /**
   * The agent: an unreadable tag or value rejects the command, but an unknown wire type, or a
   * fixed-width value that is cut off, is as good as the end of the message.
   */
  lemma AgentOnBroken(a: seq<Byte>, g: seq<Byte>, repair: seq<Byte> -> seq<Byte>)
    requires Broken(a, g)
    ensures TakeFrom(a + g, 0, NO_AGENT_COMMAND, repair) ==
              if ReadVarint(g).None? || ReadVarint(g).value.0 % 8 == 0 then Rejected
              else if Overlong(|a|, g, 0x1_0000_0000_0000_0000) then Panicked
              else if ReadVarint(g).value.0 % 8 == 2 then Rejected
              else TakeFrom(a, 0, NO_AGENT_COMMAND, repair)
  {
    hide ReadVarint, ParseBody, Parse, ParseField, TakeFrom, TakeAll;
    assert a[0..] == a;
    TakePasses(a, g, 0, NO_AGENT_COMMAND, repair);
    TakePasses(a, [], 0, NO_AGENT_COMMAND, repair);
    assert a + [] == a;
    TakeDamage(a, g, TakeAll(NO_AGENT_COMMAND, Parse(a).value, repair), repair);
  }

  lemma TakeDamage(a: seq<Byte>, g: seq<Byte>, c: AgentCommand, repair: seq<Byte> -> seq<Byte>)
    requires Damaged(g) && |a + g| < 0x8000_0000_0000_0000
    ensures TakeFrom(a + g, |a|, c, repair) ==
              if ReadVarint(g).None? || ReadVarint(g).value.0 % 8 == 0 then Rejected
              else if Overlong(|a|, g, 0x1_0000_0000_0000_0000) then Panicked
              else if ReadVarint(g).value.0 % 8 == 2 then Rejected
              else TakeFrom(a, |a|, c, repair)
  {
    hide ReadVarint;
    At(a, g);
  }

  // ---------------------------------------------------------------- command service: acknowledgements

  lemma {:induction false} AckPasses(a: seq<Byte>, g: seq<Byte>, spare: seq<Byte>, pos: nat, k: CommandAck)
    requires pos <= |a| && Parse(a[pos..]).Some?
    requires AckOf(k, Parse(a[pos..]).value).Some?
    ensures AckFrom(a + g, spare, pos, k) == AckFrom(a + g, spare, |a|, AckOf(k, Parse(a[pos..]).value).value)
    decreases |a| - pos
  {
    hide ReadVarint, ParseBody, Parse, ParseField, SetAck, AckField;
    if pos < |a| {
      Before(a, g, pos);
      var (f, n) := ParseField(a[pos..]).value;
      AckWellFormed(a + g, spare, pos, k);
      var rest := Parse(a[pos + n..]).value;
      assert ([f] + rest)[0] == f && ([f] + rest)[1..] == rest;
      AckPasses(a, g, spare, pos + n, SetAck(k, f));
    } else {
      ParseNothing(a[pos..]);
    }
  }

  function WithText(k: CommandAck, num: nat, d: seq<Byte>): CommandAck {
    if num == 1 then k.(commandId := d)
    else if num == 2 then k.(vehicleId := d)
    else if num == 4 then k.(message := d)
    else k
  }

  /**
   * The service's reader of acknowledgements: an unreadable tag ends the message, a number or length
   * that cannot be read fails, and a value longer than the message is completed from the bytes that
   * happen to follow it in the buffer, or panics where these end.
   */
  lemma AckOnBroken(a: seq<Byte>, g: seq<Byte>, spare: seq<Byte>)
    requires Broken(a, g) && AckFrom(a, spare, 0, NO_ACK).Decoded?
    requires forall f :: f in Parse(a).value ==> f.VarintField? || f.LenField?
    ensures var k, buffer := AckFrom(a, spare, 0, NO_ACK).value, a + g + spare;
            AckFrom(a + g, spare, 0, NO_ACK) ==
              if ReadVarint(g).None? then Decoded(k) else
              var (tag, n) := ReadVarint(g).value;
              if tag % 8 != 2 || ReadVarint(g[n..]).None? then Rejected else
              var (length, m) := ReadVarint(g[n..]).value;
              var from := |a| + n + m;
              if from + length > |buffer| then Panicked
              else Decoded(WithText(k, tag / 8, buffer[from..from + length]))
  {
    hide ReadVarint, ParseBody, Parse, ParseField, AckFrom, AckOf, AckField;
    assert a[0..] == a;
    AckOfLast(NO_ACK, 0, 0, Parse(a).value);
    AckPasses(a, g, spare, 0, NO_ACK);
    AckPasses(a, [], spare, 0, NO_ACK);
    assert a + [] == a;
    AckDamage(a, g, spare, AckOf(NO_ACK, Parse(a).value).value);
  }

  lemma AckDamage(a: seq<Byte>, g: seq<Byte>, spare: seq<Byte>, k: CommandAck)
    requires Damaged(g)
    ensures AckFrom(a, spare, |a|, k) == Decoded(k)
    ensures var buffer := a + g + spare;
            AckFrom(a + g, spare, |a|, k) ==
              if ReadVarint(g).None? then Decoded(k) else
              var (tag, n) := ReadVarint(g).value;
              if tag % 8 != 2 || ReadVarint(g[n..]).None? then Rejected else
              var (length, m) := ReadVarint(g[n..]).value;
              var from := |a| + n + m;
              if from + length > |buffer| then Panicked
              else Decoded(WithText(k, tag / 8, buffer[from..from + length]))
  {
    hide ReadVarint;
    At(a, g);
  }
}
