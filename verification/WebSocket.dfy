/**
 * The SDK's WebSocket reader: one message out of fragments, with pings answered on the way
 * (RFC 6455, sections 5.4 and 5.5).
 */
module WebSocket {
  import opened Bytes
  import opened WebSocketFrames

  const CLOSE := 8
  const PING := 9
  const PONG := 10

  datatype Outcome = Message(data: seq<Byte>) | Closed | Failed | Panicked

  /** How a read ends, what it leaves unread and what it has written. */
  datatype Reading = Reading(outcome: Outcome, rest: seq<Byte>, written: seq<Byte>)

  /** A control frame as it is sent: the length octet holds the length modulo 256. */
  function Control(opcode: nat, payload: seq<Byte>): seq<Byte>
    requires opcode < 16
  {
    [128 + opcode, |payload| % 256] + payload
  }

  /** Text, binary and continuation frames carry data; other opcodes that are not control frames carry none. */
  function Data(f: Frame): seq<Byte> {
    if f.opcode <= 2 then f.payload else []
  }

  function Collect(acc: seq<Byte>, f: Frame): seq<Byte> {
    if f.opcode <= 2 then acc + f.payload else acc
  }

  function Read(s: seq<Byte>, acc: seq<Byte>): Reading
    decreases |s|
  {
    match ParseFrame(s)
    case Truncated => Reading(Failed, [], [])
    case Unallocatable(n) => Reading(Panicked, s[n..], [])
    case Parsed(f, n) =>
      if f.opcode == CLOSE then Reading(Closed, s[n..], [])
      else if f.opcode == PING then
        var r := Read(s[n..], acc); r.(written := Control(PONG, f.payload) + r.written)
      else if f.opcode == PONG then Read(s[n..], acc)
      else if !f.fin then Read(s[n..], Collect(acc, f))
      else Reading(Message(Collect(acc, f)), s[n..], [])
  }

  // ---------------------------------------------------------------- what a message is

  /** Frames the reader reads past: pings, pongs and fragments with more to come. */
  predicate Continues(f: Frame) {
    f.opcode == PING || f.opcode == PONG || (f.opcode != CLOSE && !f.fin)
  }

  ghost predicate AllValid(fs: seq<Frame>) {
    forall i :: 0 <= i < |fs| ==> Valid(fs[i])
  }

  /** The frames up to and including the one that ends a message or the connection. */
  ghost predicate Exchange(fs: seq<Frame>) {
    && fs != [] && AllValid(fs) && !Continues(fs[|fs| - 1])
    && forall i :: 0 <= i < |fs| - 1 ==> Continues(fs[i])
  }

  function EncodeAll(fs: seq<Frame>): seq<Byte>
    requires AllValid(fs)
  {
    if fs == [] then [] else Encode(fs[0]) + EncodeAll(fs[1..])
  }

  function DataOf(fs: seq<Frame>): seq<Byte> {
    if fs == [] then [] else Data(fs[0]) + DataOf(fs[1..])
  }

  /** One pong per ping, with the same payload, in order. */
  function PongsOf(fs: seq<Frame>): seq<Byte> {
    if fs == [] then [] else
    (if fs[0].opcode == PING then Control(PONG, fs[0].payload) else []) + PongsOf(fs[1..])
  }

  function OutcomeOf(fs: seq<Frame>, acc: seq<Byte>): Outcome
    requires fs != []
  {
    if fs[|fs| - 1].opcode == CLOSE then Closed else Message(acc + DataOf(fs))
  }

  /** Reading the encoding of an exchange, followed by anything. */
  lemma {:induction false} ReadEncoded(fs: seq<Frame>, acc: seq<Byte>, rest: seq<Byte>)
    requires Exchange(fs)
    ensures Read(EncodeAll(fs) + rest, acc) == Reading(OutcomeOf(fs, acc), rest, PongsOf(fs))
    decreases |fs|
  {
    hide ParseFrame, Encode, Valid;
    var f := fs[0];
    var tail := EncodeAll(fs[1..]) + rest;
    CollectIs(acc, f);
    ConcatAssoc(Encode(f), EncodeAll(fs[1..]), rest);
    ParseEncoded(f, tail);
    assert (Encode(f) + tail)[|Encode(f)|..] == tail;
    if |fs| == 1 {
      assert tail == rest;
      LastFrame(f);
      assert fs == [f];
    } else {
      var more := Collect(acc, f);
      ExchangeTail(fs);
      ReadEncoded(fs[1..], more, rest);
      ConcatAssoc(acc, Data(f), DataOf(fs[1..]));
    }
  }

  lemma CollectIs(acc: seq<Byte>, f: Frame)
    ensures Collect(acc, f) == acc + Data(f)
  {}

  lemma LastFrame(f: Frame)
    ensures DataOf([f]) == Data(f) && PongsOf([f]) == if f.opcode == PING then Control(PONG, f.payload) else []
  {
    assert |[f][1..]| == 0;
  }

  lemma ExchangeTail(fs: seq<Frame>)
    requires Exchange(fs) && |fs| > 1
    ensures Exchange(fs[1..]) && Continues(fs[0])
  {
    assert fs[1..][|fs| - 2] == fs[|fs| - 1];
    forall i | 0 <= i < |fs| - 2 ensures Continues(fs[1..][i]) {
      assert fs[1..][i] == fs[i + 1];
    }
  }

  /** The frames a read takes. */
  function FramesRead(s: seq<Byte>): seq<Frame>
    decreases |s|
  {
    match ParseFrame(s)
    case Parsed(f, n) => if Continues(f) then [f] + FramesRead(s[n..]) else [f]
    case _ => []
  }

  /** Conversely, a read that does not fail has taken the encoding of an exchange. */
  lemma {:induction false} ReadDecodes(s: seq<Byte>, acc: seq<Byte>)
    requires Read(s, acc).outcome.Message? || Read(s, acc).outcome.Closed?
    ensures var fs := FramesRead(s);
            && Exchange(fs) && s == EncodeAll(fs) + Read(s, acc).rest
            && Read(s, acc).outcome == OutcomeOf(fs, acc) && Read(s, acc).written == PongsOf(fs)
    decreases |s|
  {
    hide ParseFrame, Encode, Valid, Exchange, OutcomeOf;
    var Parsed(f, n) := ParseFrame(s);
    EncodeParsed(s);
    CollectIs(acc, f);
    assert s == s[..n] + s[n..];
    if Continues(f) {
      ReadDecodes(s[n..], Collect(acc, f));
      ExchangeCons(f, FramesRead(s[n..]), acc);
      ConcatAssoc(Encode(f), EncodeAll(FramesRead(s[n..])), Read(s[n..], Collect(acc, f)).rest);
    } else {
      ExchangeOne(f, acc);
    }
  }

  lemma ExchangeOne(f: Frame, acc: seq<Byte>)
    requires Valid(f) && !Continues(f)
    ensures Exchange([f]) && EncodeAll([f]) == Encode(f) && PongsOf([f]) == []
    ensures OutcomeOf([f], acc) == if f.opcode == CLOSE then Closed else Message(Collect(acc, f))
  {
    hide Encode, Valid;
    LastFrame(f);
    CollectIs(acc, f);
    assert EncodeAll([f]) == Encode(f) + EncodeAll([f][1..]) && [f][1..] == [];
  }

  lemma ExchangeCons(f: Frame, tail: seq<Frame>, acc: seq<Byte>)
    requires Valid(f) && Continues(f) && Exchange(tail)
    ensures Exchange([f] + tail) && AllValid(tail) && AllValid([f] + tail)
    ensures EncodeAll([f] + tail) == Encode(f) + EncodeAll(tail)
    ensures PongsOf([f] + tail) == (if f.opcode == PING then Control(PONG, f.payload) else []) + PongsOf(tail)
    ensures OutcomeOf([f] + tail, acc) == OutcomeOf(tail, Collect(acc, f))
  {
    hide Encode, Valid;
    var fs := [f] + tail;
    assert fs[|fs| - 1] == tail[|tail| - 1] && fs[1..] == tail;
    forall i | 0 <= i < |fs| - 1 ensures Continues(fs[i]) {
      assert i > 0 ==> fs[i] == tail[i - 1];
    }
    CollectIs(acc, f);
    ConcatAssoc(acc, Data(f), DataOf(tail));
  }

  /**
   * ReadMessage returns exactly the messages: a read yields `m`, leaves `rest` and writes `w` if and
   * only if the input is the encoding of some exchange followed by `rest`, `m` is the data of its
   * frames in order and `w` is one pong per ping in order. It reports a close if and only if the
   * exchange ends with one.
   */
  lemma ReadIsExchange(s: seq<Byte>, outcome: Outcome, rest: seq<Byte>, w: seq<Byte>)
    requires outcome.Message? || outcome.Closed?
    ensures Read(s, []) == Reading(outcome, rest, w)
      <==> exists fs :: Exchange(fs) && s == EncodeAll(fs) + rest && outcome == OutcomeOf(fs, []) && w == PongsOf(fs)
  {
    if Read(s, []) == Reading(outcome, rest, w) {
      ReadDecodes(s, []);
    }
    if fs :| Exchange(fs) && s == EncodeAll(fs) + rest && outcome == OutcomeOf(fs, []) && w == PongsOf(fs) {
      ReadEncoded(fs, [], rest);
    }
  }

  /**
   * An input that breaks off inside a frame: the pings before it are answered and the read fails,
   * whatever data it has collected; a length that cannot be allocated panics instead.
   */
  lemma {:induction false} BrokenRead(fs: seq<Frame>, g: seq<Byte>, acc: seq<Byte>)
    requires AllValid(fs) && (forall i :: 0 <= i < |fs| ==> Continues(fs[i]))
    ensures ParseFrame(g).Truncated? ==> Read(EncodeAll(fs) + g, acc) == Reading(Failed, [], PongsOf(fs))
    ensures ParseFrame(g).Unallocatable? && ParseFrame(g).size <= |g| ==>
              Read(EncodeAll(fs) + g, acc) == Reading(Panicked, g[ParseFrame(g).size..], PongsOf(fs))
    decreases |fs|
  {
    hide ParseFrame, Encode, Valid;
    if fs == [] {
      assert [] + g == g;
    } else {
      var f, tail := fs[0], EncodeAll(fs[1..]) + g;
      ConcatAssoc(Encode(f), EncodeAll(fs[1..]), g);
      ParseEncoded(f, tail);
      assert (Encode(f) + tail)[|Encode(f)|..] == tail;
      BrokenRead(fs[1..], g, Collect(acc, f));
    }
  }

  /** In particular every proper prefix of a frame fails, and so does an input that ends between frames. */
  lemma CutRead(fs: seq<Frame>, f: Frame, k: nat, acc: seq<Byte>)
    requires AllValid(fs) && (forall i :: 0 <= i < |fs| ==> Continues(fs[i])) && Valid(f) && k < |Encode(f)|
    ensures Read(EncodeAll(fs) + Encode(f)[..k], acc) == Reading(Failed, [], PongsOf(fs))
  {
    PrefixTruncated(f, k);
    BrokenRead(fs, Encode(f)[..k], acc);
  }

  /** An eight-octet length with its top bit set panics, whatever follows. */
  lemma OverlongRead(fs: seq<Frame>, first: Byte, ext: seq<Byte>, rest: seq<Byte>, acc: seq<Byte>)
    requires AllValid(fs) && (forall i :: 0 <= i < |fs| ==> Continues(fs[i])) && |ext| == 8 && ext[0] >= 128
    ensures Read(EncodeAll(fs) + ([first, 127] + ext + rest), acc) == Reading(Panicked, rest, PongsOf(fs))
  {
    var g := [first, 127] + ext + rest;
    OverlongUnallocatable(first, ext, rest);
    BrokenRead(fs, g, acc);
    assert g[10..] == rest;
  }

  // ---------------------------------------------------------------- pongs

  function PongFrame(payload: seq<Byte>): Frame {
    Frame(true, 0, PONG, [], L7, payload)
  }

  /** A pong carries its ping's payload back if and only if that payload has the length section 5.5 allows. */
  lemma PongFaithful(p: seq<Byte>)
    ensures (ParseFrame(Control(PONG, p)).Parsed? && ParseFrame(Control(PONG, p)).frame.payload == p) <==> |p| <= 125
  {
    var s := Control(PONG, p);
    if |p| <= 125 {
      PongEncodes(p);
      ParseEncoded(PongFrame(p), []);
      assert s + [] == s;
    }
  }

  function PongFrames(fs: seq<Frame>): seq<Frame> {
    if fs == [] then [] else (if fs[0].opcode == PING then [PongFrame(fs[0].payload)] else []) + PongFrames(fs[1..])
  }

  /** With pings of allowed lengths, what is written is a sequence of frames: the pongs, one per ping. */
  lemma {:induction false} PongsAreFrames(fs: seq<Frame>)
    requires forall i :: 0 <= i < |fs| && fs[i].opcode == PING ==> |fs[i].payload| <= 125
    ensures AllValid(PongFrames(fs)) && PongsOf(fs) == EncodeAll(PongFrames(fs))
  {
    hide Encode, Valid, Control, PongFrame;
    if fs != [] {
      PongsAreFrames(fs[1..]);
      var tail := PongFrames(fs[1..]);
      if fs[0].opcode == PING {
        var p := PongFrame(fs[0].payload);
        PongEncodes(fs[0].payload);
        OneMore(p, tail);
      } else {
        assert [] + tail == tail && [] + PongsOf(fs[1..]) == PongsOf(fs[1..]);
      }
    }
  }

  lemma OneMore(f: Frame, tail: seq<Frame>)
    requires Valid(f) && AllValid(tail)
    ensures AllValid([f] + tail) && EncodeAll([f] + tail) == Encode(f) + EncodeAll(tail)
  {
    hide Encode, Valid;
    assert ([f] + tail)[1..] == tail;
  }

  lemma PongEncodes(p: seq<Byte>)
    requires |p| <= 125
    ensures Valid(PongFrame(p)) && Encode(PongFrame(p)) == Control(PONG, p)
  {}

  /**
   * A message as section 5.4 describes it: a data frame, continuations, control frames of at most
   * 125 octets anywhere before the end.
   */
  ghost predicate Fragmented(fs: seq<Frame>, first: nat) {
    && AllValid(fs) && first < |fs| && fs[first].opcode in {1, 2}
    && (forall i :: 0 <= i < first ==> fs[i].opcode in {PING, PONG})
    && (forall i :: first < i < |fs| ==> fs[i].opcode in {0, PING, PONG})
    && (forall i :: 0 <= i < |fs| && fs[i].opcode >= 8 ==> fs[i].fin && |fs[i].payload| <= 125)
    && (forall i :: 0 <= i < |fs| && fs[i].opcode < 8 ==> (fs[i].fin <==> i == |fs| - 1))
    && fs[|fs| - 1].opcode < 8
  }

  /**
   * Every such message is read whole, whatever follows it, and every ping is answered by an unmasked
   * pong frame with its payload.
   */
  lemma FragmentedRead(fs: seq<Frame>, first: nat, rest: seq<Byte>)
    requires Fragmented(fs, first)
    ensures AllValid(PongFrames(fs))
    ensures Read(EncodeAll(fs) + rest, []) == Reading(Message(DataOf(fs)), rest, EncodeAll(PongFrames(fs)))
  {
    PongsAreFrames(fs);
    ReadEncoded(fs, [], rest);
    assert [] + DataOf(fs) == DataOf(fs);
  }

  // ---------------------------------------------------------------- octet by octet

  lemma PlainOctets(f: Frame, rest: seq<Byte>)
    requires Valid(f) && f.key == []
    ensures Encode(f) + rest == Header(f) + BigEndian(|f.payload|, Extension(f.form)) + f.payload + rest
    ensures ParseFrame(Encode(f) + rest) == Parsed(f, |Encode(f)|) && (Encode(f) + rest)[|Encode(f)|..] == rest
  {
    hide BigEndian, Header, ParseFrame;
    ParseEncoded(f, rest);
    var e := BigEndian(|f.payload|, Extension(f.form));
    assert Header(f) + e + [] == Header(f) + e;
  }

  /** The frame with first octet `first` and a short unmasked payload, as it stands in the input. */
  lemma ShortFrame(first: Byte, p: seq<Byte>, rest: seq<Byte>)
    requires |p| <= 125
    ensures var f := Frame(first >= 128, first / 16 % 8, first % 16, [], L7, p);
            var s := [first, |p|] + p + rest;
            && ParseFrame(s) == Parsed(f, 2 + |p|) && s[2 + |p|..] == rest
  {
    hide ParseFrame;
    var f := Frame(first >= 128, first / 16 % 8, first % 16, [], L7, p);
    PlainOctets(f, rest);
    assert Header(f) == [first, |p|] && BigEndian(|p|, 0) == [];
    assert [first, |p|] + [] + p + rest == [first, |p|] + p + rest;
  }

  /**
   * The octets of section 5.2 of RFC 6455: an unmasked ping (0x89) is answered at once by a pong
   * (0x8A) with its payload.
   */
  lemma PingOctets(p: seq<Byte>, rest: seq<Byte>, acc: seq<Byte>)
    requires |p| <= 125
    ensures var r := Read(rest, acc);
            Read([0x89, |p|] + p + rest, acc) == Reading(r.outcome, r.rest, [0x8A, |p|] + p + r.written)
  {
    hide ParseFrame;
    var s := [0x89, |p|] + p + rest;
    ShortFrame(0x89, p, rest);
    ReadPing(s, Frame(true, 0, 9, [], L7, p), 2 + |p|, acc);
  }

  lemma ReadPing(s: seq<Byte>, f: Frame, n: nat, acc: seq<Byte>)
    requires ParseFrame(s) == Parsed(f, n) && n <= |s| && f.opcode == 9 && |f.payload| <= 125
    ensures var r := Read(s[n..], acc);
            Read(s, acc) == Reading(r.outcome, r.rest, [0x8A, |f.payload|] + f.payload + r.written)
  {
    hide ParseFrame;
  }

  /** A pong is passed over; a close (0x88) ends the connection. */
  lemma PongCloseOctets(p: seq<Byte>, rest: seq<Byte>, acc: seq<Byte>)
    requires |p| <= 125
    ensures Read([0x8A, |p|] + p + rest, acc) == Read(rest, acc)
    ensures Read([0x88, |p|] + p + rest, acc) == Reading(Closed, rest, [])
  {
    hide ParseFrame;
    ShortFrame(0x8A, p, rest);
    ShortFrame(0x88, p, rest);
  }

  /**
   * Data frames: text (1), binary (2) and continuation (0) with the final bit (0x80) complete the
   * message with their payload, and without it the reader goes on; octets 3 to 7 carry nothing.
   */
  lemma DataOctets(opcode: nat, p: seq<Byte>, rest: seq<Byte>, acc: seq<Byte>)
    requires |p| <= 125 && opcode < 8
    ensures var more := if opcode in {0, 1, 2} then acc + p else acc;
            && Read([0x80 + opcode, |p|] + p + rest, acc) == Reading(Message(more), rest, [])
            && Read([opcode, |p|] + p + rest, acc) == Read(rest, more)
  {
    hide ParseFrame;
    ShortFrame(0x80 + opcode, p, rest);
    ShortFrame(opcode, p, rest);
  }

  /** Longer payloads: 126 and two octets, 127 and eight, most significant first. */
  lemma LongOctets(p: seq<Byte>, rest: seq<Byte>, acc: seq<Byte>)
    ensures |p| < 0x1_0000 ==>
              Read([0x82, 126, |p| / 256, |p| % 256] + p + rest, acc) == Reading(Message(acc + p), rest, [])
    ensures |p| < 0x8000_0000_0000_0000 ==>
              Read([0x82, 127] + BigEndian(|p|, 8) + p + rest, acc) == Reading(Message(acc + p), rest, [])
  {
    hide ParseFrame, BigEndian;
    if |p| < 0x1_0000 {
      var f := Frame(true, 0, 2, [], L16, p);
      PlainOctets(f, rest);
      TwoOctets(|p|);
      assert [0x82, 126] + [|p| / 256, |p| % 256] == [0x82, 126, |p| / 256, |p| % 256];
    }
    if |p| < INT64_LIMIT {
      PlainOctets(Frame(true, 0, 2, [], L64, p), rest);
    }
  }

  lemma TwoOctets(v: nat)
    requires v < 0x1_0000
    ensures BigEndian(v, 2) == [v / 256, v % 256]
  {
    assert BigEndian(v / 256, 1) == [] + [v / 256];
  }

  /** A masked text frame: the mask bit (0x80) in the second octet, the key, and the payload combined with it. */
  lemma MaskedOctets(p: seq<Byte>, key: seq<Byte>, rest: seq<Byte>, acc: seq<Byte>)
    requires |p| <= 125 && |key| == 4
    ensures Read([0x81, 0x80 + |p|] + key + Mask(p, key) + rest, acc) == Reading(Message(acc + p), rest, [])
  {
    hide ParseFrame, Mask;
    var f := Frame(true, 0, 1, key, L7, p);
    ParseEncoded(f, rest);
    assert [0x81, 0x80 + |p|] + BigEndian(|p|, 0) == [0x81, 0x80 + |p|];
    assert Encode(f) == [0x81, 0x80 + |p|] + key + Mask(p, key);
    assert (Encode(f) + rest)[|Encode(f)|..] == rest;
  }

  // ---------------------------------------------------------------- the connection

  /** XORs the payload in place. */
  method Unmask(payload: array<Byte>, mask: seq<Byte>)
    requires |mask| == 4
    modifies payload
    ensures payload[..] == Mask(old(payload[..]), mask)
  {
    for i := 0 to payload.Length
      invariant forall k :: 0 <= k < i ==> payload[k] == Xor(old(payload[k]), mask[k % 4])
      invariant forall k :: i <= k < payload.Length ==> payload[k] == old(payload[k])
    {
      payload[i] := Xor(payload[i], mask[i % 4]);
    }
  }

  lemma HeaderOctets(s: seq<Byte>, header: seq<Byte>)
    requires |s| >= 2 && header == s[..2]
    ensures header[0] == s[0] && header[1] == s[1]
  {}

  lemma HeadSizeIs(h1: Byte, e: nat, k: nat)
    requires e == Extension(FormOf(h1 % 128)) && k == KeySize(h1)
    ensures HeadSize(h1) == 2 + e + k
  {}

  /** The extended length and the key stand where the frame says they stand. */
  lemma HeadRead(s: seq<Byte>, e: nat, k: nat, h: nat)
    requires |s| >= 2 && e == Extension(FormOf(s[1] % 128)) && k == KeySize(s[1]) && h == 2 + e + k <= |s|
    ensures Announced(s) == if e == 0 then s[1] % 128 else FromBigEndian(s[2..][..e])
    ensures s[2 + e..][..k] == s[h - k..h]
  {
    DropSlice(s, 2, 0, e);
    DropSlice(s, 2 + e, 0, k);
  }

  lemma FrameAtIs(s: seq<Byte>, len: nat, h: nat, mask: seq<Byte>, payload: seq<Byte>)
    requires |s| >= 2 && h == HeadSize(s[1]) && h + len <= |s|
    requires mask == s[h - KeySize(s[1])..h] && payload == Mask(s[h..h + len], mask)
    ensures FrameAt(s, len) == Frame(s[0] >= 128, s[0] / 16 % 8, s[0] % 16, mask, FormOf(s[1] % 128), payload)
  {}

  lemma HeadMissing(s: seq<Byte>)
    ensures |s| < 2 || |s| < HeadSize(s[1]) ==> ParseFrame(s) == Truncated
  {}

  lemma FrameIs(s: seq<Byte>, h: nat, len: nat)
    requires |s| >= 2 && h == HeadSize(s[1]) <= |s| && len == Announced(s)
    ensures ParseFrame(s) == if len >= INT64_LIMIT then Unallocatable(h)
                             else if |s| < h + len then Truncated
                             else Parsed(FrameAt(s, len), h + len)
  {}

  /** `input` is what the peer has still to say before it falls silent, `written` what it has been told. */
  class WsConn {
    var input: seq<Byte>
    var written: seq<Byte>

    constructor (s: seq<Byte>)
      ensures input == s && written == []
    {
      input, written := s, [];
    }

    /** Fills a buffer, or drains the input and fails. */
    method ReadFull(n: nat) returns (ok: bool, buf: array<Byte>)
      modifies this`input
      ensures fresh(buf) && buf.Length == n && ok == (n <= |old(input)|)
      ensures ok ==> buf[..] == old(input)[..n] && input == old(input)[n..]
      ensures !ok ==> input == []
    {
      buf := new Byte[n];
      if |input| < n {
        input := [];
        return false, buf;
      }
      forall i | 0 <= i < n {
        buf[i] := input[i];
      }
      input := input[n..];
      ok := true;
    }

    /** The extended length, if the header announces one. */
    method ReadLength(h1: Byte) returns (ok: bool, plen: nat)
      modifies this`input
      ensures var e := Extension(FormOf(h1 % 128));
              && ok == (e <= |old(input)|)
              && (ok ==> input == old(input)[e..])
              && (ok ==> plen == if e == 0 then h1 % 128 else FromBigEndian(old(input)[..e]))
      ensures !ok ==> input == []
    {
      hide FromBigEndian;
      plen := h1 % 128;
      if plen != 126 && plen != 127 {
        return true, plen;
      }
      var ext;
      ok, ext := ReadFull(if plen == 126 then 2 else 8);
      if ok {
        plen := FromBigEndian(ext[..]);
      }
    }

    method ReadKey(h1: Byte) returns (ok: bool, mask: seq<Byte>)
      modifies this`input
      ensures ok == (KeySize(h1) <= |old(input)|)
      ensures ok ==> mask == old(input)[..KeySize(h1)] && input == old(input)[KeySize(h1)..]
      ensures !ok ==> input == []
    {
      mask := [];
      if h1 < 128 {
        return true, mask;
      }
      var key;
      ok, key := ReadFull(4);
      mask := key[..];
    }

    method ReadPayload(n: nat, mask: seq<Byte>) returns (ok: bool, data: seq<Byte>)
      modifies this`input
      ensures ok == (n <= |old(input)|)
      ensures ok ==> data == Mask(old(input)[..n], mask) && input == old(input)[n..]
      ensures !ok ==> input == []
    {
      hide Mask;
      var payload;
      ok, payload := ReadFull(n);
      if ok {
        if |mask| == 4 {
          Unmask(payload, mask);
        } else {
          NoKey(payload[..], mask);
        }
      }
      data := payload[..];
    }

    /** The two header octets, the extended length and the key of one frame. */
    method ReadHead() returns (ok: bool, h0: Byte, h1: Byte, plen: nat, mask: seq<Byte>)
      modifies this`input
      ensures ok == (|old(input)| >= 2 && |old(input)| >= HeadSize(old(input)[1]))
      ensures !ok ==> input == []
      ensures ok ==>
                var s, h := old(input), HeadSize(h1);
                && h0 == s[0] && h1 == s[1] && plen == Announced(s) && mask == s[h - KeySize(h1)..h] && input == s[h..]
    {
      hide Mask, FromBigEndian, FormOf, KeySize, Announced, HeadSize, Extension;
      ghost var s := input;
      h0, h1, plen, mask := 0, 0, 0, [];
      var header;
      ok, header := ReadFull(2);
      if !ok {
        return;
      }
      HeaderOctets(s, header[..]);
      h0, h1 := header[0], header[1];
      ghost var e, k := Extension(FormOf(h1 % 128)), KeySize(h1);
      HeadSizeIs(h1, e, k);
      ok, plen := ReadLength(h1);
      if !ok {
        return;
      }
      DropTo(s, 2, e, 2 + e);
      ok, mask := ReadKey(h1);
      if !ok {
        return;
      }
      DropTo(s, 2 + e, k, 2 + e + k);
      HeadRead(s, e, k, 2 + e + k);
    }

    /** One frame: its head, and as much payload as that announces. */
    method ReadFrame() returns (r: Parsed)
      modifies this`input
      ensures r == ParseFrame(old(input))
      ensures r.Truncated? ==> input == []
      ensures r.Parsed? || r.Unallocatable? ==> r.size <= |old(input)| && input == old(input)[r.size..]
    {
      hide Mask, FromBigEndian, FormOf, KeySize, Announced, FrameAt, HeadSize, ParseFrame, Extension;
      ghost var s := input;
      HeadMissing(s);
      var ok, h0, h1, plen, mask := ReadHead();
      if !ok {
        return Truncated;
      }
      var h := HeadSize(h1);
      FrameIs(s, h, plen);
      if plen >= INT64_LIMIT {
        return Unallocatable(h);
      }
      var payload;
      ok, payload := ReadPayload(plen, mask);
      if !ok {
        return Truncated;
      }
      DropTo(s, h, plen, h + plen);
      DropSlice(s, h, 0, plen);
      FrameAtIs(s, plen, h, mask, payload);
      return Parsed(Frame(h0 >= 128, h0 / 16 % 8, h0 % 16, mask, FormOf(h1 % 128), payload), h + plen);
    }

    method SendControl(opcode: nat, payload: seq<Byte>)
      requires opcode < 16
      modifies this`written
      ensures written == old(written) + Control(opcode, payload)
    {
      written := written + ([128 + opcode, |payload| % 256] + payload);
    }

    method ReadFrames(acc: seq<Byte>) returns (outcome: Outcome)
      modifies this
      ensures var r := Read(old(input), acc);
              outcome == r.outcome && input == r.rest && written == old(written) + r.written
      decreases |input|
    {
      hide ParseFrame;
      ghost var s, w := input, written;
      var r := ReadFrame();
      match r {
        case Truncated => return Failed;
        case Unallocatable(_) => return Panicked;
        case Parsed(f, n) =>
          EncodeParsed(s);
          if f.opcode == CLOSE {
            return Closed;
          } else if f.opcode == PING {
            SendControl(PONG, f.payload);
            outcome := ReadFrames(acc);
            ConcatAssoc(w, Control(PONG, f.payload), Read(s[n..], acc).written);
          } else if f.opcode == PONG {
            outcome := ReadFrames(acc);
          } else {
            var more := if f.opcode <= 2 then acc + f.payload else acc;
            if !f.fin {
              outcome := ReadFrames(more);
            } else {
              outcome := Message(more);
            }
          }
      }
    }

    method ReadMessage() returns (outcome: Outcome)
      modifies this
      ensures var r := Read(old(input), []);
              outcome == r.outcome && input == r.rest && written == old(written) + r.written
    {
      outcome := ReadFrames([]);
    }
  }

  lemma NoKey(p: seq<Byte>, key: seq<Byte>)
    requires |key| != 4
    ensures Mask(p, key) == p
  {}
}
