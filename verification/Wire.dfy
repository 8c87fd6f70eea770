/**
 * The Protocol Buffers wire format as a grammar: a message is a sequence of tagged fields.
 *
 * Every decoder of the repository is specified as a fold over `Parse`, every encoder as `Print`
 * of a list of fields, so that printers and parsers written apart from each other can be compared.
 */
module Wire {
  import opened Bytes
  import opened Varints

  datatype Field =
    | VarintField(num: nat, val: nat)
    | Fixed64Field(num: nat, bits: nat)
    | LenField(num: nat, data: seq<Byte>)
    | Fixed32Field(num: nat, bits32: nat)
  {
    function WireType(): nat {
      match this
      case VarintField(_, _) => 0
      case Fixed64Field(_, _) => 1
      case LenField(_, _) => 2
      case Fixed32Field(_, _) => 5
    }

    /** Values fit their width, and the tag fits a 64-bit varint. */
    ghost predicate Valid() {
      && num * 8 + 7 < U64_LIMIT
      && match this
         case VarintField(_, v) => v < U64_LIMIT
         case Fixed64Field(_, b) => b < U64_LIMIT
         case LenField(_, d) => |d| < U64_LIMIT
         case Fixed32Field(_, b) => b < U32_LIMIT
    }
  }

  // ---------------------------------------------------------------- printing

  function Body(f: Field): seq<Byte> {
    match f
    case VarintField(_, v) => Varint(v)
    case Fixed64Field(_, b) => LittleEndian(b, 8)
    case LenField(_, d) => Varint(|d|) + d
    case Fixed32Field(_, b) => LittleEndian(b, 4)
  }

  function PrintField(f: Field): (s: seq<Byte>)
    ensures |s| > 0
  {
    Varint(f.num * 8 + f.WireType()) + Body(f)
  }

  function Print(fs: seq<Field>): seq<Byte> {
    if fs == [] then [] else PrintField(fs[0]) + Print(fs[1..])
  }

  // ---------------------------------------------------------------- parsing

  /** The value after a tag, and how many bytes it takes. */
  function ParseBody(num: nat, wire: nat, s: seq<Byte>): (r: Option<(Field, nat)>)
    ensures r.Some? ==> r.value.1 <= |s| && r.value.0.num == num && r.value.0.WireType() == wire
  {
    match wire
    case 0 =>
      (match ReadVarint(s)
       case None => None
       case Some((v, n)) => Some((VarintField(num, v), n)))
    case 1 =>
      if |s| < 8 then None else Some((Fixed64Field(num, FromLittleEndian(s[..8])), 8))
    case 2 =>
      (match ReadVarint(s)
       case None => None
       case Some((len, n)) =>
         if n + len > |s| then None else Some((LenField(num, s[n..n + len]), n + len)))
    case 5 =>
      if |s| < 4 then None else Some((Fixed32Field(num, FromLittleEndian(s[..4])), 4))
    case _ => None
  }

  /** The field at the front of `s`, and how many bytes it takes, tag included. */
  function ParseField(s: seq<Byte>): (r: Option<(Field, nat)>)
    ensures r.Some? ==> 0 < r.value.1 <= |s|
  {
    match ReadVarint(s)
    case None => None
    case Some((tag, n)) =>
      match ParseBody(tag / 8, tag % 8, s[n..])
      case None => None
      case Some((f, m)) => Some((f, n + m))
  }

  /** A tag and a body read one after the other, in terms of the buffer they are read from. */
  lemma FieldRead(buf: seq<Byte>, start: nat, tag: nat, n: nat, f: Field, m: nat)
    requires start + n <= |buf| && ReadVarint(buf[start..]) == Some((tag, n))
    requires ParseBody(tag / 8, tag % 8, buf[start + n..]) == Some((f, m))
    ensures ParseField(buf[start..]) == Some((f, n + m))
    ensures start + n + m <= |buf| && buf[start..][n + m..] == buf[start + n + m..]
  {
    DropDrop(buf, start, n);
    DropDrop(buf, start, n + m);
  }

  lemma TagUnreadable(buf: seq<Byte>, start: nat)
    requires start <= |buf| && ReadVarint(buf[start..]) == None
    ensures ParseField(buf[start..]) == None
  {}

  lemma FieldUnreadable(buf: seq<Byte>, start: nat, tag: nat, n: nat)
    requires start + n <= |buf| && ReadVarint(buf[start..]) == Some((tag, n))
    requires ParseBody(tag / 8, tag % 8, buf[start + n..]) == None
    ensures ParseField(buf[start..]) == None
  {
    DropDrop(buf, start, n);
  }

  function Parse(s: seq<Byte>): Option<seq<Field>> {
    if s == [] then Some([]) else
    match ParseField(s)
    case None => None
    case Some((f, n)) =>
      match Parse(s[n..])
      case None => None
      case Some(fs) => Some([f] + fs)
  }

  // ---------------------------------------------------------------- parsing is local

  lemma ParseBodyStable(num: nat, wire: nat, s: seq<Byte>, t: seq<Byte>)
    requires ParseBody(num, wire, s).Some?
    ensures ParseBody(num, wire, s + t) == ParseBody(num, wire, s)
  {
    var n := ParseBody(num, wire, s).value.1;
    if wire == 0 || wire == 2 {
      ReadVarintStable(s, t);
      if wire == 2 {
        var m := ReadVarint(s).value.1;
        assert (s + t)[m..n] == s[m..n];
      }
    } else {
      assert (s + t)[..n] == s[..n];
    }
  }

  lemma ParseFieldStable(s: seq<Byte>, t: seq<Byte>)
    requires ParseField(s).Some?
    ensures ParseField(s + t) == ParseField(s)
  {
    ReadVarintStable(s, t);
    var (tag, n) := ReadVarint(s).value;
    assert (s + t)[n..] == s[n..] + t;
    ParseBodyStable(tag / 8, tag % 8, s[n..], t);
  }

  /** `fs` put in front of a parse, when there is one. */
  function Prepend(fs: seq<Field>, r: Option<seq<Field>>): Option<seq<Field>> {
    match r
    case None => None
    case Some(gs) => Some(fs + gs)
  }

  lemma ParseStep(s: seq<Byte>, f: Field, n: nat, t: seq<Byte>)
    requires s != [] && n <= |s| && t == s[n..] && ParseField(s) == Some((f, n))
    ensures Parse(s) == Prepend([f], Parse(t))
  {
    hide ParseField;
  }

  lemma PrependTwice(f: Field, fs: seq<Field>, r: Option<seq<Field>>)
    ensures Prepend([f], Prepend(fs, r)) == Prepend([f] + fs, r)
  {
    if r.Some? {
      assert [f] + (fs + r.value) == [f] + fs + r.value;
    }
  }

  lemma ParseAfterField(a: seq<Byte>, b: seq<Byte>)
    requires a != [] && ParseField(a).Some?
    ensures Parse(a + b) == Prepend([ParseField(a).value.0], Parse(a[ParseField(a).value.1..] + b))
  {
    var n := ParseField(a).value.1;
    ParseFieldStable(a, b);
    assert (a + b)[n..] == a[n..] + b;
  }

  /** Parsing distributes over concatenation: after a parsed message only the rest matters. */
  lemma {:induction false} ParseConcat(a: seq<Byte>, b: seq<Byte>)
    requires Parse(a).Some?
    ensures Parse(a + b) == Prepend(Parse(a).value, Parse(b))
  {
    if a == [] {
      assert a + b == b;
      assert Parse(b).Some? ==> [] + Parse(b).value == Parse(b).value;
    } else {
      var (f, n) := ParseField(a).value;
      ParseAfterField(a, b);
      ParseConcat(a[n..], b);
      PrependTwice(f, Parse(a[n..]).value, Parse(b));
    }
  }

  // ---------------------------------------------------------------- parsing inverts printing

  lemma ParseBodyPrinted(f: Field)
    requires f.Valid()
    ensures ParseBody(f.num, f.WireType(), Body(f)) == Some((f, |Body(f)|))
  {
    FixedWidths();
    match f
    case VarintField(_, v) =>
      VarintRoundTrip(v, []);
      assert Varint(v) + [] == Varint(v);
    case Fixed64Field(_, b) =>
      LittleEndianRoundTrip(b, 8);
      assert LittleEndian(b, 8)[..8] == LittleEndian(b, 8);
    case LenField(_, d) =>
      VarintRoundTrip(|d|, d);
      assert (Varint(|d|) + d)[|Varint(|d|)|..|Varint(|d|)| + |d|] == d;
    case Fixed32Field(_, b) =>
      LittleEndianRoundTrip(b, 4);
      assert LittleEndian(b, 4)[..4] == LittleEndian(b, 4);
  }

  lemma TagParts(num: nat, wire: nat)
    requires wire < 8
    ensures (num * 8 + wire) / 8 == num && (num * 8 + wire) % 8 == wire
  {}

  lemma ParseFieldPrinted(f: Field, rest: seq<Byte>)
    requires f.Valid()
    ensures ParseField(PrintField(f) + rest) == Some((f, |PrintField(f)|))
  {
    hide ReadVarint, ParseBody, Varint, Body;
    var tag := f.num * 8 + f.WireType();
    var s := PrintField(f);
    VarintRoundTrip(tag, Body(f));
    assert s[|Varint(tag)|..] == Body(f);
    ParseBodyPrinted(f);
    TagParts(f.num, f.WireType());
    assert ParseField(s) == Some((f, |s|));
    ParseFieldStable(s, rest);
  }

  ghost predicate AllValid(fs: seq<Field>) {
    forall i :: 0 <= i < |fs| ==> fs[i].Valid()
  }

  /** A printed message parses back to exactly its fields. */
  lemma {:induction false} ParsePrint(fs: seq<Field>)
    requires AllValid(fs)
    ensures Parse(Print(fs)) == Some(fs)
  {
    hide ParseField, PrintField;
    if fs != [] {
      var rest := Print(fs[1..]);
      ParseFieldPrinted(fs[0], rest);
      assert (PrintField(fs[0]) + rest)[|PrintField(fs[0])|..] == rest;
      ParsePrint(fs[1..]);
      ParseStep(Print(fs), fs[0], |PrintField(fs[0])|, rest);
      assert [fs[0]] + fs[1..] == fs;
    }
  }

  lemma {:induction false} PrintAppend(a: seq<Field>, b: seq<Field>)
    ensures Print(a + b) == Print(a) + Print(b)
  {
    if a == [] {
      assert a + b == b;
    } else {
      assert (a + b)[1..] == a[1..] + b;
      PrintAppend(a[1..], b);
    }
  }

  /** A printed message cut at `k` bytes is well-formed only where it is cut between two fields. */
  lemma {:induction false} CutPrint(fs: seq<Field>, k: nat)
    requires AllValid(fs) && k <= |Print(fs)| && Parse(Print(fs)[..k]).Some?
    ensures var gs := Parse(Print(fs)[..k]).value; gs <= fs && |Print(gs)| == k
    decreases |fs|
  {
    hide PrintField, ParseField;
    var s := Print(fs);
    var cut := s[..k];
    if k > 0 {
      var (f, n) := ParseField(cut).value;
      ParseFieldStable(cut, s[k..]);
      assert cut + s[k..] == s;
      ParseFieldPrinted(fs[0], Print(fs[1..]));
      assert s[n..] == Print(fs[1..]) && cut[n..] == Print(fs[1..])[..k - n];
      ParseStep(cut, f, n, cut[n..]);
      CutPrint(fs[1..], k - n);
      var gs := Parse(cut[n..]).value;
      assert ([f] + gs)[1..] == gs && [f] + gs <= fs;
    }
  }

  /** Conversely, cut there it is the message of the fields before. */
  lemma CutBetween(fs: seq<Field>, j: nat)
    requires AllValid(fs) && j <= |fs|
    ensures |Print(fs[..j])| <= |Print(fs)|
    ensures Parse(Print(fs)[..|Print(fs[..j])|]) == Some(fs[..j])
  {
    hide Print, Parse;
    assert fs == fs[..j] + fs[j..];
    PrintAppend(fs[..j], fs[j..]);
    ParsePrint(fs[..j]);
    assert Print(fs)[..|Print(fs[..j])|] == Print(fs[..j]);
  }

  // ---------------------------------------------------------------- last one wins

  /** The value of the last field with a given number and wire type, or a default. */
  function LastVarint(fs: seq<Field>, num: nat, default: nat): nat {
    if fs == [] then default
    else LastVarint(fs[1..], num, if fs[0].VarintField? && fs[0].num == num then fs[0].val else default)
  }

  function LastFixed64(fs: seq<Field>, num: nat, default: nat): nat {
    if fs == [] then default
    else LastFixed64(fs[1..], num, if fs[0].Fixed64Field? && fs[0].num == num then fs[0].bits else default)
  }

  function LastFixed32(fs: seq<Field>, num: nat, default: nat): nat {
    if fs == [] then default
    else LastFixed32(fs[1..], num, if fs[0].Fixed32Field? && fs[0].num == num then fs[0].bits32 else default)
  }

  function LastLen(fs: seq<Field>, num: nat, default: seq<Byte>): seq<Byte> {
    if fs == [] then default
    else LastLen(fs[1..], num, if fs[0].LenField? && fs[0].num == num then fs[0].data else default)
  }

  predicate Occurs(fs: seq<Field>, wire: nat, num: nat) {
    exists f :: f in fs && f.WireType() == wire && f.num == num
  }

  lemma {:induction false} LastVarintPresence(fs: seq<Field>, num: nat, default: nat)
    ensures LastVarint(fs, num, default) == if Occurs(fs, 0, num) then LastVarint(fs, num, 0) else default
  {
    if fs != [] {
      LastVarintPresence(fs[1..], num, if fs[0].VarintField? && fs[0].num == num then fs[0].val else default);
      LastVarintPresence(fs[1..], num, if fs[0].VarintField? && fs[0].num == num then fs[0].val else 0);
      OccursStep(fs, 0, num);
    }
  }

  lemma {:induction false} LastFixed64Presence(fs: seq<Field>, num: nat, default: nat)
    ensures LastFixed64(fs, num, default) == if Occurs(fs, 1, num) then LastFixed64(fs, num, 0) else default
  {
    if fs != [] {
      LastFixed64Presence(fs[1..], num, if fs[0].Fixed64Field? && fs[0].num == num then fs[0].bits else default);
      LastFixed64Presence(fs[1..], num, if fs[0].Fixed64Field? && fs[0].num == num then fs[0].bits else 0);
      OccursStep(fs, 1, num);
    }
  }

  lemma {:induction false} LastFixed32Presence(fs: seq<Field>, num: nat, default: nat)
    ensures LastFixed32(fs, num, default) == if Occurs(fs, 5, num) then LastFixed32(fs, num, 0) else default
  {
    if fs != [] {
      LastFixed32Presence(fs[1..], num, if fs[0].Fixed32Field? && fs[0].num == num then fs[0].bits32 else default);
      LastFixed32Presence(fs[1..], num, if fs[0].Fixed32Field? && fs[0].num == num then fs[0].bits32 else 0);
      OccursStep(fs, 5, num);
    }
  }

  lemma {:induction false} LastLenPresence(fs: seq<Field>, num: nat, default: seq<Byte>)
    ensures LastLen(fs, num, default) == if Occurs(fs, 2, num) then LastLen(fs, num, []) else default
  {
    if fs != [] {
      LastLenPresence(fs[1..], num, if fs[0].LenField? && fs[0].num == num then fs[0].data else default);
      LastLenPresence(fs[1..], num, if fs[0].LenField? && fs[0].num == num then fs[0].data else []);
      OccursStep(fs, 2, num);
    }
  }

  lemma OccursStep(fs: seq<Field>, wire: nat, num: nat)
    requires fs != []
    ensures Occurs(fs, wire, num) <==> (fs[0].WireType() == wire && fs[0].num == num) || Occurs(fs[1..], wire, num)
  {
    assert forall f :: f in fs <==> f == fs[0] || f in fs[1..];
  }
}
