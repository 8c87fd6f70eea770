/**
 * Base 128 varints (Protocol Buffers, Encoding guide, "Base 128 Varints").
 *
 * `Varint` is the encoding as a function of the number and `ReadVarint` the reading of one from
 * the front of a byte string. The loops the repository uses, three writers and two readers, are
 * methods proved equal to them.
 */
module Varints {
  import opened Bytes

  // ---------------------------------------------------------------- bit arithmetic on naturals

  /** Left shift without a width limit. */
  function Shl(x: nat, k: nat): (r: nat)
    ensures r >= x
  {
    if k == 0 then x else 2 * Shl(x, k - 1)
  }

  /** Left shift of a 64-bit word: the bits pushed past the top are lost. */
  function Shl64(x: nat, k: nat): nat {
    if k == 0 then x
    else var y := Shl64(x, k - 1); if 2 * y >= U64_LIMIT then 2 * y - U64_LIMIT else 2 * y
  }

  /** A number stored in a 64-bit word. */
  function Wrap64(v: nat): (w: nat)
    ensures w < U64_LIMIT
  {
    if v < U64_LIMIT then v else Wrap64(v - U64_LIMIT)
  }

  lemma {:induction false} Wrap64IsModulo(v: nat)
    ensures Wrap64(v) == v % U64_LIMIT
  {
    if v >= U64_LIMIT {
      Wrap64IsModulo(v - U64_LIMIT);
    }
  }

  lemma {:induction false} Wrap64Of(r: nat, q: nat)
    requires r < U64_LIMIT
    ensures Wrap64(r + q * 0x1_0000_0000_0000_0000) == r
  {
    if q != 0 {
      Wrap64Of(r, q - 1);
    }
  }

  /** Bitwise or. */
  function Or(a: nat, b: nat): nat {
    if a == 0 && b == 0 then 0
    else (if a % 2 == 1 || b % 2 == 1 then 1 else 0) + 2 * Or(a / 2, b / 2)
  }

  lemma {:induction false} ShlSum(a: nat, b: nat, k: nat)
    ensures Shl(a + b, k) == Shl(a, k) + Shl(b, k)
  {
    if k != 0 {
      ShlSum(a, b, k - 1);
    }
  }

  lemma {:induction false} ShlTwice(x: nat, m: nat, n: nat)
    ensures Shl(Shl(x, m), n) == Shl(x, m + n)
  {
    if n != 0 {
      ShlTwice(x, m, n - 1);
    }
  }

  lemma {:induction false} ShlLonger(x: nat, m: nat, n: nat)
    requires m <= n
    ensures Shl(x, m) <= Shl(x, n)
  {
    if m < n {
      ShlLonger(x, m, n - 1);
    }
  }

  lemma ShlSeven(x: nat, k: nat)
    ensures Shl(x, k + 7) == 128 * Shl(x, k)
  {
    assert Shl(x, k + 2) == 4 * Shl(x, k);
    assert Shl(x, k + 4) == 4 * Shl(x, k + 2);
    assert Shl(x, k + 6) == 4 * Shl(x, k + 4);
  }

  lemma ShlConstants(x: nat)
    ensures Shl(x, 63) == 0x8000_0000_0000_0000 * x
    ensures Shl(x, 64) == 0x1_0000_0000_0000_0000 * x <= Shl(x, 70)
  {
    ShlSeven(x, 0);
    ShlSeven(x, 7);
    ShlSeven(x, 14);
    ShlSeven(x, 21);
    ShlSeven(x, 28);
    ShlSeven(x, 35);
    ShlSeven(x, 42);
    ShlSeven(x, 49);
    ShlSeven(x, 56);
    ShlLonger(x, 64, 70);
  }

  /** Or-ing a word into the still-zero bits above it is addition. */
  lemma {:induction false} OrDisjoint(a: nat, y: nat, k: nat)
    requires a < Shl(1, k)
    ensures Or(a, Shl(y, k)) == a + Shl(y, k)
  {
    if k == 0 {
      OrZero(y);
    } else {
      OrDisjoint(a / 2, y, k - 1);
    }
  }

  lemma {:induction false} OrZero(b: nat)
    ensures Or(0, b) == b
  {
    if b != 0 {
      OrZero(b / 2);
    }
  }

  lemma {:induction false} ShlMonotone(x: nat, y: nat, k: nat)
    requires x <= y
    ensures Shl(x, k) <= Shl(y, k)
  {
    if k != 0 {
      ShlMonotone(x, y, k - 1);
    }
  }

  lemma ShlToTop(k: nat)
    requires k <= 64
    ensures Shl(Shl(1, 64 - k), k) == U64_LIMIT
  {
    ShlTwice(1, 64 - k, k);
    ShlConstants(1);
  }

  /** A shifted word has its low `k` bits clear and room for them below the word limit. */
  lemma {:induction false} Shl64Clear(x: nat, k: nat) returns (y: nat)
    requires x < U64_LIMIT && k <= 64
    ensures Shl64(x, k) == Shl(y, k)
    ensures Shl(y, k) + Shl(1, k) <= U64_LIMIT
  {
    if k == 0 {
      y := x;
    } else {
      y := Shl64Clear(x, k - 1);
      var top := Shl(1, 64 - k);
      ShlToTop(k);
      if y < top {
        ShlSum(y, 1, k);
        ShlMonotone(y + 1, top, k);
      } else {
        ShlMonotone(top, y, k);
        ShlSum(y - top, top, k);
        y := y - top;
      }
    }
  }

  /** A shifted word is the unlimited shift modulo 2^64. */
  lemma {:induction false} Shl64Wraps(x: nat, k: nat) returns (q: nat)
    ensures Shl(x, k) == Shl64(x, k) + q * 0x1_0000_0000_0000_0000
  {
    if k == 0 {
      q := 0;
    } else {
      q := Shl64Wraps(x, k - 1);
      q := if 2 * Shl64(x, k - 1) >= U64_LIMIT then 2 * q + 1 else 2 * q;
    }
  }

  // ---------------------------------------------------------------- the encoding

  function Varint(v: nat): (s: seq<Byte>)
    ensures |s| > 0
  {
    if v < 128 then [v] else [v % 128 + 128] + Varint(v / 128)
  }

  /** A byte without its continuation bit. */
  function Low7(b: Byte): (g: nat)
    ensures g < 128
  {
    if b < 128 then b else b - 128
  }

  /** The number spelled by the low seven bits of each byte, least significant group first. */
  function Groups(s: seq<Byte>): nat {
    if s == [] then 0 else Low7(s[0]) + 128 * Groups(s[1..])
  }

  /** Bytes up to and including the first one without a continuation bit; 0 if there is none. */
  function Span(s: seq<Byte>): (n: nat)
    ensures n <= |s|
  {
    if s == [] then 0
    else if s[0] < 128 then 1
    else var n := Span(s[1..]); if n == 0 then 0 else n + 1
  }

  /** The varint at the front of `s` and its length: at most ten bytes, value modulo 2^64. */
  function ReadVarint(s: seq<Byte>): (r: Option<(nat, nat)>)
    ensures r.Some? ==> 0 < r.value.1 <= |s| && r.value.0 < U64_LIMIT
  {
    var n := Span(s);
    if n == 0 || n > 10 then None else Some((Wrap64(Groups(s[..n])), n))
  }

  /** What a varint means: its groups modulo 2^64, over the bytes up to the first without a continuation bit. */
  lemma ReadVarintValue(s: seq<Byte>)
    ensures ReadVarint(s).Some? <==> 0 < Span(s) <= 10
    ensures ReadVarint(s).Some? ==> ReadVarint(s).value == (Groups(s[..Span(s)]) % U64_LIMIT, Span(s))
  {
    Wrap64IsModulo(Groups(s[..Span(s)]));
  }

  lemma {:induction false} SpanOfVarint(v: nat, rest: seq<Byte>)
    ensures Span(Varint(v) + rest) == |Varint(v)|
    ensures Groups(Varint(v)) == v
  {
    if v >= 128 {
      SpanOfVarint(v / 128, rest);
      assert (Varint(v) + rest)[1..] == Varint(v / 128) + rest;
      assert Varint(v)[1..] == Varint(v / 128);
    }
  }

  /** The layout: byte `i` holds the seven bits of weight 128 to the `i`, and says whether it is the last one. */
  lemma {:induction false} VarintByte(v: nat, i: nat)
    requires i < |Varint(v)|
    ensures Varint(v)[i] % 128 == v / Shl(1, 7 * i) % 128
    ensures Varint(v)[i] >= 128 <==> i + 1 < |Varint(v)|
  {
    if i > 0 {
      VarintByte(v / 128, i - 1);
      ShlSeven(1, 7 * (i - 1));
      DivTwice(v, 128, Shl(1, 7 * (i - 1)));
    }
  }

  lemma {:induction false} VarintLength(v: nat, n: nat)
    requires n > 0 && v < Shl(1, 7 * n)
    ensures |Varint(v)| <= n
  {
    if v >= 128 {
      ShlSeven(1, 7 * (n - 1));
      if n > 1 {
        VarintLength(v / 128, n - 1);
      }
    }
  }

  /** Every 64-bit number takes at most ten bytes. */
  lemma VarintFits(v: nat)
    requires v < U64_LIMIT
    ensures |Varint(v)| <= 10
  {
    ShlConstants(1);
    VarintLength(v, 10);
  }

  /** What was written is read back, and nothing of what follows is consumed. */
  lemma VarintRoundTrip(v: nat, rest: seq<Byte>)
    requires v < U64_LIMIT
    ensures ReadVarint(Varint(v) + rest) == Some((v, |Varint(v)|))
  {
    SpanOfVarint(v, rest);
    VarintFits(v);
    assert (Varint(v) + rest)[..|Varint(v)|] == Varint(v);
  }

  lemma {:induction false} SpanStable(s: seq<Byte>, t: seq<Byte>)
    requires Span(s) > 0
    ensures Span(s + t) == Span(s)
  {
    if s[0] >= 128 {
      assert (s + t)[1..] == s[1..] + t;
      SpanStable(s[1..], t);
    }
  }

  /** A successful read does not depend on what follows the bytes it consumed. */
  lemma ReadVarintStable(s: seq<Byte>, t: seq<Byte>)
    requires ReadVarint(s).Some?
    ensures ReadVarint(s + t) == ReadVarint(s)
  {
    SpanStable(s, t);
    var n := Span(s);
    assert (s + t)[..n] == s[..n];
  }

  // ---------------------------------------------------------------- the writers

  /** The loop that emits the last group from inside the loop body. */
  method EncodeVarint(buf: seq<Byte>, value: nat) returns (out: seq<Byte>)
    ensures out == buf + Varint(value)
  {
    out := buf;
    var v := value;
    while true
      invariant out + Varint(v) == buf + Varint(value)
      decreases v
    {
      var b := v % 128;
      v := v / 128;
      if v == 0 {
        out := out + [b];
        return;
      }
      out := out + [b + 128];
    }
  }

  /** The loop that sets the continuation bit first and tests the remainder afterwards. */
  method AppendVarintFlagged(buf: seq<Byte>, value: nat) returns (out: seq<Byte>)
    ensures out == buf + Varint(value)
  {
    out := buf;
    var v := value;
    while true
      invariant out + Varint(v) == buf + Varint(value)
      decreases v
    {
      ConcatAssoc(out, Varint(v)[..1], Varint(v)[1..]);
      var b := v % 128;
      v := v / 128;
      if v != 0 {
        b := b + 128;
      }
      out := out + [b];
      if v == 0 {
        return;
      }
    }
  }

  /** The loop that runs while more than one group is left. */
  method AppendVarint(buf: seq<Byte>, value: nat) returns (out: seq<Byte>)
    ensures out == buf + Varint(value)
  {
    out := buf;
    var v := value;
    while v >= 0x80
      invariant out + Varint(v) == buf + Varint(value)
    {
      out := out + [v % 128 + 128];
      v := v / 128;
    }
    out := out + [v];
  }

  // ---------------------------------------------------------------- the readers

  lemma {:induction false} GroupsAppend(s: seq<Byte>, b: Byte)
    ensures Groups(s + [b]) == Groups(s) + Shl(Low7(b), 7 * |s|)
  {
    if s == [] {
      assert s + [b] == [b];
    } else {
      assert (s + [b])[1..] == s[1..] + [b];
      GroupsAppend(s[1..], b);
      ShlSeven(Low7(b), 7 * (|s| - 1));
    }
  }

  lemma {:induction false} GroupsBound(s: seq<Byte>)
    ensures Groups(s) < Shl(1, 7 * |s|)
  {
    if s != [] {
      GroupsBound(s[1..]);
      ShlSeven(1, 7 * (|s| - 1));
    }
  }

  /** Byte number |s|, shifted into a 64-bit word, completes the groups before it. */
  lemma ReadStep(s: seq<Byte>, b: Byte)
    requires |s| <= 9
    ensures Groups(s) < Shl(1, 7 * |s|)
    ensures Groups(s) + Shl64(Low7(b), 7 * |s|) == Wrap64(Groups(s + [b]))
  {
    GroupsBound(s);
    GroupsAppend(s, b);
    WrapGroup(Groups(s), Low7(b), 7 * |s|, Groups(s + [b]));
  }

  lemma WrapGroup(g: nat, x: nat, k: nat, sum: nat)
    requires x < U64_LIMIT && k <= 64 && g < Shl(1, k) && sum == g + Shl(x, k)
    ensures g + Shl64(x, k) == Wrap64(sum)
  {
    var y := Shl64Clear(x, k);
    var q := Shl64Wraps(x, k);
    WrapSum(g + Shl64(x, k), q, sum);
  }

  lemma WrapSum(r: nat, q: nat, sum: nat)
    requires r < U64_LIMIT && sum == r + q * 0x1_0000_0000_0000_0000
    ensures r == Wrap64(sum)
  {
    Wrap64Of(r, q);
  }

  /** The update `result |= group << shift` of both reading loops. */
  method OrGroup(result: nat, group: nat, shift: nat) returns (r: nat)
    requires group < 128 && shift <= 63 && result < Shl(1, shift)
    ensures r == result + Shl64(group, shift)
  {
    ghost var y := Shl64Clear(group, shift);
    OrDisjoint(result, y, shift);
    r := Or(result, Shl64(group, shift));
  }

  ghost predicate Continues(s: seq<Byte>) {
    forall j :: 0 <= j < |s| ==> s[j] >= 128
  }

  lemma {:induction false} SpanAfter(s: seq<Byte>, i: nat)
    requires i <= |s| && Continues(s[..i])
    ensures Span(s) == if Span(s[i..]) == 0 then 0 else i + Span(s[i..])
  {
    if i != 0 {
      assert s[0] == s[..i][0];
      assert s[1..][..i - 1] == s[..i][1..];
      assert s[1..][i - 1..] == s[i..];
      SpanAfter(s[1..], i - 1);
    } else {
      assert s[0..] == s;
    }
  }

  /** What byte number `i`, or-ed in, tells a reading loop that has seen only continuations. */
  lemma ReaderTurn(data: seq<Byte>, i: nat)
    requires i < |data| && i <= 9 && Continues(data[..i])
    ensures Groups(data[..i]) < Shl(1, 7 * i)
    ensures var result := Groups(data[..i]) + Shl64(Low7(data[i]), 7 * i);
            if data[i] < 128 then ReadVarint(data) == Some((result, i + 1))
            else if i == 9 then ReadVarint(data) == None
            else Continues(data[..i + 1]) && result == Groups(data[..i + 1])
  {
    ReadStep(data[..i], data[i]);
    assert data[..i] + [data[i]] == data[..i + 1];
    if data[i] < 128 {
      SpanAfter(data, i);
    } else {
      SpanAfter(data, i + 1);
      if i < 9 {
        GroupsBound(data[..i + 1]);
        ShlConstants(1);
        ShlLonger(1, 7 * (i + 1), 63);
      }
    }
  }

  /** The reader indexed by byte number; (0, 0) stands for failure. */
  method ConsumeVarint(data: seq<Byte>) returns (value: nat, n: nat)
    ensures ReadVarint(data).None? ==> value == 0 && n == 0
    ensures ReadVarint(data).Some? ==> (value, n) == ReadVarint(data).value
  {
    var result := 0;
    for i := 0 to |data|
      invariant i <= 9
      invariant Continues(data[..i])
      invariant result == Groups(data[..i])
    {
      var b := data[i];
      ReaderTurn(data, i);
      result := OrGroup(result, Low7(b), 7 * i);
      if b < 128 {
        return result, i + 1;
      }
      if i >= 9 {
        return 0, 0;
      }
    }
    SpanAfter(data, |data|);
    return 0, 0;
  }

  /** The reader that carries a cursor and a shift count and fails once the shift reaches 64. */
  method ReadVarintAt(buf: seq<Byte>, start: nat) returns (value: Option<nat>, pos: nat)
    requires start <= |buf|
    ensures start <= pos <= |buf|
    ensures ReadVarint(buf[start..]).None? ==> value.None? && pos == if |buf| < start + 10 then |buf| else start + 10
    ensures ReadVarint(buf[start..]).Some? ==>
              (value, pos - start) == (Some(ReadVarint(buf[start..]).value.0), ReadVarint(buf[start..]).value.1)
  {
    ghost var data := buf[start..];
    var result, shift := 0, 0;
    pos := start;
    while true
      invariant start <= pos <= |buf|
      invariant shift == 7 * (pos - start) && pos - start <= 9
      invariant Continues(data[..pos - start])
      invariant result == Groups(data[..pos - start])
      decreases |buf| - pos
    {
      if pos >= |buf| {
        SpanAfter(data, |data|);
        return None, pos;
      }
      var b := buf[pos];
      ReaderTurn(data, pos - start);
      pos := pos + 1;
      result := OrGroup(result, Low7(b), shift);
      if b < 128 {
        return Some(result), pos;
      }
      shift := shift + 7;
      if shift >= 64 {
        return None, pos;
      }
    }
  }

  // ---------------------------------------------------------------- signed integers

  /**
   * A 32-bit number shifted left by one and combined with its sign spread over all bits: combining
   * with all ones is the complement, with all zeros nothing.
   */
  function Zigzag(v: int): (z: nat)
    requires -0x8000_0000 <= v < 0x8000_0000
    ensures z < U32_LIMIT
  {
    if v < 0 then 0xFFFF_FFFF - (2 * v) % U32_LIMIT else (2 * v) % U32_LIMIT
  }

  /** The encoding's meaning: 0, -1, 1, -2, ... are numbered in this order. */
  function Unzigzag(z: nat): int {
    if z % 2 == 0 then z / 2 else -((z + 1) / 2)
  }

  /**
   * Zigzag numbers 0, -1, 1, -2 and so on in this order, and is a bijection between the signed and the
   * unsigned 32-bit numbers.
   */
  lemma ZigzagBijection(v: int, z: nat)
    requires -0x8000_0000 <= v < 0x8000_0000 && z < U32_LIMIT
    ensures Zigzag(v) == if v < 0 then -2 * v - 1 else 2 * v
    ensures Unzigzag(Zigzag(v)) == v
    ensures -0x8000_0000 <= Unzigzag(z) < 0x8000_0000 && Zigzag(Unzigzag(z)) == z
  {
    ZigzagIs(v);
    ZigzagIs(Unzigzag(z));
  }

  lemma ZigzagIs(v: int)
    requires -0x8000_0000 <= v < 0x8000_0000
    ensures Zigzag(v) == if v < 0 then -2 * v - 1 else 2 * v
  {
    if v < 0 {
      assert 2 * v == -1 * U32_LIMIT + (2 * v + U32_LIMIT);
    }
  }
}
