/** Bytes, fixed-width little-endian integers and the optional values shared by every codec. */
module Bytes {

  datatype Option<+T> = None | Some(value: T)

  type Byte = b: int | 0 <= b < 256

  const U32_LIMIT: nat := 0x1_0000_0000
  const U64_LIMIT: nat := 0x1_0000_0000_0000_0000

  /** The `n` low-order bytes of `v`, least significant first. */
  function LittleEndian(v: nat, n: nat): (s: seq<Byte>)
    ensures |s| == n
  {
    if n == 0 then [] else [v % 256] + LittleEndian(v / 256, n - 1)
  }

  function FromLittleEndian(s: seq<Byte>): nat {
    if s == [] then 0 else s[0] + 256 * FromLittleEndian(s[1..])
  }

  function Pow256(n: nat): nat {
    if n == 0 then 1 else 256 * Pow256(n - 1)
  }

  /** Reading back a fixed-width field returns what was stored, when it fits the width. */
  lemma {:induction false} LittleEndianRoundTrip(v: nat, n: nat)
    requires v < Pow256(n)
    ensures FromLittleEndian(LittleEndian(v, n)) == v
  {
    if n != 0 {
      LittleEndianRoundTrip(v / 256, n - 1);
      assert LittleEndian(v, n)[1..] == LittleEndian(v / 256, n - 1);
    }
  }

  lemma Divided(v: nat, m: nat)
    requires m > 0
    ensures v == v / m * m + v % m && v % m < m
  {}

  lemma {:induction false} Smaller(m: nat, p: nat, q: nat, r: nat)
    requires p < q && r < m
    ensures p * m + r < q * m
  {
    if p + 1 < q {
      Smaller(m, p, q - 1, r);
    }
  }

  lemma SameQuotient(m: nat, p: nat, q: nat, r: nat, s: nat)
    requires p * m + r == q * m + s && r < m && s < m
    ensures p == q
  {
    if p < q {
      Smaller(m, p, q, r);
    } else if q < p {
      Smaller(m, q, p, s);
    }
  }

  lemma Regroup(q: nat, a: nat, b: nat, x: nat, y: nat)
    requires x < b && y < a
    ensures (q * b + x) * a + y == q * (a * b) + (x * a + y) && x * a + y < a * b
  {
    if x + 1 < b {
      Smaller(a, x, b - 1, 0);
    }
    assert (b - 1) * a + a == a * b;
  }

  lemma NestedQuotient(v: nat, a: nat, b: nat, x: nat, r: nat, y: nat, t: nat, q: nat, u: nat)
    requires v == x * a + r && r < a && x == y * b + t && t < b && v == q * (a * b) + u && u < a * b
    ensures y == q
  {
    Regroup(y, a, b, t, r);
    SameQuotient(a * b, y, q, t * a + r, u);
  }

  lemma DivTwice(v: nat, a: nat, b: nat)
    requires a > 0 && b > 0
    ensures a * b > 0 && v / a / b == v / (a * b)
  {
    Divided(v, a);
    Divided(v / a, b);
    Divided(v, a * b);
    NestedQuotient(v, a, b, v / a, v % a, v / a / b, v / a % b, v / (a * b), v % (a * b));
  }

  lemma Rest(b: Byte, q: nat)
    ensures (b + 256 * q) / 256 == q
  {}

  /** The byte order: byte `i` holds the bits of weight 256 to the `i`, whatever is cut off. */
  lemma {:induction false} LittleEndianByte(v: nat, n: nat, i: nat)
    requires i < n
    ensures Pow256(i) > 0 && LittleEndian(v, n)[i] == v / Pow256(i) % 256
  {
    if i > 0 {
      LittleEndianByte(v / 256, n - 1, i - 1);
      DivTwice(v, 256, Pow256(i - 1));
    }
  }

  lemma {:induction false} FromLittleEndianByte(s: seq<Byte>, i: nat)
    requires i < |s|
    ensures Pow256(i) > 0 && FromLittleEndian(s) / Pow256(i) % 256 == s[i]
  {
    if i > 0 {
      FromLittleEndianByte(s[1..], i - 1);
      Rest(s[0], FromLittleEndian(s[1..]));
      DivTwice(FromLittleEndian(s), 256, Pow256(i - 1));
    }
  }

  lemma FixedWidths()
    ensures Pow256(4) == U32_LIMIT
    ensures Pow256(8) == U64_LIMIT
  {}

  lemma DropDrop<T>(s: seq<T>, m: nat, n: nat)
    requires m + n <= |s|
    ensures s[m..][n..] == s[m + n..]
  {}

  lemma DropTo<T>(s: seq<T>, m: nat, n: nat, k: nat)
    requires k == m + n <= |s|
    ensures s[m..][n..] == s[k..]
  {}

  lemma DropSlice<T>(s: seq<T>, m: nat, a: nat, b: nat)
    requires a <= b && m + b <= |s|
    ensures s[m..][a..b] == s[m + a..m + b]
  {}

  lemma ConcatAssoc<T>(a: seq<T>, b: seq<T>, c: seq<T>)
    ensures a + b + c == a + (b + c)
  {}
}
