/** Frames of RFC 6455, section 5.2: printing them and reading them back. */
module WebSocketFrames {
  import opened Bytes

  // ---------------------------------------------------------------- big-endian integers

  function BigEndian(v: nat, n: nat): (s: seq<Byte>)
    ensures |s| == n
  {
    if n == 0 then [] else BigEndian(v / 256, n - 1) + [v % 256]
  }

  function FromBigEndian(s: seq<Byte>): nat {
    if s == [] then 0 else FromBigEndian(s[..|s| - 1]) * 256 + s[|s| - 1]
  }

  lemma {:induction false} BigEndianRoundTrip(v: nat, n: nat)
    requires v < Pow256(n)
    ensures FromBigEndian(BigEndian(v, n)) == v
  {
    if n != 0 {
      BigEndianRoundTrip(v / 256, n - 1);
      assert BigEndian(v, n)[..n - 1] == BigEndian(v / 256, n - 1);
    }
  }

  lemma {:induction false} FromBigEndianBack(s: seq<Byte>)
    ensures FromBigEndian(s) < Pow256(|s|) && BigEndian(FromBigEndian(s), |s|) == s
  {
    if s != [] {
      FromBigEndianBack(s[..|s| - 1]);
      assert s == s[..|s| - 1] + [s[|s| - 1]];
    }
  }

  /** Network byte order: counted from the end, octet `i` holds the bits of weight 256 to the `i`. */
  lemma {:induction false} BigEndianOctet(v: nat, n: nat, i: nat)
    requires i < n
    ensures Pow256(i) > 0 && BigEndian(v, n)[n - 1 - i] == v / Pow256(i) % 256
  {
    if i > 0 {
      BigEndianOctet(v / 256, n - 1, i - 1);
      DivTwice(v, 256, Pow256(i - 1));
    }
  }

  lemma Widths()
    ensures Pow256(2) == 0x1_0000 && Pow256(8) == U64_LIMIT
  {
    FixedWidths();
  }

  // ---------------------------------------------------------------- masking

  function Pow2(n: nat): nat {
    if n == 0 then 1 else 2 * Pow2(n - 1)
  }

  /** Exclusive or of the `n` low-order bits. */
  function XorBits(a: nat, b: nat, n: nat): (r: nat)
    ensures r < Pow2(n)
  {
    if n == 0 then 0 else (if a % 2 == b % 2 then 0 else 1) + 2 * XorBits(a / 2, b / 2, n - 1)
  }

  lemma {:induction false} XorBitsTwice(a: nat, b: nat, n: nat)
    requires a < Pow2(n)
    ensures XorBits(XorBits(a, b, n), b, n) == a
  {
    if n != 0 {
      var q := XorBits(a / 2, b / 2, n - 1);
      Halves(if a % 2 == b % 2 then 0 else 1, q);
      Halves(a % 2, a / 2);
      XorBitsTwice(a / 2, b / 2, n - 1);
      assert XorBits(XorBits(a, b, n) / 2, b / 2, n - 1) == a / 2;
    }
  }

  lemma Halves(bit: nat, q: nat)
    requires bit < 2
    ensures (bit + 2 * q) / 2 == q && (bit + 2 * q) % 2 == bit
  {}

  function Xor(a: Byte, b: Byte): Byte {
    assert Pow2(8) == 256;
    XorBits(a, b, 8)
  }

  /** Bit `i` of a number. */
  function Bit(v: nat, i: nat): nat {
    if i == 0 then v % 2 else Bit(v / 2, i - 1)
  }

  lemma {:induction false} XorBitsAt(a: nat, b: nat, n: nat, i: nat)
    requires i < n
    ensures Bit(XorBits(a, b, n), i) == (Bit(a, i) + Bit(b, i)) % 2
  {
    var bit, q := if a % 2 == b % 2 then 0 else 1, XorBits(a / 2, b / 2, n - 1);
    Halves(bit, q);
    if i > 0 {
      XorBitsAt(a / 2, b / 2, n - 1, i - 1);
    }
  }

  /** Exclusive or is the sum without carry of every bit. */
  lemma XorAt(a: Byte, b: Byte, i: nat)
    requires i < 8
    ensures Bit(Xor(a, b), i) == (Bit(a, i) + Bit(b, i)) % 2
  {
    XorBitsAt(a, b, 8, i);
  }

  lemma XorTwice(a: Byte, b: Byte)
    ensures Xor(Xor(a, b), b) == a
  {
    assert Pow2(8) == 256;
    XorBitsTwice(a, b, 8);
  }

  /** Section 5.3: octet i is combined with octet i modulo 4 of the key; no key, no change. */
  function Mask(p: seq<Byte>, key: seq<Byte>): (r: seq<Byte>)
    ensures |r| == |p|
  {
    if |key| != 4 then p else seq(|p|, i requires 0 <= i < |p| => Xor(p[i], key[i % 4]))
  }

  /** Section 5.3 bit by bit: each bit is added, without carry, to that of the key octet at the index modulo 4. */
  lemma MaskedBit(p: seq<Byte>, key: seq<Byte>, i: nat, k: nat)
    requires |key| == 4 && i < |p| && k < 8
    ensures Bit(Mask(p, key)[i], k) == (Bit(p[i], k) + Bit(key[i % 4], k)) % 2
  {
    XorAt(p[i], key[i % 4], k);
  }

  lemma MaskTwice(p: seq<Byte>, key: seq<Byte>)
    ensures Mask(Mask(p, key), key) == p
  {
    if |key| == 4 {
      forall i | 0 <= i < |p|
        ensures Mask(Mask(p, key), key)[i] == p[i]
      {
        XorTwice(p[i], key[i % 4]);
      }
    }
  }

  // ---------------------------------------------------------------- frames

  /** The three length forms; a sender may use a longer one than it needs. */
  datatype Form = L7 | L16 | L64

  datatype Frame = Frame(fin: bool, rsv: nat, opcode: nat, key: seq<Byte>, form: Form, payload: seq<Byte>)

  const INT64_LIMIT: nat := 0x8000_0000_0000_0000

  /** How many octets the extended length takes. */
  function Extension(form: Form): nat {
    match form
    case L7 => 0
    case L16 => 2
    case L64 => 8
  }

  function MaxPayload(form: Form): nat {
    match form
    case L7 => 126
    case L16 => 0x1_0000
    case L64 => INT64_LIMIT
  }

  ghost predicate Valid(f: Frame) {
    f.rsv < 8 && f.opcode < 16 && (f.key == [] || |f.key| == 4) && |f.payload| < MaxPayload(f.form)
  }

  function Length7(f: Frame): nat {
    match f.form
    case L7 => |f.payload|
    case L16 => 126
    case L64 => 127
  }

  function Header(f: Frame): (h: seq<Byte>)
    requires Valid(f)
    ensures |h| == 2
  {
    [(if f.fin then 128 else 0) + f.rsv * 16 + f.opcode, (if f.key == [] then 0 else 128) + Length7(f)]
  }

  function Encode(f: Frame): seq<Byte>
    requires Valid(f)
  {
    Header(f) + BigEndian(|f.payload|, Extension(f.form)) + f.key + Mask(f.payload, f.key)
  }

  datatype Parsed = Parsed(frame: Frame, size: nat) | Truncated | Unallocatable(size: nat)

  function FormOf(length7: nat): Form {
    if length7 == 126 then L16 else if length7 == 127 then L64 else L7
  }

  function KeySize(second: Byte): nat {
    if second >= 128 then 4 else 0
  }

  /** Where the payload starts. */
  function HeadSize(second: Byte): nat {
    2 + Extension(FormOf(second % 128)) + KeySize(second)
  }

  /** The announced payload length. */
  function Announced(s: seq<Byte>): nat
    requires |s| >= 2 && |s| >= HeadSize(s[1])
  {
    var e := Extension(FormOf(s[1] % 128));
    if e == 0 then s[1] % 128 else FromBigEndian(s[2..2 + e])
  }

  function FrameAt(s: seq<Byte>, len: nat): Frame
    requires |s| >= 2 && |s| >= HeadSize(s[1]) + len
  {
    var h := HeadSize(s[1]);
    var key := s[h - KeySize(s[1])..h];
    Frame(s[0] >= 128, s[0] / 16 % 8, s[0] % 16, key, FormOf(s[1] % 128), Mask(s[h..h + len], key))
  }

  /**
   * One frame at the front of `s`. A length of 2^63 or more is negative once converted to a signed
   * number, and allocating the payload panics.
   */
  function ParseFrame(s: seq<Byte>): Parsed {
    if |s| < 2 then Truncated
    else if |s| < HeadSize(s[1]) then Truncated
    else if Announced(s) >= INT64_LIMIT then Unallocatable(HeadSize(s[1]))
    else if |s| < HeadSize(s[1]) + Announced(s) then Truncated
    else Parsed(FrameAt(s, Announced(s)), HeadSize(s[1]) + Announced(s))
  }

  lemma HeaderRead(f: Frame)
    requires Valid(f)
    ensures var h := Header(f);
            && (h[0] >= 128 <==> f.fin) && h[0] / 16 % 8 == f.rsv && h[0] % 16 == f.opcode
            && FormOf(h[1] % 128) == f.form && KeySize(h[1]) == |f.key|
            && (f.form == L7 ==> h[1] % 128 == |f.payload|)
  {}

  lemma PiecesAt(a: seq<Byte>, b: seq<Byte>, c: seq<Byte>, d: seq<Byte>, rest: seq<Byte>)
    ensures var s := a + b + c + d + rest;
            && s[..|a|] == a && s[|a|..|a| + |b|] == b && s[|a| + |b|..|a| + |b| + |c|] == c
            && s[|a| + |b| + |c|..|a| + |b| + |c| + |d|] == d && s[|a| + |b| + |c| + |d|..] == rest
  {}

  /** Reading a printed frame followed by anything returns the frame and how much it took. */
  lemma ParseEncoded(f: Frame, rest: seq<Byte>)
    requires Valid(f)
    ensures ParseFrame(Encode(f) + rest) == Parsed(f, |Encode(f)|)
  {
    hide Header, Mask, FormOf, KeySize, BigEndian, FromBigEndian;
    var len := |f.payload|;
    var a, b, d := Header(f), BigEndian(len, Extension(f.form)), Mask(f.payload, f.key);
    var s := Encode(f) + rest;
    HeaderRead(f);
    PiecesAt(a, b, f.key, d, rest);
    assert s[0] == s[..2][0] && s[1] == s[..2][1];
    assert HeadSize(s[1]) == 2 + |b| + |f.key|;
    Widths();
    if f.form != L7 {
      BigEndianRoundTrip(len, Extension(f.form));
    }
    assert Announced(s) == len;
    MaskTwice(f.payload, f.key);
  }

  lemma HeaderBack(a: Byte, b: Byte, f: Frame)
    requires Valid(f)
    requires f.fin == (a >= 128) && f.rsv == a / 16 % 8 && f.opcode == a % 16
    requires |f.key| == KeySize(b) && f.form == FormOf(b % 128) && (f.form == L7 ==> |f.payload| == b % 128)
    ensures Header(f) == [a, b]
  {}

  lemma AnnouncedFits(s: seq<Byte>)
    requires |s| >= 2 && |s| >= HeadSize(s[1])
    ensures var form := FormOf(s[1] % 128);
            && (form != L64 ==> Announced(s) < MaxPayload(form))
            && BigEndian(Announced(s), Extension(form)) == s[2..2 + Extension(form)]
            && (form == L7 ==> Announced(s) == s[1] % 128)
  {
    var e := Extension(FormOf(s[1] % 128));
    FromBigEndianBack(s[2..2 + e]);
    Widths();
  }

  lemma FourPieces(s: seq<Byte>, i: nat, j: nat, n: nat)
    requires 2 <= i <= j <= n <= |s|
    ensures s[..n] == [s[0], s[1]] + s[2..i] + s[i..j] + s[j..n]
  {}

  /** Conversely, whatever is read is a valid frame, and the octets taken are its encoding. */
  lemma EncodeParsed(s: seq<Byte>)
    requires ParseFrame(s).Parsed?
    ensures var Parsed(f, n) := ParseFrame(s);
            Valid(f) && 2 <= n <= |s| && Encode(f) == s[..n]
  {
    hide Header, Mask, BigEndian, FromBigEndian, Announced;
    var Parsed(f, n) := ParseFrame(s);
    var h := HeadSize(s[1]);
    AnnouncedFits(s);
    HeaderBack(s[0], s[1], f);
    MaskTwice(s[h..n], f.key);
    FourPieces(s, h - |f.key|, h, n);
  }

  lemma HeadKept(s: seq<Byte>, k: nat)
    requires 2 <= k <= |s| && HeadSize(s[1]) <= k
    ensures Announced(s[..k]) == Announced(s)
  {
    var e := Extension(FormOf(s[1] % 128));
    assert s[..k][2..2 + e] == s[2..2 + e];
  }

  lemma HeadFits(f: Frame)
    requires Valid(f)
    ensures var s := Encode(f);
            |s| >= 2 && HeadSize(s[1]) <= |s| && Announced(s) < INT64_LIMIT
  {
    hide Encode, Announced, HeadSize;
    ParseEncoded(f, []);
    assert Encode(f) + [] == Encode(f);
  }

  /** A frame that breaks off anywhere is not a frame. */
  lemma PrefixTruncated(f: Frame, k: nat)
    requires Valid(f) && k < |Encode(f)|
    ensures ParseFrame(Encode(f)[..k]) == Truncated
  {
    hide Encode, Announced, HeadSize, FrameAt;
    var s := Encode(f);
    HeadFits(f);
    if 2 <= k && HeadSize(s[1]) <= k {
      HeadKept(s, k);
    }
    ParseEncoded(f, []);
    assert s + [] == s;
    ParseStable(s, k);
  }

  /** What follows a frame does not change it. */
  lemma ParseStable(s: seq<Byte>, k: nat)
    requires k <= |s|
    ensures ParseFrame(s[..k]).Parsed? ==> ParseFrame(s) == ParseFrame(s[..k]) && ParseFrame(s).size <= k
  {
    hide ParseFrame, Encode;
    if ParseFrame(s[..k]).Parsed? {
      var Parsed(g, n) := ParseFrame(s[..k]);
      EncodeParsed(s[..k]);
      ParseEncoded(g, s[n..]);
      assert Encode(g) + s[n..] == s;
    }
  }

  /** An announced length of 2^63 or more, most significant octet first, cannot be allocated. */
  lemma OverlongUnallocatable(first: Byte, ext: seq<Byte>, rest: seq<Byte>)
    requires |ext| == 8 && ext[0] >= 128
    ensures ParseFrame([first, 127] + ext + rest) == Unallocatable(10)
  {
    var s := [first, 127] + ext + rest;
    assert s[2..10] == ext;
    TopOctet(ext);
    FixedWidths();
    assert Pow256(8) == 256 * Pow256(7);
  }

  lemma {:induction false} TopOctet(s: seq<Byte>)
    requires s != []
    ensures FromBigEndian(s) >= s[0] * Pow256(|s| - 1)
  {
    if |s| > 1 {
      TopOctet(s[..|s| - 1]);
      Scaled(s[0], Pow256(|s| - 2), FromBigEndian(s[..|s| - 1]));
    } else {
      assert s[..0] == [];
    }
  }

  lemma Scaled(b: nat, w: nat, v: nat)
    requires v >= b * w
    ensures v * 256 >= b * (256 * w)
  {
    assert b * (256 * w) == b * w * 256;
  }
}
