/** 32-bit words in big-endian order, and the exclusive or of bytes
    (clib/streamer.cpp:22-34). */
module Words {
  import opened Encoding

  const TWO_32: nat := 0x1_0000_0000

  function Pow256(n: nat): (p: nat)
    ensures p >= 1
  {
    if n == 0 then 1 else 256 * Pow256(n - 1)
  }

  /** The n low bytes of a number, most significant first. */
  function BigEndian(v: nat, n: nat): (r: Bytes)
    ensures |r| == n
    decreases n
  {
    if n == 0 then [] else BigEndian(v / 256, n - 1) + [v % 256]
  }

  function Value(buf: Bytes): (v: nat) {
    if buf == [] then 0 else Value(buf[..|buf| - 1]) * 256 + buf[|buf| - 1]
  }

  lemma {:induction false} ValueBound(buf: Bytes)
    ensures Value(buf) < Pow256(|buf|)
  {
    if buf != [] {
      ValueBound(buf[..|buf| - 1]);
    }
  }

  lemma {:induction false} BigEndianRoundTrip(v: nat, n: nat)
    requires v < Pow256(n)
    ensures Value(BigEndian(v, n)) == v
    decreases n
  {
    if n > 0 {
      assert v / 256 < Pow256(n - 1);
      BigEndianRoundTrip(v / 256, n - 1);
      assert BigEndian(v, n)[..n - 1] == BigEndian(v / 256, n - 1);
    }
  }

  lemma {:induction false} ValueRoundTrip(buf: Bytes)
    ensures BigEndian(Value(buf), |buf|) == buf
  {
    if buf != [] {
      var front := buf[..|buf| - 1];
      ValueRoundTrip(front);
      assert Value(buf) / 256 == Value(front) && Value(buf) % 256 == buf[|buf| - 1];
      assert buf == front + [buf[|buf| - 1]];
    }
  }

  lemma Pow256Four()
    ensures Pow256(4) == TWO_32
  {
    assert Pow256(2) == 0x1_0000;
  }

  /** write_u32_be, which shifts and masks: only the low 32 bits are kept. */
  method WriteU32(buf: array<byte>, v: nat)
    requires buf.Length >= 4
    modifies buf
    ensures buf[..4] == BigEndian(v, 4)
    ensures buf[4..] == old(buf[4..])
  {
    buf[0] := v / 0x100_0000 % 256;
    buf[1] := v / 0x1_0000 % 256;
    buf[2] := v / 0x100 % 256;
    buf[3] := v % 256;
    FourBytes(v);
  }

  lemma FourBytes(v: nat)
    ensures BigEndian(v, 4) == [v / 0x100_0000 % 256, v / 0x1_0000 % 256, v / 0x100 % 256, v % 256]
  {
    var a := v / 256;
    var b := a / 256;
    var c := b / 256;
    assert BigEndian(c, 1) == [c % 256] by { assert BigEndian(c / 256, 0) == []; }
    assert BigEndian(b, 2) == [c % 256, b % 256];
    assert BigEndian(a, 3) == [c % 256, b % 256, a % 256];
    assert b == v / 0x1_0000 && c == v / 0x100_0000;
  }

  lemma {:induction false} BigEndianShift(v: nat, k: nat, n: nat)
    ensures BigEndian(v + k * Pow256(n), n) == BigEndian(v, n)
    decreases n
  {
    if n > 0 {
      var t := k * Pow256(n - 1);
      assert k * Pow256(n) == 256 * t;
      assert (v + 256 * t) / 256 == v / 256 + t && (v + 256 * t) % 256 == v % 256;
      BigEndianShift(v / 256, k, n - 1);
    }
  }

  /** Only the low 32 bits of a length reach the header. */
  lemma HeaderLow(v: nat)
    ensures BigEndian(v, 4) == BigEndian(v % TWO_32, 4)
  {
    Pow256Four();
    BigEndianShift(v % TWO_32, v / TWO_32, 4);
  }

  /** read_u32_be */
  function ReadU32(buf: Bytes): (v: nat)
    requires |buf| >= 4
  {
    Value(buf[..4])
  }

  lemma ReadU32Is(buf: Bytes)
    requires |buf| >= 4
    ensures var a: int, b: int, c: int, d: int := buf[0], buf[1], buf[2], buf[3];
            ReadU32(buf) == a * 0x100_0000 + b * 0x1_0000 + c * 0x100 + d
  {
    var a: int, b: int, c: int, d: int := buf[0], buf[1], buf[2], buf[3];
    var four := buf[..4];
    assert four[..3][..2] == four[..2] && four[..2][..1] == four[..1];
    assert Value(four[..1]) == a by { assert four[..1][..0] == []; }
    assert Value(four[..2]) == a * 256 + b;
    assert Value(four[..3]) == Value(four[..2]) * 256 + c;
    assert Value(four) == Value(four[..3]) * 256 + d;
  }

  /** Counting up in n bytes is counting up modulo 256^n. */
  lemma NextWord(low: nat, high: nat, n: nat)
    requires low < Pow256(n)
    ensures var v := low + high * Pow256(n);
            BigEndian(Value(BigEndian(v, n)) + 1, n) == BigEndian(v + 1, n)
  {
    BigEndianShift(low, high, n);
    BigEndianRoundTrip(low, n);
    BigEndianShift(low + 1, high, n);
  }

  lemma HeaderSpelled(v: nat)
    ensures var n := v % 0x1_0000_0000;
            BigEndian(v, 4) == [n / 0x100_0000, n / 0x1_0000 % 0x100, n / 0x100 % 0x100, n % 0x100]
  {
    HeaderLow(v);
    FourBytes(v % TWO_32);
  }

  lemma BigEndianDistinct(v: nat, w: nat)
    requires v < TWO_32 && w < TWO_32 && v != w
    ensures BigEndian(v, 4) != BigEndian(w, 4)
  {
    Pow256Four();
    BigEndianRoundTrip(v, 4);
    BigEndianRoundTrip(w, 4);
  }

  /** The header inverts for every 32-bit length. */
  lemma HeaderRoundTrip(v: nat, tail: Bytes)
    requires v < TWO_32
    ensures ReadU32(BigEndian(v, 4) + tail) == v
  {
    Pow256Four();
    BigEndianRoundTrip(v, 4);
    assert (BigEndian(v, 4) + tail)[..4] == BigEndian(v, 4);
  }

  // ---------- exclusive or ----------

  function Pow2(n: nat): (p: nat)
    ensures p >= 1
  {
    if n == 0 then 1 else 2 * Pow2(n - 1)
  }

  function XorBits(a: nat, b: nat, n: nat): nat {
    if n == 0 then 0 else (a % 2 + b % 2) % 2 + 2 * XorBits(a / 2, b / 2, n - 1)
  }

  lemma {:induction false} XorBitsBound(a: nat, b: nat, n: nat)
    ensures XorBits(a, b, n) < Pow2(n)
  {
    if n > 0 {
      XorBitsBound(a / 2, b / 2, n - 1);
    }
  }

  lemma {:induction false} XorBitsTwice(a: nat, b: nat, n: nat)
    requires a < Pow2(n)
    ensures XorBits(XorBits(a, b, n), b, n) == a
  {
    if n > 0 {
      XorBitsTwice(a / 2, b / 2, n - 1);
      var low, high := (a % 2 + b % 2) % 2, XorBits(a / 2, b / 2, n - 1);
      LowBit(low, high);
      LowBit((low + b % 2) % 2, a / 2);
      assert (low + b % 2) % 2 == a % 2;
    }
  }

  lemma LowBit(low: nat, high: nat)
    requires low < 2
    ensures (low + 2 * high) % 2 == low && (low + 2 * high) / 2 == high
  {
  }

  lemma Pow2Eight()
    ensures Pow2(8) == 256
  {
    assert Pow2(4) == 16;
  }

  function Xor(a: byte, b: byte): byte {
    XorBitsBound(a, b, 8);
    Pow2Eight();
    XorBits(a, b, 8)
  }

  /** The same key byte taken twice cancels. */
  lemma XorTwice(a: byte, b: byte)
    ensures Xor(Xor(a, b), b) == a
  {
    Pow2Eight();
    XorBitsTwice(a, b, 8);
  }

  lemma XorZero(a: byte)
    ensures Xor(0, a) == a == Xor(a, 0)
  {
    Pow2Eight();
    XorBitsZero(a, 8);
  }

  lemma {:induction false} XorBitsZero(a: nat, n: nat)
    requires a < Pow2(n)
    ensures XorBits(0, a, n) == a == XorBits(a, 0, n)
  {
    if n > 0 {
      XorBitsZero(a / 2, n - 1);
    }
  }

  function XorBytes(a: Bytes, b: Bytes): (r: Bytes)
    requires |a| <= |b|
    ensures |r| == |a|
  {
    seq(|a|, i requires 0 <= i < |a| => Xor(a[i], b[i]))
  }
}
