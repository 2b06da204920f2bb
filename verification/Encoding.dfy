/** Bytes and the two text encodings that carry them over a shell session: hexadecimal digests
    and base64 (section 4 of RFC 4648). */
module Encoding {
  import opened Wrappers

  type byte = x: int | 0 <= x < 256

  type Bytes = seq<byte>

  // ---------- hexadecimal ----------

  function HexDigit(n: nat): char
    requires n < 16
  {
    if n < 10 then (n + 48) as char else (n + 87) as char
  }

  /** hex.EncodeToString */
  function Hex(data: Bytes): string {
    if data == [] then ""
    else [HexDigit(data[0] / 16), HexDigit(data[0] % 16)] + Hex(data[1..])
  }

  predicate IsHexDigit(c: char) {
    '0' <= c <= '9' || 'a' <= c <= 'f'
  }

  lemma {:induction false} HexShape(data: Bytes)
    ensures |Hex(data)| == 2 * |data|
    ensures forall i | 0 <= i < |Hex(data)| :: IsHexDigit(Hex(data)[i])
  {
    if data != [] {
      HexShape(data[1..]);
    }
  }

  /** Each byte is two lower-case digits, the high one first. */
  lemma {:induction false} HexAt(data: Bytes, i: nat)
    requires i < |data|
    ensures |Hex(data)| == 2 * |data|
    ensures Hex(data)[2 * i] == "0123456789abcdef"[data[i] / 16]
    ensures Hex(data)[2 * i + 1] == "0123456789abcdef"[data[i] % 16]
  {
    HexShape(data);
    if i > 0 {
      HexAt(data[1..], i - 1);
    }
  }

  lemma HexDigitInjective(m: nat, n: nat)
    requires m < 16 && n < 16 && HexDigit(m) == HexDigit(n)
    ensures m == n
  {
  }

  /** Equal digest texts come from equal digests. */
  lemma {:induction false} HexInjective(a: Bytes, b: Bytes)
    requires Hex(a) == Hex(b)
    ensures a == b
  {
    HexShape(a);
    HexShape(b);
    if a != [] {
      var s := Hex(a);
      assert s[0] == HexDigit(a[0] / 16) == HexDigit(b[0] / 16);
      assert s[1] == HexDigit(a[0] % 16) == HexDigit(b[0] % 16);
      HexDigitInjective(a[0] / 16, b[0] / 16);
      HexDigitInjective(a[0] % 16, b[0] % 16);
      assert Hex(a[1..]) == s[2..] == Hex(b[1..]);
      HexInjective(a[1..], b[1..]);
      assert a == [a[0]] + a[1..] && b == [b[0]] + b[1..];
    }
  }

  // ---------- base64 ----------

  function Base64Char(n: nat): char
    requires n < 64
  {
    if n < 26 then (n + 65) as char
    else if n < 52 then (n + 71) as char
    else if n < 62 then (n - 4) as char
    else if n == 62 then '+' else '/'
  }

  function Base64Value(c: char): Option<nat> {
    if 'A' <= c <= 'Z' then Some(c as int - 65)
    else if 'a' <= c <= 'z' then Some(c as int - 71)
    else if '0' <= c <= '9' then Some(c as int + 4)
    else if c == '+' then Some(62)
    else if c == '/' then Some(63)
    else None
  }

  /** Three bytes as one 24-bit number. */
  function Word(a: nat, b: nat, c: nat): (n: nat)
    requires a < 256 && b < 256 && c < 256
    ensures n < 0x100_0000
  {
    a * 0x1_0000 + b * 0x100 + c
  }

  function Sextet(n: nat, position: nat): char
    requires n < 0x100_0000 && position < 4
  {
    match position
    case 0 => Base64Char(n / 0x4_0000)
    case 1 => Base64Char(n / 0x1000 % 64)
    case 2 => Base64Char(n / 64 % 64)
    case 3 => Base64Char(n % 64)
  }

  /** One to three bytes, padded to four characters. */
  function EncodeGroup(data: Bytes): string {
    if |data| == 0 then ""
    else if |data| == 1 then
      var n := Word(data[0], 0, 0);
      [Sextet(n, 0), Sextet(n, 1), '=', '=']
    else if |data| == 2 then
      var n := Word(data[0], data[1], 0);
      [Sextet(n, 0), Sextet(n, 1), Sextet(n, 2), '=']
    else
      var n := Word(data[0], data[1], data[2]);
      [Sextet(n, 0), Sextet(n, 1), Sextet(n, 2), Sextet(n, 3)]
  }

  /** Encoding in groups of three bytes. */
  function EncodeGroups(group: Bytes -> string, data: Bytes): string {
    if |data| <= 3 then group(data) else group(data[..3]) + EncodeGroups(group, data[3..])
  }

  /** base64.StdEncoding.EncodeToString */
  function Encode(data: Bytes): string {
    EncodeGroups(EncodeGroup, data)
  }

  function Octets(n: nat, count: nat): Bytes
    requires n < 0x100_0000 && count <= 3
  {
    [n / 0x1_0000, n / 0x100 % 256, n % 256][..count]
  }

  /** Four characters; the last group may end in one or two padding characters. */
  function DecodeGroup(group: string, last: bool): Option<Bytes> {
    if |group| != 4 then None
    else
      var a :- Base64Value(group[0]);
      var b :- Base64Value(group[1]);
      if last && group[2] == '=' && group[3] == '=' then
        Some(Octets(a * 0x4_0000 + b * 0x1000, 1))
      else
        var c :- Base64Value(group[2]);
        if last && group[3] == '=' then Some(Octets(a * 0x4_0000 + b * 0x1000 + c * 64, 2))
        else
          var d :- Base64Value(group[3]);
          Some(Octets(a * 0x4_0000 + b * 0x1000 + c * 64 + d, 3))
  }

  /** Decoding in groups of four characters. */
  function DecodeGroups(group: (string, bool) -> Option<Bytes>, text: string): Option<Bytes> {
    if text == "" then Some([])
    else if |text| <= 4 then group(text, true)
    else
      var first :- group(text[..4], false);
      var others :- DecodeGroups(group, text[4..]);
      Some(first + others)
  }

  /** base64 -d */
  function Decode(text: string): Option<Bytes> {
    DecodeGroups(DecodeGroup, text)
  }

  lemma Base64CharInverts(n: nat)
    requires n < 64
    ensures Base64Value(Base64Char(n)) == Some(n)
    ensures Base64Char(n) != '=' && Base64Char(n) != '\'' && Base64Char(n) != '\n'
  {
  }

  lemma SextetsSum(n: nat)
    requires n < 0x100_0000
    ensures n == n / 0x4_0000 * 0x4_0000 + n / 0x1000 % 64 * 0x1000 + n / 64 % 64 * 64 + n % 64
  {
    var a := n / 64;
    var b := a / 64;
    assert b == n / 0x1000 && b / 64 == n / 0x4_0000;
    assert n == a * 64 + n % 64 && a == b * 64 + a % 64 && b == b / 64 * 64 + b % 64;
  }

  lemma SextetsInvert(n: nat)
    requires n < 0x100_0000
    ensures Base64Value(Sextet(n, 0)) == Some(n / 0x4_0000)
    ensures Base64Value(Sextet(n, 1)) == Some(n / 0x1000 % 64)
    ensures Base64Value(Sextet(n, 2)) == Some(n / 64 % 64)
    ensures Base64Value(Sextet(n, 3)) == Some(n % 64)
    ensures n == n / 0x4_0000 * 0x4_0000 + n / 0x1000 % 64 * 0x1000 + n / 64 % 64 * 64 + n % 64
    ensures forall i: nat | i < 4 :: Sextet(n, i) != '=' && Sextet(n, i) != '\'' && Sextet(n, i) != '\n'
  {
    SextetsSum(n);
    Base64CharInverts(n / 0x4_0000);
    Base64CharInverts(n / 0x1000 % 64);
    Base64CharInverts(n / 64 % 64);
    Base64CharInverts(n % 64);
  }

  lemma OctetsOf(a: byte, b: byte, c: byte)
    ensures Octets(Word(a, b, c), 3) == [a, b, c]
  {
    var high: int := a * 0x100 + b;
    WordParts(a, b, c, high);
  }

  lemma WordParts(a: int, b: int, c: int, high: int)
    requires 0 <= a < 256 && 0 <= b < 256 && 0 <= c < 256 && high == a * 0x100 + b
    ensures Word(a, b, c) % 256 == c && Word(a, b, c) / 0x100 % 256 == b && Word(a, b, c) / 0x1_0000 == a
  {
    var n := Word(a, b, c);
    assert n == high * 0x100 + c;
    assert n / 0x100 == high && n % 0x100 == c;
    assert high % 0x100 == b;
  }

  /** Padding leaves out the low bits, which are zero. */
  lemma ShortWords(a: byte, b: byte)
    ensures Word(a, 0, 0) / 64 % 64 == 0 && Word(a, 0, 0) % 64 == 0
    ensures Word(a, b, 0) % 64 == 0
  {
  }

  lemma GroupOf(n: nat, last: bool)
    requires n < 0x100_0000
    ensures DecodeGroup([Sextet(n, 0), Sextet(n, 1), Sextet(n, 2), Sextet(n, 3)], last) == Some(Octets(n, 3))
  {
    SextetsInvert(n);
  }

  lemma PaddedGroupsOf(n: nat)
    requires n < 0x100_0000 && n % 64 == 0
    ensures DecodeGroup([Sextet(n, 0), Sextet(n, 1), Sextet(n, 2), '='], true) == Some(Octets(n, 2))
    ensures n / 64 % 64 == 0 ==>
              DecodeGroup([Sextet(n, 0), Sextet(n, 1), '=', '='], true) == Some(Octets(n, 1))
  {
    SextetsInvert(n);
  }

  lemma OneInverts(a: byte)
    ensures DecodeGroup(EncodeGroup([a]), true) == Some([a])
  {
    ShortWords(a, 0);
    PaddedGroupsOf(Word(a, 0, 0));
    OctetsOf(a, 0, 0);
    FirstOctets(Word(a, 0, 0), a, 0, 0);
  }

  lemma TwoInvert(a: byte, b: byte)
    ensures DecodeGroup(EncodeGroup([a, b]), true) == Some([a, b])
  {
    ShortWords(a, b);
    PaddedGroupsOf(Word(a, b, 0));
    OctetsOf(a, b, 0);
    FirstOctets(Word(a, b, 0), a, b, 0);
  }

  lemma FirstOctets(n: nat, a: byte, b: byte, c: byte)
    requires n < 0x100_0000 && Octets(n, 3) == [a, b, c]
    ensures Octets(n, 1) == [a] && Octets(n, 2) == [a, b]
  {
    assert Octets(n, 1) == Octets(n, 3)[..1] && Octets(n, 2) == Octets(n, 3)[..2];
  }

  lemma ThreeInvert(a: byte, b: byte, c: byte, last: bool)
    ensures DecodeGroup(EncodeGroup([a, b, c]), last) == Some([a, b, c])
  {
    GroupOf(Word(a, b, c), last);
    OctetsOf(a, b, c);
  }

  lemma GroupInverts(data: Bytes, last: bool)
    requires 1 <= |data| <= 3 && (last || |data| == 3)
    ensures DecodeGroup(EncodeGroup(data), last) == Some(data)
    ensures |EncodeGroup(data)| == 4
  {
    if |data| == 1 {
      OneInverts(data[0]);
      assert data == [data[0]];
    } else if |data| == 2 {
      TwoInvert(data[0], data[1]);
      assert data == [data[0], data[1]];
    } else {
      ThreeInvert(data[0], data[1], data[2], last);
      assert data == [data[0], data[1], data[2]];
    }
  }

  ghost predicate InvertsOn(encode: Bytes -> string, decode: (string, bool) -> Option<Bytes>, d: Bytes, last: bool) {
    |encode(d)| == 4 && decode(encode(d), last) == Some(d)
  }

  /** Grouping inverts whenever the single groups do. */
  lemma {:induction false} GroupsInvert(encode: Bytes -> string, decode: (string, bool) -> Option<Bytes>, data: Bytes)
    requires encode([]) == ""
    requires forall d: Bytes, last: bool | 1 <= |d| <= 3 && (last || |d| == 3) ::
               InvertsOn(encode, decode, d, last)
    ensures DecodeGroups(decode, EncodeGroups(encode, data)) == Some(data)
    ensures data != [] ==> |EncodeGroups(encode, data)| >= 4
    decreases |data|
  {
    if |data| > 3 {
      var group, tail := encode(data[..3]), EncodeGroups(encode, data[3..]);
      assert InvertsOn(encode, decode, data[..3], false);
      GroupsInvert(encode, decode, data[3..]);
      assert (group + tail)[..4] == group && (group + tail)[4..] == tail;
      assert data == data[..3] + data[3..];
    } else if data != [] {
      assert InvertsOn(encode, decode, data, true);
    }
  }

  /** Payloads of every length survive. */
  lemma Base64RoundTrip(data: Bytes)
    ensures Decode(Encode(data)) == Some(data)
  {
    forall d: Bytes, last: bool | 1 <= |d| <= 3 && (last || |d| == 3)
      ensures InvertsOn(EncodeGroup, DecodeGroup, d, last)
    {
      GroupInverts(d, last);
    }
    GroupsInvert(EncodeGroup, DecodeGroup, data);
  }

  lemma GroupQuoteFree(data: Bytes)
    ensures '\'' !in EncodeGroup(data) && '\n' !in EncodeGroup(data)
  {
    if data != [] {
      SextetsInvert(Word(data[0], if |data| > 1 then data[1] else 0, if |data| > 2 then data[2] else 0));
    }
  }

  /** The text can stand between single quotes on one line. */
  lemma {:induction false} Base64QuoteFree(data: Bytes)
    ensures '\'' !in Encode(data) && '\n' !in Encode(data)
    decreases |data|
  {
    if |data| <= 3 {
      GroupQuoteFree(data);
    } else {
      GroupQuoteFree(data[..3]);
      Base64QuoteFree(data[3..]);
    }
  }

  // ---------- base64 in terms of bits ----------

  /** The alphabet: capitals, small letters, digits, plus and slash. */
  lemma Alphabet(n: nat)
    requires n < 64
    ensures n < 26 ==> Base64Char(n) as int == 'A' as int + n
    ensures 26 <= n < 52 ==> Base64Char(n) as int == 'a' as int + n - 26
    ensures 52 <= n < 62 ==> Base64Char(n) as int == '0' as int + n - 52
    ensures n == 62 ==> Base64Char(n) == '+'
    ensures n == 63 ==> Base64Char(n) == '/'
  {
  }

  /** Section 4 of RFC 4648: every three bytes are four groups of six bits, and one or two bytes at
      the end are padded. */
  lemma Base64Bits(data: Bytes)
    ensures data == [] ==> Encode(data) == ""
    ensures |data| == 1 ==> Encode(data) == [Base64Char(data[0] / 4), Base64Char(data[0] % 4 * 16), '=', '=']
    ensures |data| == 2 ==>
              Encode(data) == [Base64Char(data[0] / 4), Base64Char(data[0] % 4 * 16 + data[1] / 16),
                               Base64Char(data[1] % 16 * 4), '=']
    ensures |data| >= 3 ==>
              Encode(data) == [Base64Char(data[0] / 4), Base64Char(data[0] % 4 * 16 + data[1] / 16),
                               Base64Char(data[1] % 16 * 4 + data[2] / 64), Base64Char(data[2] % 64)]
                              + Encode(data[3..])
  {
    if |data| > 0 {
      WordBits(data[0], if |data| > 1 then data[1] else 0, if |data| > 2 then data[2] else 0);
    }
    if |data| >= 3 {
      FirstGroup(data);
    }
  }

  lemma FirstGroup(data: Bytes)
    requires |data| >= 3
    ensures Encode(data) == EncodeGroup(data[..3]) + Encode(data[3..])
  {
    if |data| == 3 {
      assert data[..3] == data && data[3..] == [];
      assert Encode([]) == "";
    }
  }

  lemma WordBits(a: byte, b: byte, c: byte)
    ensures var n := Word(a, b, c);
            && n / 0x4_0000 == a / 4 && n / 0x1000 % 64 == a % 4 * 16 + b / 16
            && n / 64 % 64 == b % 16 * 4 + c / 64 && n % 64 == c % 64
  {
    var n := Word(a, b, c);
    assert n / 64 == a * 1024 + b * 4 + c / 64;
    var m := n / 64;
    assert m / 64 == a * 16 + b / 16 && m / 64 == n / 0x1000;
    var k := m / 64;
    assert k / 64 == a / 4 && k / 64 == n / 0x4_0000;
  }
}
