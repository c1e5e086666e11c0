// EFI variables as init reads and writes them through sysfs
// (init/efivars.c): the byte packing of an EFI_GUID (UEFI Specification,
// Appendix A: the first three fields little-endian, the last eight bytes
// in order), its text form in the sysfs file names (the canonical form of
// RFC 4122, section 3), the conversion between C strings and UCS-2
// strings, the kernel architecture test and the record set_efi_variable
// writes to new_var.

module EfiVars {
  import opened CStrings

  // ---------------------------------------------------------------------
  // Arithmetic on the digits of a number

  lemma MulAssoc(a: int, b: int, c: int)
    ensures (a * b) * c == a * (b * c)
  {
  }

  lemma MulDistrib(a: int, x: int, y: int)
    ensures a * x + a * y == a * (x + y)
  {
  }

  /** Multiplying by a positive number keeps the order. */
  lemma MulMono(d: int, x: int, y: int)
    requires d >= 1
    ensures x >= y ==> d * x >= d * y
  {
    if x > y {
      MulDistrib(d, y, x - y);
      MulAtLeast(d, x - y);
    }
  }

  /** A remainder below b * q leaves a quotient by b below q. */
  lemma QuotBelow(r: nat, b: nat, q: nat)
    requires b >= 1 && r < b * q
    ensures r / b < q
  {
    assert b * (r / b) + r % b == r;
    MulMono(b, r / b, q);
  }

  /** Dividing by b and then q is dividing by b * q; the remainder splits the same way. */
  lemma DivModBy(n: nat, b: nat, q: nat)
    requires b >= 1 && q >= 1
    ensures (n % (b * q)) % b == n % b
    ensures (n % (b * q)) / b == (n / b) % q
    ensures (n / b) / q == n / (b * q)
    ensures n % (b * q) == n % b + b * ((n / b) % q)
  {
    var m := b * q;
    var t, r := n / m, n % m;
    var u, v := r / b, r % b;
    assert n == m * t + r;
    assert r == b * u + v;
    MulAssoc(b, q, t);
    MulDistrib(b, q * t, u);
    assert n == b * (q * t + u) + v;
    DivModUnique(n, b, q * t + u, v);
    QuotBelow(r, b, q);
    DivModUnique(n / b, q, t, u);
  }

  /** Integer division of naturals. */
  function Quot(n: nat, d: nat): nat
    requires d >= 1
  {
    n / d
  }

  /** Pow16 adds up over its exponent. */
  lemma {:induction false} Pow16Add(w1: nat, w2: nat)
    ensures Pow16(w1 + w2) == Pow16(w1) * Pow16(w2)
    decreases w2
  {
    if w2 > 0 {
      Pow16Add(w1, w2 - 1);
      assert Pow16(w1 + w2) == 16 * Pow16(w1 + w2 - 1);
      assert Pow16(w1) * Pow16(w2) == Pow16(w1) * (16 * Pow16(w2 - 1));
    }
  }

  /** "%0wx" shows only n modulo 16^w. */
  lemma {:induction false} HexFixedMod(n: nat, w: nat)
    ensures HexFixed(n, w) == HexFixed(n % Pow16(w), w)
    decreases w
  {
    if w > 0 {
      DivModBy(n, 16, Pow16(w - 1));
      HexFixedMod(n / 16, w - 1);
    }
  }

  /** The w1 + w2 digits of n are the w1 digits of n / 16^w2 followed by the w2 low digits. */
  lemma {:induction false} HexSplit(n: nat, w1: nat, w2: nat)
    ensures HexFixed(n, w1 + w2) == HexFixed(Quot(n, Pow16(w2)), w1) + HexFixed(n, w2)
    decreases w2
  {
    if w2 > 0 {
      var p := Pow16(w2 - 1);
      assert Pow16(w2) == 16 * p;
      DivModBy(n, 16, p);
      HexSplit(n / 16, w1, w2 - 1);
      assert Quot(n / 16, p) == Quot(n, Pow16(w2));
      var d := [HexDigit(n % 16)];
      assert HexFixed(n, w1 + w2) == HexFixed(n / 16, w1 + w2 - 1) + d;
      assert HexFixed(n, w2) == HexFixed(n / 16, w2 - 1) + d;
      Assoc(HexFixed(Quot(n, Pow16(w2)), w1), HexFixed(n / 16, w2 - 1), d);
    }
  }

  // ---------------------------------------------------------------------
  // EFI_GUID and its text

  /** (n >> 8k) & 0xff */
  function ByteOf(n: nat, k: nat): Byte
  {
    Quot(n, Pow16(2 * k)) % 256
  }

  /** Byte k + 1 of n is byte k of n >> 8. */
  lemma ByteOfNext(n: nat, k: nat)
    ensures ByteOf(n, k + 1) == ByteOf(n / 256, k)
  {
    Pow16Add(2, 2 * k);
    assert Pow16(2) == 256;
    DivModBy(n, 256, Pow16(2 * k));
  }

  /** "%02x" */
  function Hex2(b: Byte): (t: string)
    ensures |t| == 2 && AllHex(t)
  {
    HexFixed(b, 2)
  }

  /** The two hex digits of byte k are digits 2k and 2k + 1 of the number. */
  lemma HexOfByte(n: nat, k: nat)
    ensures HexFixed(Quot(n, Pow16(2 * k)), 2) == Hex2(ByteOf(n, k))
  {
    var x := Quot(n, Pow16(2 * k));
    HexFixedMod(x, 2);
    assert Pow16(2) == 256;
    assert ByteOf(n, k) == x % 256;
  }

  /** "%08x" of n is its four bytes as "%02x", most significant first. */
  lemma Hex8(n: nat)
    ensures HexFixed(n, 8) == Hex2(ByteOf(n, 3)) + Hex2(ByteOf(n, 2)) + Hex2(ByteOf(n, 1)) + Hex2(ByteOf(n, 0))
  {
    HexSplit(n, 2, 6);
    HexSplit(n, 2, 4);
    HexSplit(n, 2, 2);
    HexSplit(n, 2, 0);
    HexOfByte(n, 3);
    HexOfByte(n, 2);
    HexOfByte(n, 1);
    HexOfByte(n, 0);
  }

  /** "%04x" of n is its two bytes as "%02x", most significant first. */
  lemma Hex4(n: nat)
    ensures HexFixed(n, 4) == Hex2(ByteOf(n, 1)) + Hex2(ByteOf(n, 0))
  {
    HexSplit(n, 2, 2);
    HexSplit(n, 2, 0);
    HexOfByte(n, 1);
    HexOfByte(n, 0);
  }

  /** The EFI_GUID initialiser: a as four bytes, b and c as two, low byte first; then d0 to d7. */
  function EfiGuid(a: nat, b: nat, c: nat, d: seq<nat>): (g: seq<Byte>)
    requires |d| == 8
    ensures |g| == 16
  {
    [ByteOf(a, 0), ByteOf(a, 1), ByteOf(a, 2), ByteOf(a, 3), ByteOf(b, 0), ByteOf(b, 1), ByteOf(c, 0), ByteOf(c, 1)]
    + seq(8, i requires 0 <= i < 8 => (d[i] % 256) as Byte)
  }

  /** The number a sequence of bytes stands for, low byte first. */
  function LittleEndian(bs: seq<Byte>): nat
  {
    if bs == [] then 0 else bs[0] + 256 * LittleEndian(bs[1..])
  }

  /** The low k bytes of n, low byte first. */
  function LeBytes(n: nat, k: nat): (bs: seq<Byte>)
    ensures |bs| == k
  {
    seq(k, i requires 0 <= i < k => ByteOf(n, i))
  }

  /** The low k bytes of n, read back little-endian, are n modulo 2^8k. */
  lemma {:induction false} LeBytesValue(n: nat, k: nat)
    ensures LittleEndian(LeBytes(n, k)) == n % Pow16(2 * k)
    decreases k
  {
    if k == 0 {
    } else {
      var bs := LeBytes(n, k);
      LeBytesValue(n / 256, k - 1);
      forall i | 0 <= i < k - 1
        ensures bs[1..][i] == LeBytes(n / 256, k - 1)[i]
      {
        ByteOfNext(n, i);
      }
      assert bs[1..] == LeBytes(n / 256, k - 1);
      Pow16Add(2, 2 * (k - 1));
      assert Pow16(2) == 256;
      DivModBy(n, 256, Pow16(2 * (k - 1)));
      assert bs[0] == n % 256;
    }
  }

  /**
   * The packing of EFI_GUID: the first four bytes hold a, the next two b
   * and the next two c, each little-endian, the last eight d as given.
   */
  lemma EfiGuidLayout(a: nat, b: nat, c: nat, d: seq<nat>)
    requires |d| == 8
    ensures var g := EfiGuid(a, b, c, d);
      LittleEndian(g[0..4]) == a % 0x1_0000_0000 &&
      LittleEndian(g[4..6]) == b % 0x1_0000 &&
      LittleEndian(g[6..8]) == c % 0x1_0000 &&
      forall i :: 0 <= i < 8 ==> g[8 + i] == d[i] % 256
  {
    var g := EfiGuid(a, b, c, d);
    assert g[0..4] == LeBytes(a, 4);
    assert g[4..6] == LeBytes(b, 2);
    assert g[6..8] == LeBytes(c, 2);
    LeBytesValue(a, 4);
    LeBytesValue(b, 2);
    LeBytesValue(c, 2);
    assert Pow16(8) == 0x1_0000_0000;
    assert Pow16(4) == 0x1_0000;
  }

  /** GUID_FORMAT applied to the bytes 3, 2, 1, 0, 5, 4, 7, 6 and 8 to 15. */
  function GuidText(g: seq<Byte>): (t: string)
    requires |g| == 16
    ensures |t| == 36
    ensures t[8] == '-' && t[13] == '-' && t[18] == '-' && t[23] == '-'
  {
    (Hex2(g[3]) + Hex2(g[2]) + Hex2(g[1]) + Hex2(g[0])) + "-" +
    (Hex2(g[5]) + Hex2(g[4])) + "-" +
    (Hex2(g[7]) + Hex2(g[6])) + "-" +
    (Hex2(g[8]) + Hex2(g[9])) + "-" +
    (Hex2(g[10]) + Hex2(g[11]) + Hex2(g[12]) + Hex2(g[13]) + Hex2(g[14]) + Hex2(g[15]))
  }

  /**
   * The text undoes the byte order of the packing: it is the canonical
   * form of the fields the GUID was made from, a, b and c as 8, 4 and 4 hex
   * digits, then d in two groups.
   */
  lemma GuidTextOfEfiGuid(a: nat, b: nat, c: nat, d: seq<nat>)
    requires |d| == 8
    ensures GuidText(EfiGuid(a, b, c, d)) ==
      HexFixed(a, 8) + "-" + HexFixed(b, 4) + "-" + HexFixed(c, 4) + "-" +
      (HexFixed(d[0] % 256, 2) + HexFixed(d[1] % 256, 2)) + "-" +
      (HexFixed(d[2] % 256, 2) + HexFixed(d[3] % 256, 2) + HexFixed(d[4] % 256, 2) +
       HexFixed(d[5] % 256, 2) + HexFixed(d[6] % 256, 2) + HexFixed(d[7] % 256, 2))
  {
    var g := EfiGuid(a, b, c, d);
    Hex8(a);
    Hex4(b);
    Hex4(c);
  }

  /** RO_PROPERTIES_GUID, the vendor GUID of the ro.* property variables. */
  function RoPropertiesGuid(): (g: seq<Byte>)
    ensures |g| == 16
  {
    EfiGuid(0xf87b0c71, 0xff01, 0xcb2e, [0xba, 0x47, 0x53, 0x08, 0xe9, 0x96, 0xbd, 0x0f])
  }

  /** A 16-byte GUID is the packing of the fields it holds: EfiGuid has an inverse. */
  lemma EfiGuidOfFields(g: seq<Byte>)
    requires |g| == 16
    ensures g == EfiGuid(LittleEndian(g[0..4]), LittleEndian(g[4..6]), LittleEndian(g[6..8]), g[8..])
  {
    var a, b, c := LittleEndian(g[0..4]), LittleEndian(g[4..6]), LittleEndian(g[6..8]);
    forall k | 0 <= k < 4
      ensures ByteOf(a, k) == g[k]
    {
      ByteOfLittleEndian(g[0..4], k);
    }
    forall k | 0 <= k < 2
      ensures ByteOf(b, k) == g[4 + k] && ByteOf(c, k) == g[6 + k]
    {
      ByteOfLittleEndian(g[4..6], k);
      ByteOfLittleEndian(g[6..8], k);
    }
  }

  /** Byte k of a little-endian number is the k-th byte it was read from. */
  lemma {:induction false} ByteOfLittleEndian(bs: seq<Byte>, k: nat)
    requires k < |bs|
    ensures ByteOf(LittleEndian(bs), k) == bs[k]
    decreases k
  {
    var n := LittleEndian(bs);
    DivModUnique(n, 256, LittleEndian(bs[1..]), bs[0]);
    if k > 0 {
      ByteOfNext(n, k - 1);
      ByteOfLittleEndian(bs[1..], k - 1);
    }
  }

  /** The text of any GUID is the canonical form of its fields. */
  lemma GuidTextCanonical(g: seq<Byte>)
    requires |g| == 16
    ensures GuidText(g) ==
      HexFixed(LittleEndian(g[0..4]), 8) + "-" + HexFixed(LittleEndian(g[4..6]), 4) + "-" +
      HexFixed(LittleEndian(g[6..8]), 4) + "-" +
      (Hex2(g[8]) + Hex2(g[9])) + "-" +
      (Hex2(g[10]) + Hex2(g[11]) + Hex2(g[12]) + Hex2(g[13]) + Hex2(g[14]) + Hex2(g[15]))
  {
    EfiGuidOfFields(g);
    GuidTextOfEfiGuid(LittleEndian(g[0..4]), LittleEndian(g[4..6]), LittleEndian(g[6..8]), g[8..]);
  }

  /** One more hex digit at the low end. */
  lemma HexFixedStep(n: nat, w: nat, s: string)
    requires w >= 1 && HexFixed(n / 16, w - 1) == s
    ensures HexFixed(n, w) == s + [HexDigit(n % 16)]
  {
  }

  /** The sixteen digits "%x" writes. */
  lemma HexDigits()
    ensures HexDigit(0) == '0' && HexDigit(1) == '1' && HexDigit(2) == '2' && HexDigit(3) == '3'
    ensures HexDigit(4) == '4' && HexDigit(5) == '5' && HexDigit(6) == '6' && HexDigit(7) == '7'
    ensures HexDigit(8) == '8' && HexDigit(9) == '9' && HexDigit(10) == 'a' && HexDigit(11) == 'b'
    ensures HexDigit(12) == 'c' && HexDigit(13) == 'd' && HexDigit(14) == 'e' && HexDigit(15) == 'f'
  {
  }

  /** "%02x" of a byte whose two nibbles are given. */
  lemma Hex2Text(b: Byte, hi: nat, lo: nat)
    requires hi < 16 && lo < 16 && b as int == 16 * hi + lo
    ensures Hex2(b) == [HexDigit(hi), HexDigit(lo)]
  {
    HexFixedStep(b / 16, 1, []);
    HexFixedStep(b, 2, [HexDigit(hi)]);
  }

  /** The bytes of the ro.properties GUID. */
  lemma RoPropertiesGuidBytes()
    ensures RoPropertiesGuid() == [0x71, 0x0c, 0x7b, 0xf8, 0x01, 0xff, 0x2e, 0xcb, 0xba, 0x47, 0x53, 0x08, 0xe9, 0x96, 0xbd, 0x0f]
  {
    assert Pow16(2) == 256 && Pow16(4) == 65536 && Pow16(6) == 16777216;
  }

  /** The text of the ro.properties GUID is f87b0c71-ff01-cb2e-ba47-5308e996bd0f. */
  lemma RoPropertiesGuidText()
    ensures GuidText(RoPropertiesGuid()) ==
      (("f8" + "7b" + "0c" + "71") + "-" + ("ff" + "01") + "-" + ("cb" + "2e") + "-" + ("ba" + "47") + "-" +
       ("53" + "08" + "e9" + "96" + "bd" + "0f"))
  {
    RoPropertiesGuidBytes();
    GuidTextOfBytes(RoPropertiesGuid());
  }

  /** The text of those sixteen bytes, a pair of hex digits per byte. */
  lemma GuidTextOfBytes(g: seq<Byte>)
    requires g == [0x71, 0x0c, 0x7b, 0xf8, 0x01, 0xff, 0x2e, 0xcb, 0xba, 0x47, 0x53, 0x08, 0xe9, 0x96, 0xbd, 0x0f]
    ensures GuidText(g) == (("f8" + "7b" + "0c" + "71") + "-" + ("ff" + "01") + "-" + ("cb" + "2e") + "-" + ("ba" + "47") + "-" +
       ("53" + "08" + "e9" + "96" + "bd" + "0f"))
  {
    HexDigits();
    Hex2Text(0xf8, 15, 8);
    Hex2Text(0x7b, 7, 11);
    Hex2Text(0x0c, 0, 12);
    Hex2Text(0x71, 7, 1);
    Hex2Text(0xff, 15, 15);
    Hex2Text(0x01, 0, 1);
    Hex2Text(0xcb, 12, 11);
    Hex2Text(0x2e, 2, 14);
    Hex2Text(0xba, 11, 10);
    Hex2Text(0x47, 4, 7);
    Hex2Text(0x53, 5, 3);
    Hex2Text(0x08, 0, 8);
    Hex2Text(0xe9, 14, 9);
    Hex2Text(0x96, 9, 6);
    Hex2Text(0xbd, 11, 13);
    Hex2Text(0x0f, 0, 15);
  }

  // ---------------------------------------------------------------------
  // Paths under the sysfs directory of EFI variables

  const VARS_PATH: string := "/sys/firmware/efi/vars/"

  /**
   * get_efi_path: the directory of the variable, named by the variable and
   * the text of its GUID, followed by entry.
   */
  function EfiPath(g: seq<Byte>, name: string, entry: string): (p: string)
    requires |g| == 16
    ensures StartsWith(p, VARS_PATH + name + "-") && EndsWith(p, entry)
    ensures |p| == |VARS_PATH| + |name| + 37 + |entry|
  {
    VARS_PATH + name + "-" + GuidText(g) + entry
  }

  /**
   * The parts of a path: the directory, the name, a dash, the 36
   * characters of the GUID text and the entry, each at its offset.
   */
  lemma EfiPathParts(g: seq<Byte>, name: string, entry: string)
    requires |g| == 16
    ensures var p := EfiPath(g, name, entry);
      var v := |VARS_PATH|;
      |p| == v + |name| + 37 + |entry| &&
      p[..v] == VARS_PATH && p[v..v + |name|] == name && p[v + |name|] == '-' &&
      p[v + |name| + 1..v + |name| + 37] == GuidText(g) && p[v + |name| + 37..] == entry
  {
    var v := |VARS_PATH|;
    var p := EfiPath(g, name, entry);
    var t := GuidText(g);
    assert |t| == 36;
    assert p == (VARS_PATH + name + "-") + t + entry;
  }

  // ---------------------------------------------------------------------
  // 8-bit and UCS-2 strings

  type U16 = x: int | 0 <= x < 0x1_0000

  /** Every character of s is a byte. */
  predicate ByteChars(s: string)
  {
    forall i :: 0 <= i < |s| ==> s[i] as int < 256
  }

  /** The characters of a C string: bytes, none of them NUL. */
  predicate IsCString(s: string)
  {
    NoNul(s) && ByteChars(s)
  }

  /** A char stored into a uint16_t: char is signed on x86, so bytes from 0x80 up are sign-extended. */
  function Widen(c: char): (u: U16)
    requires c as int < 256
    ensures u % 256 == c as int
    ensures u == 0 <==> c == NUL
  {
    if c as int < 128 then c as int else c as int + 0xFF00
  }

  /** A uint16_t stored into a char keeps its low byte. */
  function Narrow(u: U16): (c: char)
  {
    (u % 256) as char
  }

  function Widened(s: string): (w: seq<U16>)
    requires ByteChars(s)
    ensures |w| == |s|
  {
    seq(|s|, i requires 0 <= i < |s| => Widen(s[i]))
  }

  function Narrowed(w: seq<U16>): (s: string)
    ensures |s| == |w|
  {
    seq(|w|, i requires 0 <= i < |w| => Narrow(w[i]))
  }

  /** Narrowing undoes widening. */
  lemma NarrowWidened(s: string)
    requires ByteChars(s)
    ensures Narrowed(Widened(s)) == s
  {
    forall i | 0 <= i < |s|
      ensures Narrowed(Widened(s))[i] == s[i]
    {
      assert Widen(s[i]) % 256 == s[i] as int;
    }
  }

  /** The length of a 0-terminated UCS-2 string: the index of its first 0. */
  function EfiStrLen(w: seq<U16>): (n: nat)
    requires 0 in w
    ensures n < |w| && w[n] == 0
    ensures forall j :: 0 <= j < n ==> w[j] != 0
  {
    if w[0] == 0 then 0 else 1 + EfiStrLen(w[1..])
  }

  /** A widened C string with its terminator has the length of the C string. */
  lemma EfiStrLenWidened(s: string)
    requires IsCString(s)
    ensures 0 in Widened(s) + [0]
    ensures EfiStrLen(Widened(s) + [0]) == |s|
  {
    var w := Widened(s) + [0];
    assert w[|s|] == 0;
  }

  /** char_str_to_efi_str: each byte widened, same length, 0-terminated. */
  method CharStrToEfiStr(src: string) returns (dst: array<U16>)
    requires IsCString(src)
    ensures fresh(dst) && dst[..] == Widened(src) + [0]
  {
    dst := new U16[|src| + 1](_ => 0);
    var i := 0;
    while i < |src|
      invariant 0 <= i <= |src|
      invariant dst[..i] == Widened(src)[..i] && dst[|src|] == 0
    {
      dst[i] := Widen(src[i]);
      i := i + 1;
    }
    dst[i] := 0;
  }

  /** efi_str_length: the count of units before the first 0. */
  method EfiStrLength(str: array<U16>) returns (len: nat)
    requires 0 in str[..]
    ensures len < str.Length && str[len] == 0
    ensures forall j :: 0 <= j < len ==> str[j] != 0
  {
    len := 0;
    while str[len] != 0
      invariant 0 <= len <= EfiStrLen(str[..])
      invariant forall j :: 0 <= j < len ==> str[j] != 0
      decreases EfiStrLen(str[..]) - len
    {
      len := len + 1;
    }
  }

  /** efi_str_to_char_str: the units up to the first 0, each narrowed, NUL-terminated. */
  method EfiStrToCharStr(src: array<U16>) returns (dst: array<char>)
    requires 0 in src[..]
    ensures fresh(dst) && dst[..] == Narrowed(src[..EfiStrLen(src[..])]) + [NUL]
  {
    var len := EfiStrLength(src);
    assert len == EfiStrLen(src[..]) by {
      var n := EfiStrLen(src[..]);
      assert !(n < len) && !(len < n);
    }
    dst := new char[len + 1](_ => NUL);
    var i := 0;
    while i < len
      invariant 0 <= i <= len
      invariant dst[..i] == Narrowed(src[..len])[..i] && dst[len] == NUL
    {
      dst[i] := Narrow(src[i]);
      i := i + 1;
    }
  }

  /** A C string converted to UCS-2 and back is the same string. */
  lemma EfiStrRoundTrip(s: string)
    requires IsCString(s)
    ensures 0 in Widened(s) + [0]
    ensures Narrowed((Widened(s) + [0])[..EfiStrLen(Widened(s) + [0])]) == s
  {
    EfiStrLenWidened(s);
    assert (Widened(s) + [0])[..|s|] == Widened(s);
    NarrowWidened(s);
  }

  // ---------------------------------------------------------------------
  // The kernel architecture

  const PATH_MAX: nat := 4096
  const LINUX_VERSION: string := "Linux version "

  /** The word after "Linux version ": up to the next space, or the rest of the line. */
  function ReleaseWord(rest: string): (w: string)
    ensures StartsWith(rest, w) && ' ' !in w
    ensures |w| < |rest| ==> rest[|w|] == ' '
  {
    match IndexOf(rest, ' ')
    case Some(j) => rest[..j]
    case None => rest
  }

  /** A match inside the C string of a line fgets read is a match in the file. */
  lemma SubAtInPrefix(contents: string, line: string, buf: string, p: nat)
    requires StartsWith(contents, line) && buf <= line && SubAt(buf, LINUX_VERSION, p)
    ensures Contains(contents, LINUX_VERSION)
  {
    var n := p + |LINUX_VERSION|;
    assert n <= |buf| <= |line| <= |contents|;
    forall k | p <= k < n
      ensures contents[k] == buf[k]
    {
      assert contents[..|line|][k] == line[k];
      assert line[..|buf|][k] == buf[k];
    }
    assert contents[p..n] == buf[p..n];
    assert SubAt(contents, LINUX_VERSION, p);
  }

  /**
   * kernel_arch_64_bit: whether "Linux version " and the word after it, in
   * the first line of /proc/version, contain "x86_64"; none when the file
   * cannot be opened, is empty or lacks the prefix.
   */
  function KernelArch64(version: Option<string>): (r: Option<bool>)
    ensures r.Some? ==> version.Some? && Contains(version.value, LINUX_VERSION)
  {
    if version.None? then None
    else match Fgets(version.value, PATH_MAX)
      case None => None
      case Some(line) =>
        var buf := UpToNul(line);
        match FindSub(buf, LINUX_VERSION)
        case None => None
        case Some(p) =>
          SubAtInPrefix(version.value, line, buf, p);
          Some(Contains(LINUX_VERSION + ReleaseWord(buf[p + |LINUX_VERSION|..]), "x86_64"))
  }

  /**
   * "x86_64" holds a '_', which "Linux version " lacks, and no space, with
   * which it ends: it cannot be found at a position inside the prefix.
   */
  lemma ArchNotInPrefix(w: string, p: nat)
    requires SubAt(LINUX_VERSION + w, "x86_64", p)
    ensures p >= |LINUX_VERSION|
  {
    var t := LINUX_VERSION + w;
    assert '_' !in LINUX_VERSION && ' ' !in "x86_64";
    forall j | p <= j < p + 6
      ensures t[j] != ' '
    {
      assert t[j] == t[p..p + 6][j - p];
    }
    assert t[p + 3] == t[p..p + 6][3] == '_';
    assert t[|LINUX_VERSION| - 1] == ' ';
  }

  /** The prefix adds nothing to the test: it is decided by the release word. */
  lemma ArchWord(w: string)
    ensures Contains(LINUX_VERSION + w, "x86_64") <==> Contains(w, "x86_64")
  {
    var t := LINUX_VERSION + w;
    if Contains(t, "x86_64") {
      var p := FindSub(t, "x86_64").value;
      ArchNotInPrefix(w, p);
      SubAtAppend(LINUX_VERSION, w, "x86_64", p - |LINUX_VERSION|);
    }
    if Contains(w, "x86_64") {
      var q := FindSub(w, "x86_64").value;
      SubAtAppend(LINUX_VERSION, w, "x86_64", q);
    }
  }

  /** An occurrence past a prefix is an occurrence in the rest, shifted by the prefix's length. */
  lemma SubAtAppend(a: string, w: string, x: string, q: nat)
    ensures SubAt(a + w, x, |a| + q) <==> SubAt(w, x, q)
  {
    var t := a + w;
    if q + |x| <= |w| {
      forall k | |a| + q <= k < |a| + q + |x| ensures t[k] == w[k - |a|] { }
      assert t[|a| + q..|a| + q + |x|] == w[q..q + |x|];
    }
  }

  /**
   * What the architecture test decides: 64-bit exactly when the release
   * word after the first "Linux version " contains "x86_64"; undecided
   * exactly when the file is unreadable or empty, or the prefix is missing
   * from its first line.
   */
  lemma KernelArch64Cases(version: Option<string>)
    ensures KernelArch64(version).None? <==>
      version.None? || version.value == [] || !Contains(UpToNul(Fgets(version.value, PATH_MAX).value), LINUX_VERSION)
    ensures KernelArch64(version).Some? ==>
      var buf := UpToNul(Fgets(version.value, PATH_MAX).value);
      var p := FindSub(buf, LINUX_VERSION).value;
      KernelArch64(version).value == Contains(ReleaseWord(buf[p + |LINUX_VERSION|..]), "x86_64")
  {
    if KernelArch64(version).Some? {
      var buf := UpToNul(Fgets(version.value, PATH_MAX).value);
      var p := FindSub(buf, LINUX_VERSION).value;
      ArchWord(ReleaseWord(buf[p + |LINUX_VERSION|..]));
    }
  }

  // ---------------------------------------------------------------------
  // The record set_efi_variable writes to new_var

  const EFI_VARIABLE_NON_VOLATILE: nat := 0x1
  const EFI_VARIABLE_BOOTSERVICE_ACCESS: nat := 0x2
  const EFI_VARIABLE_RUNTIME_ACCESS: nat := 0x4
  /** NON_VOLATILE | BOOTSERVICE_ACCESS | RUNTIME_ACCESS */
  const RO_PROP_VAR_ATTRIBUTES: nat := 0x7

  /** The packed record: name (512 UCS-2 units) at 0, guid at 1024, data_sz at 1040, then data (1024 bytes), status and attributes. */
  const NAME_BYTES: nat := 1024
  const GUID_OFFSET: nat := 1024
  const DATA_SZ_OFFSET: nat := 1040
  const DATA_BYTES: nat := 1024

  /** data_sz and status are unsigned long: 4 bytes in the 32-bit layout, 8 in the 64-bit one. */
  function WordSize(is64: bool): nat
  {
    if is64 then 8 else 4
  }

  function DataOffset(is64: bool): nat
  {
    DATA_SZ_OFFSET + WordSize(is64)
  }

  function StatusOffset(is64: bool): nat
  {
    DataOffset(is64) + DATA_BYTES
  }

  function AttributesOffset(is64: bool): nat
  {
    StatusOffset(is64) + WordSize(is64)
  }

  /** sizeof(efi_variable_32_t) and sizeof(efi_variable_64_t). */
  function RecordSize(is64: bool): (n: nat)
    ensures n == if is64 then 2084 else 2076
  {
    AttributesOffset(is64) + 4
  }

  /** A UCS-2 string as it lies in memory on x86: the low byte of each unit first. */
  function Ucs2Bytes(w: seq<U16>): (bs: seq<Byte>)
    ensures |bs| == 2 * |w|
  {
    seq(2 * |w|, k requires 0 <= k < 2 * |w| => if k % 2 == 0 then w[k / 2] % 256 else w[k / 2] / 256)
  }

  /** The UCS-2 units held by a byte area, two bytes each. */
  function Ucs2Units(bs: seq<Byte>): (w: seq<U16>)
    ensures |w| == |bs| / 2
  {
    seq(|bs| / 2, i requires 0 <= i < |bs| / 2 => Unit(bs[2 * i], bs[2 * i + 1]))
  }

  /** The unit made of a low and a high byte. */
  function Unit(lo: Byte, hi: Byte): (u: U16)
  {
    lo + 256 * hi
  }

  /** The two bytes of unit i. */
  lemma Ucs2BytesAt(w: seq<U16>, i: nat)
    requires i < |w|
    ensures Ucs2Bytes(w)[2 * i] == w[i] % 256 && Ucs2Bytes(w)[2 * i + 1] == w[i] / 256
  {
  }

  /** Unit i of a byte area. */
  lemma Ucs2UnitsAt(bs: seq<Byte>, i: nat)
    requires 2 * i + 1 < |bs|
    ensures Ucs2Units(bs)[i] == bs[2 * i] as int + 256 * bs[2 * i + 1] as int
  {
  }

  /** Reading units back from their bytes gives the units. */
  lemma Ucs2RoundTrip(w: seq<U16>)
    ensures Ucs2Units(Ucs2Bytes(w)) == w
  {
    var bs := Ucs2Bytes(w);
    forall i | 0 <= i < |w|
      ensures Ucs2Units(bs)[i] == w[i]
    {
      Ucs2BytesAt(w, i);
      Ucs2UnitsAt(bs, i);
    }
  }

  /** efi_value_size: the widened value and its terminator, in bytes. */
  function ValueSize(value: string): nat
  {
    2 * (|value| + 1)
  }

  /** The efi_value_size bytes set_efi_variable copies into data. */
  function ValueBytes(value: string): (bs: seq<Byte>)
    requires ByteChars(value)
    ensures |bs| == ValueSize(value)
  {
    Ucs2Bytes(Widened(value) + [0])
  }

  /** The check on the value: its bytes must fit in data. */
  predicate ValueTooLong(value: string)
    ensures ValueTooLong(value) <==> |value| >= 512
  {
    ValueSize(value) > DATA_BYTES
  }

  /** The check on the name as the source writes it: more than 1024 characters. */
  predicate NameTooLongAsWritten(name: string)
    ensures NameTooLongAsWritten(name) ==> NameTooLong(name)
    ensures !NameTooLongAsWritten(name) && NameTooLong(name) <==> 512 <= |name| <= 1024
  {
    |name| > 1024
  }

  /** The check on the name that keeps it, with its terminator, in the 512 units of name. */
  predicate NameTooLong(name: string)
    ensures NameTooLong(name) <==> |name| >= 512
  {
    2 * (|name| + 1) > NAME_BYTES
  }

  function Zeros(n: nat): (z: seq<Byte>)
    ensures |z| == n && forall k :: 0 <= k < n ==> z[k] == 0
  {
    seq(n, _ => 0)
  }

  /** Memory after bytes are stored from off on: those bytes there, the rest as before. */
  function Overwrite(mem: seq<Byte>, off: nat, bytes: seq<Byte>): (r: seq<Byte>)
    requires off + |bytes| <= |mem|
    ensures |r| == |mem|
    ensures forall k :: 0 <= k < |mem| ==> r[k] == if off <= k < off + |bytes| then bytes[k - off] else mem[k]
  {
    mem[..off] + bytes + mem[off + |bytes|..]
  }

  /**
   * The record set_efi_variable fills, store by store in the source's
   * order: zeroed, then guid, status 0 and the attributes, then the name
   * character by character, data_sz, and last the value. Either check on
   * the name keeps its copy inside the record.
   */
  function Record(is64: bool, guid: seq<Byte>, name: string, value: string): (r: seq<Byte>)
    requires |guid| == 16 && ByteChars(name) && ByteChars(value)
    requires !NameTooLongAsWritten(name) && !ValueTooLong(value)
    ensures |r| == RecordSize(is64)
  {
    var w := WordSize(is64);
    var m0 := Zeros(RecordSize(is64));
    var m1 := Overwrite(m0, GUID_OFFSET, guid);
    var m2 := Overwrite(m1, StatusOffset(is64), LeBytes(0, w));
    var m3 := Overwrite(m2, AttributesOffset(is64), LeBytes(RO_PROP_VAR_ATTRIBUTES, 4));
    var m4 := Overwrite(m3, 0, Ucs2Bytes(Widened(name)));
    var m5 := Overwrite(m4, DATA_SZ_OFFSET, LeBytes(ValueSize(value), w));
    Overwrite(m5, DataOffset(is64), ValueBytes(value))
  }

  /** Small numbers survive their little-endian bytes. */
  lemma LeBytesSmall(n: nat, k: nat)
    requires n < 0x1_0000_0000 && k >= 4
    ensures LittleEndian(LeBytes(n, k)) == n
  {
    LeBytesValue(n, k);
    Pow16Add(8, 2 * k - 8);
    assert Pow16(8) == 0x1_0000_0000;
    MulAtLeast(Pow16(8), Pow16(2 * k - 8));
    DivModUnique(n, Pow16(2 * k), 0, n);
  }

  /**
   * Under the corrected checks the scalar fields read back: guid as
   * given, data_sz the value's size, status 0 and the attributes 7.
   */
  lemma RecordFields(is64: bool, guid: seq<Byte>, name: string, value: string)
    requires |guid| == 16 && ByteChars(name) && ByteChars(value)
    requires !NameTooLong(name) && !ValueTooLong(value)
    ensures var r := Record(is64, guid, name, value);
      r[GUID_OFFSET..GUID_OFFSET + 16] == guid &&
      LittleEndian(r[DATA_SZ_OFFSET..DataOffset(is64)]) == ValueSize(value) &&
      LittleEndian(r[StatusOffset(is64)..AttributesOffset(is64)]) == 0 &&
      LittleEndian(r[AttributesOffset(is64)..]) == RO_PROP_VAR_ATTRIBUTES
  {
    var r := Record(is64, guid, name, value);
    var w := WordSize(is64);
    assert r[GUID_OFFSET..GUID_OFFSET + 16] == guid;
    assert r[DATA_SZ_OFFSET..DataOffset(is64)] == LeBytes(ValueSize(value), w);
    assert r[StatusOffset(is64)..AttributesOffset(is64)] == LeBytes(0, w);
    assert r[AttributesOffset(is64)..] == LeBytes(RO_PROP_VAR_ATTRIBUTES, 4);
    LeBytesSmall(ValueSize(value), w);
    LeBytesSmall(0, w);
    LeBytesSmall(RO_PROP_VAR_ATTRIBUTES, 4);
  }

  /** A byte area holding the bytes of s and then a 0 unit reads back, as a 0-terminated UCS-2 string narrowed to chars, as s. */
  lemma Ucs2ReadBack(area: seq<Byte>, s: string)
    requires IsCString(s) && 2 * |s| + 2 <= |area|
    requires area[..2 * |s|] == Ucs2Bytes(Widened(s)) && area[2 * |s|] == 0 && area[2 * |s| + 1] == 0
    ensures 0 in Ucs2Units(area)
    ensures Narrowed(Ucs2Units(area)[..EfiStrLen(Ucs2Units(area))]) == s
  {
    var ws := Ucs2Units(area);
    forall i | 0 <= i < |s|
      ensures ws[i] == Widen(s[i])
    {
      assert area[2 * i] == Ucs2Bytes(Widened(s))[2 * i];
      assert area[2 * i + 1] == Ucs2Bytes(Widened(s))[2 * i + 1];
      Ucs2BytesAt(Widened(s), i);
      Ucs2UnitsAt(area, i);
    }
    Ucs2UnitsAt(area, |s|);
    assert ws[|s|] == 0;
    var n := EfiStrLen(ws);
    assert n == |s|;
    assert ws[..n] == Widened(s);
    NarrowWidened(s);
  }

  /**
   * Each byte of the record is that of the last store covering it: the
   * value, data_sz, the name, the attributes, status, guid, or the zero
   * fill.
   */
  lemma RecordByte(is64: bool, guid: seq<Byte>, name: string, value: string, k: nat)
    requires |guid| == 16 && ByteChars(name) && ByteChars(value)
    requires !NameTooLongAsWritten(name) && !ValueTooLong(value)
    requires k < RecordSize(is64)
    ensures Record(is64, guid, name, value)[k] ==
      if DataOffset(is64) <= k < DataOffset(is64) + ValueSize(value) then ValueBytes(value)[k - DataOffset(is64)]
      else if DATA_SZ_OFFSET <= k < DataOffset(is64) then LeBytes(ValueSize(value), WordSize(is64))[k - DATA_SZ_OFFSET]
      else if k < 2 * |name| then Ucs2Bytes(Widened(name))[k]
      else if AttributesOffset(is64) <= k then LeBytes(RO_PROP_VAR_ATTRIBUTES, 4)[k - AttributesOffset(is64)]
      else if StatusOffset(is64) <= k < AttributesOffset(is64) then 0
      else if GUID_OFFSET <= k < GUID_OFFSET + 16 then guid[k - GUID_OFFSET]
      else 0
  {
  }

  /**
   * Under the corrected checks the name reads back: the name field, read
   * as a 0-terminated UCS-2 string and narrowed, is the name.
   */
  lemma RecordName(is64: bool, guid: seq<Byte>, name: string, value: string)
    requires |guid| == 16 && IsCString(name) && IsCString(value)
    requires !NameTooLong(name) && !ValueTooLong(value)
    ensures var units := Ucs2Units(Record(is64, guid, name, value)[..NAME_BYTES]);
      0 in units && Narrowed(units[..EfiStrLen(units)]) == name
  {
    var area := Record(is64, guid, name, value)[..NAME_BYTES];
    forall k | 0 <= k < NAME_BYTES
      ensures area[k] == if k < 2 * |name| then Ucs2Bytes(Widened(name))[k] else 0
    {
      RecordByte(is64, guid, name, value, k);
    }
    assert area[..2 * |name|] == Ucs2Bytes(Widened(name));
    Ucs2ReadBack(area, name);
  }

  /**
   * Under the corrected checks the value reads back as get_efi_variable
   * reads it: the data field, as a 0-terminated UCS-2 string narrowed to
   * chars, is the value.
   */
  lemma RecordValue(is64: bool, guid: seq<Byte>, name: string, value: string)
    requires |guid| == 16 && IsCString(name) && IsCString(value)
    requires !NameTooLong(name) && !ValueTooLong(value)
    ensures var units := Ucs2Units(Record(is64, guid, name, value)[DataOffset(is64)..DataOffset(is64) + DATA_BYTES]);
      0 in units && Narrowed(units[..EfiStrLen(units)]) == value
  {
    var off := DataOffset(is64);
    var area := Record(is64, guid, name, value)[off..off + DATA_BYTES];
    var vb := ValueBytes(value);
    forall k | 0 <= k < 2 * |value| + 2
      ensures area[k] == vb[k]
    {
      RecordByte(is64, guid, name, value, off + k);
    }
    forall k | 0 <= k < 2 * |value|
      ensures area[k] == Ucs2Bytes(Widened(value))[k]
    {
      Ucs2BytesAt(Widened(value) + [0], k / 2);
      Ucs2BytesAt(Widened(value), k / 2);
      assert (Widened(value) + [0])[k / 2] == Widened(value)[k / 2];
    }
    assert area[..2 * |value|] == Ucs2Bytes(Widened(value));
    Ucs2BytesAt(Widened(value) + [0], |value|);
    Ucs2ReadBack(area, value);
  }

  /**
   * The check as written lets a name of 513 to 1024 characters through,
   * and its copy runs past the 512 units of name into guid: the first
   * byte of the guid becomes the low byte of the name's character 512.
   */
  lemma AsWrittenNameClobbersGuid(is64: bool, guid: seq<Byte>, name: string, value: string)
    requires |guid| == 16 && ByteChars(name) && ByteChars(value)
    requires !NameTooLongAsWritten(name) && !ValueTooLong(value) && |name| > 512
    ensures Record(is64, guid, name, value)[GUID_OFFSET] == Widen(name[512]) % 256
  {
    var bs := Ucs2Bytes(Widened(name));
    assert bs[GUID_OFFSET] == Widened(name)[512] % 256;
  }

  /** For instance 520 'a's under the ro.properties GUID: the check passes and the record's guid is not that GUID. */
  lemma AsWrittenGuidLost()
    ensures var name := seq(520, _ => 'a');
      !NameTooLongAsWritten(name) && NameTooLong(name) &&
      Record(false, RoPropertiesGuid(), name, "")[GUID_OFFSET..GUID_OFFSET + 16] != RoPropertiesGuid()
  {
    var name := seq(520, _ => 'a');
    RoPropertiesGuidBytes();
    AsWrittenNameClobbersGuid(false, RoPropertiesGuid(), name, "");
    assert Record(false, RoPropertiesGuid(), name, "")[GUID_OFFSET..GUID_OFFSET + 16][0] == 'a' as int != 0x71;
  }

  /** memcpy(rec + off, bytes, |bytes|) */
  method Put(rec: array<Byte>, off: nat, bytes: seq<Byte>)
    requires off + |bytes| <= rec.Length
    modifies rec
    ensures rec[..] == Overwrite(old(rec[..]), off, bytes)
  {
    var i := 0;
    while i < |bytes|
      invariant 0 <= i <= |bytes|
      invariant forall k :: 0 <= k < rec.Length ==> rec[k] == if off <= k < off + i then bytes[k - off] else old(rec[k])
    {
      rec[off + i] := bytes[i];
      i := i + 1;
    }
  }

  /** The name loop: character i widened into unit i of name, low byte first. */
  method CopyName(rec: array<Byte>, name: string)
    requires ByteChars(name) && 2 * |name| <= rec.Length
    modifies rec
    ensures rec[..] == Overwrite(old(rec[..]), 0, Ucs2Bytes(Widened(name)))
  {
    ghost var bs := Ucs2Bytes(Widened(name));
    var i := 0;
    while i < |name|
      invariant 0 <= i <= |name|
      invariant forall k :: 0 <= k < rec.Length ==> rec[k] == if k < 2 * i then bs[k] else old(rec[k])
    {
      var u := Widen(name[i]);
      rec[2 * i] := u % 256;
      rec[2 * i + 1] := u / 256;
      Ucs2BytesAt(Widened(name), i);
      i := i + 1;
    }
  }

  /** The filling of efi_var_32 or efi_var_64. */
  method BuildRecord(is64: bool, guid: seq<Byte>, name: string, value: string) returns (rec: array<Byte>)
    requires |guid| == 16 && ByteChars(name) && ByteChars(value)
    requires !NameTooLongAsWritten(name) && !ValueTooLong(value)
    ensures fresh(rec) && rec[..] == Record(is64, guid, name, value)
  {
    var w := WordSize(is64);
    rec := new Byte[RecordSize(is64)](_ => 0);
    assert rec[..] == Zeros(RecordSize(is64));
    Put(rec, GUID_OFFSET, guid);
    Put(rec, StatusOffset(is64), LeBytes(0, w));
    Put(rec, AttributesOffset(is64), LeBytes(RO_PROP_VAR_ATTRIBUTES, 4));
    CopyName(rec, name);
    Put(rec, DATA_SZ_OFFSET, LeBytes(ValueSize(value), w));
    Put(rec, DataOffset(is64), ValueBytes(value));
  }

  // ---------------------------------------------------------------------
  // set_efi_variable

  const DEL_VAR: string := "/sys/firmware/efi/vars/del_var"
  const NEW_VAR: string := "/sys/firmware/efi/vars/new_var"

  /** A write that reached a sysfs file: the file and the bytes. */
  datatype EfiWrite = EfiWrite(path: string, data: seq<Byte>)

  /**
   * What the variable code sees of the system: the contents of
   * /proc/version, the paths that exist, the raw_var files and the files
   * that take a whole write.
   */
  datatype EfiFs = EfiFs(version: Option<string>, existing: set<string>, rawVars: map<string, seq<Byte>>, writable: set<string>)

  /** The raw_var file of a variable. */
  function RawVarPath(guid: seq<Byte>, name: string): string
    requires |guid| == 16
  {
    EfiPath(guid, name, "/raw_var")
  }

  /** read_efi_variable: the first sizeof(record) bytes of the variable's raw_var; none when the architecture is unknown or the file is missing or short. */

  function ReadEfiVariable(guid: seq<Byte>, name: string, fs: EfiFs): (r: Option<seq<Byte>>)
    requires |guid| == 16
    ensures r.Some? <==> (KernelArch64(fs.version).Some? && RawVarPath(guid, name) in fs.rawVars &&
      |fs.rawVars[RawVarPath(guid, name)]| >= RecordSize(KernelArch64(fs.version).value))
    ensures r.Some? ==> |r.value| == RecordSize(KernelArch64(fs.version).value) && r.value <= fs.rawVars[RawVarPath(guid, name)]
  {
    var path := RawVarPath(guid, name);
    match KernelArch64(fs.version)
    case None => None
    case Some(is64) =>
      if path in fs.rawVars && |fs.rawVars[path]| >= RecordSize(is64) then Some(fs.rawVars[path][..RecordSize(is64)]) else None
  }

  /** The writes set_efi_variable makes to remove an existing variable, or none when the removal fails. */
  function Deletion(guid: seq<Byte>, name: string, fs: EfiFs): (d: Option<seq<EfiWrite>>)
    requires |guid| == 16
    ensures EfiPath(guid, name, "/data") !in fs.existing ==> d == Some([])
    ensures d.Some? && d.value != [] ==>
      ReadEfiVariable(guid, name, fs).Some? && DEL_VAR in fs.writable &&
      d.value == [EfiWrite(DEL_VAR, ReadEfiVariable(guid, name, fs).value)]
  {
    if EfiPath(guid, name, "/data") !in fs.existing then Some([])
    else match ReadEfiVariable(guid, name, fs)
      case None => None
      case Some(raw) => if DEL_VAR in fs.writable then Some([EfiWrite(DEL_VAR, raw)]) else None
  }

  /** efi_value_size as set_efi_variable computes it: the units of the converted value and its terminator, in bytes. */
  method EfiValueSize(value: string) returns (size: nat)
    requires IsCString(value)
    ensures size == ValueSize(value)
  {
    var efiValue := CharStrToEfiStr(value);
    var len := EfiStrLength(efiValue);
    EfiStrLenWidened(value);
    assert len == EfiStrLen(efiValue[..]);
    size := (len + 1) * 2;
  }

  /**
   * The part of set_efi_variable after the checks: -1 with nothing
   * written when an existing variable cannot be removed; otherwise the
   * removal, if any, and then the record written to new_var, 0 exactly
   * when that write succeeds.
   */
  method StoreVariable(is64: bool, guid: seq<Byte>, name: string, value: string, fs: EfiFs) returns (ret: int, writes: seq<EfiWrite>)
    requires |guid| == 16 && IsCString(name) && IsCString(value)
    requires !NameTooLongAsWritten(name) && !ValueTooLong(value)
    ensures match Deletion(guid, name, fs)
      case None => ret == -1 && writes == []
      case Some(d) =>
        var rec := Record(is64, guid, name, value);
        (ret == 0 <==> NEW_VAR in fs.writable) && (ret == 0 || ret == -1) &&
        writes == d + (if NEW_VAR in fs.writable then [EfiWrite(NEW_VAR, rec)] else [])
  {
    writes := [];
    if EfiPath(guid, name, "/data") in fs.existing {
      var raw := ReadEfiVariable(guid, name, fs);
      if raw.None? || DEL_VAR !in fs.writable {
        return -1, [];
      }
      writes := [EfiWrite(DEL_VAR, raw.value)];
    }
    var rec := BuildRecord(is64, guid, name, value);
    if NEW_VAR !in fs.writable {
      return -1, writes;
    }
    writes := writes + [EfiWrite(NEW_VAR, rec[..])];
    ret := 0;
  }

  /**
   * set_efi_variable as written: the name is refused only beyond 1024
   * characters, so a name of 512 to 1024 characters is stored and its
   * copy runs over the guid and the fields after it (AsWrittenGuidLost).
   */
  method SetEfiVariableAsWritten(guid: seq<Byte>, name: string, value: string, fs: EfiFs) returns (ret: int, writes: seq<EfiWrite>)
    requires |guid| == 16 && IsCString(name) && IsCString(value)
    ensures ret == 0 || ret == -1
    ensures KernelArch64(fs.version).None? || NameTooLongAsWritten(name) || ValueTooLong(value) ==> ret == -1 && writes == []
    ensures KernelArch64(fs.version).Some? && !NameTooLongAsWritten(name) && !ValueTooLong(value) ==>
      match Deletion(guid, name, fs)
      case None => ret == -1 && writes == []
      case Some(d) =>
        var rec := Record(KernelArch64(fs.version).value, guid, name, value);
        (ret == 0 <==> NEW_VAR in fs.writable) &&
        writes == d + (if NEW_VAR in fs.writable then [EfiWrite(NEW_VAR, rec)] else [])
  {
    var arch := KernelArch64(fs.version);
    if arch.None? {
      return -1, [];
    }
    var efiValueSize := EfiValueSize(value);
    if NameTooLongAsWritten(name) || efiValueSize > DATA_BYTES {
      return -1, [];
    }
    ret, writes := StoreVariable(arch.value, guid, name, value, fs);
  }

  /**
   * set_efi_variable with the corrected name check: -1 with nothing
   * written when the architecture is unknown, the name does not fit the
   * name field with its terminator, or the value is too long; otherwise
   * what StoreVariable does, so the record written keeps guid, name and
   * value (RecordFields, RecordName, RecordValue).
   */
  method SetEfiVariable(guid: seq<Byte>, name: string, value: string, fs: EfiFs) returns (ret: int, writes: seq<EfiWrite>)
    requires |guid| == 16 && IsCString(name) && IsCString(value)
    ensures ret == 0 || ret == -1
    ensures KernelArch64(fs.version).None? || NameTooLong(name) || ValueTooLong(value) ==> ret == -1 && writes == []
    ensures KernelArch64(fs.version).Some? && !NameTooLong(name) && !ValueTooLong(value) ==>
      match Deletion(guid, name, fs)
      case None => ret == -1 && writes == []
      case Some(d) =>
        var rec := Record(KernelArch64(fs.version).value, guid, name, value);
        (ret == 0 <==> NEW_VAR in fs.writable) &&
        writes == d + (if NEW_VAR in fs.writable then [EfiWrite(NEW_VAR, rec)] else [])
  {
    var arch := KernelArch64(fs.version);
    if arch.None? {
      return -1, [];
    }
    var efiValueSize := EfiValueSize(value);
    if NameTooLong(name) || efiValueSize > DATA_BYTES {
      return -1, [];
    }
    ret, writes := StoreVariable(arch.value, guid, name, value, fs);
  }
}
