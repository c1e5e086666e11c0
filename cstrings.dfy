// C library string behaviour shared by the models of the Android system core:
// prefix comparison with strncmp, substring search with strstr/strcasestr,
// tokenising with strtok, integer parsing with atoi/strtoul, decimal and
// hexadecimal printing with printf, and glob matching with fnmatch.

module CStrings {

  datatype Option<T> = None | Some(value: T)

  /** An unsigned 8-bit value, as read from a file or a transport. */
  type Byte = x: int | 0 <= x < 0x100

  const NUL: char := 0 as char

  /** A C string never holds its terminator. */
  predicate NoNul(s: string)
  {
    forall i :: 0 <= i < |s| ==> s[i] != NUL
  }

  /** The index of the NUL that ends the string starting at i. */
  function StrEnd(buf: seq<char>, i: nat): (j: nat)
    requires i < |buf| && buf[|buf| - 1] == NUL
    ensures i <= j < |buf| && buf[j] == NUL
    ensures forall k :: i <= k < j ==> buf[k] != NUL
    decreases |buf| - i
  {
    if buf[i] == NUL then i else StrEnd(buf, i + 1)
  }

  /** The scan past one string of a buffer, as in while (*s++). */
  method ScanToNul(buf: seq<char>, i: nat) returns (j: nat)
    requires i < |buf| && buf[|buf| - 1] == NUL
    ensures j == StrEnd(buf, i)
  {
    j := i;
    while buf[j] != NUL
      invariant i <= j < |buf|
      invariant StrEnd(buf, j) == StrEnd(buf, i)
      decreases |buf| - j
    {
      j := j + 1;
    }
  }

  lemma {:induction false} StrEndAt(buf: seq<char>, i: nat, n: nat)
    requires i + n < |buf| && buf[|buf| - 1] == NUL && buf[i + n] == NUL
    requires NoNul(buf[i..i + n])
    ensures StrEnd(buf, i) == i + n
    decreases n
  {
    if n > 0 {
      assert buf[i..i + n][0] == buf[i];
      assert buf[i + 1..i + 1 + (n - 1)] == buf[i..i + n][1..];
      StrEndAt(buf, i + 1, n - 1);
    }
  }

  /** The C string that starts at index i of a NUL-terminated buffer. */
  function CStr(buf: seq<char>, i: nat): (s: string)
    requires i < |buf| && buf[|buf| - 1] == NUL
    ensures NoNul(s) && i + |s| < |buf| && buf[i + |s|] == NUL && buf[i..i + |s|] == s
  {
    buf[i..StrEnd(buf, i)]
  }

  /** A NUL-free string followed by a NUL is the C string at its first index. */
  lemma CStrAt(buf: seq<char>, i: nat, w: string)
    requires i + |w| < |buf| && buf[|buf| - 1] == NUL && buf[i + |w|] == NUL
    requires NoNul(w) && buf[i..i + |w|] == w
    ensures CStr(buf, i) == w
  {
    StrEndAt(buf, i, |w|);
  }

  /** strncmp(s, p, strlen(p)) == 0 */
  predicate StartsWith(s: string, p: string)
  {
    |p| <= |s| && s[..|p|] == p
  }

  predicate EndsWith(s: string, p: string)
  {
    |p| <= |s| && s[|s| - |p|..] == p
  }

  /** The first n characters: what strlcpy keeps in a buffer of n + 1 bytes. */
  function Take(s: string, n: nat): (r: string)
    ensures |r| <= n && StartsWith(s, r)
    ensures |s| <= n ==> r == s
    ensures |s| > n ==> |r| == n
  {
    if |s| <= n then s else s[..n]
  }

  lemma TakeAll<T>(s: seq<T>)
    ensures s[..|s|] == s
  {
  }

  lemma TakeNext<T>(s: seq<T>, i: nat)
    requires i < |s|
    ensures s[..i + 1] == s[..i] + [s[i]]
  {
  }

  lemma DropDrop<T>(s: seq<T>, i: nat, j: nat)
    requires i + j <= |s|
    ensures s[i..][j..] == s[i + j..]
  {
  }

  lemma Assoc<T>(a: seq<T>, b: seq<T>, c: seq<T>)
    ensures (a + b) + c == a + (b + c)
  {
  }

  lemma TakeConcat(a: string, b: string, n: nat)
    ensures Take(Take(a, n) + b, n) == Take(a + b, n)
  {
    if |a| > n {
      assert (a + b)[..n] == a[..n];
    } else {
      assert Take(a, n) == a;
    }
  }

  // ---------------------------------------------------------------------
  // Substring search (strstr, strcasestr)

  predicate SubAt(s: string, p: string, i: nat)
  {
    i + |p| <= |s| && s[i..i + |p|] == p
  }

  predicate Contains(s: string, p: string)
  {
    exists i: nat :: i <= |s| && SubAt(s, p, i)
  }

  function FindSubFrom(s: string, p: string, i: nat): (r: Option<nat>)
    requires i <= |s|
    ensures r.Some? ==> i <= r.value && SubAt(s, p, r.value)
    ensures r.Some? ==> forall j: nat :: i <= j < r.value ==> !SubAt(s, p, j)
    ensures r.None? ==> forall j: nat :: i <= j <= |s| ==> !SubAt(s, p, j)
    decreases |s| - i
  {
    if SubAt(s, p, i) then Some(i)
    else if i == |s| then None
    else FindSubFrom(s, p, i + 1)
  }

  /** strstr: the index of the first occurrence of p in s. */
  function FindSub(s: string, p: string): (r: Option<nat>)
    ensures r.Some? <==> Contains(s, p)
    ensures r.Some? ==> SubAt(s, p, r.value) && forall j: nat :: j < r.value ==> !SubAt(s, p, j)
  {
    FindSubFrom(s, p, 0)
  }

  /** ASCII tolower. */
  function Lower(c: char): (r: char)
    ensures 'A' <= c <= 'Z' ==> 'a' <= r <= 'z'
    ensures !('A' <= c <= 'Z') ==> r == c
  {
    if 'A' <= c <= 'Z' then (c as int - 'A' as int + 'a' as int) as char else c
  }

  function LowerStr(s: string): (r: string)
    ensures |r| == |s|
    ensures forall i :: 0 <= i < |s| ==> r[i] == Lower(s[i])
  {
    if s == [] then [] else [Lower(s[0])] + LowerStr(s[1..])
  }

  /** strcasestr(s, p) != NULL */
  predicate ContainsCI(s: string, p: string)
  {
    Contains(LowerStr(s), LowerStr(p))
  }

  /** strncasecmp(s, p, strlen(p)) == 0 */
  predicate StartsWithCI(s: string, p: string)
  {
    StartsWith(LowerStr(s), LowerStr(p))
  }

  /** strrchr(s, c): the index of the last occurrence of c. */
  function LastIndexOf(s: string, c: char): (r: Option<nat>)
    ensures r.Some? ==> r.value < |s| && s[r.value] == c
    ensures r.Some? ==> forall j :: r.value < j < |s| ==> s[j] != c
    ensures r.None? ==> forall j :: 0 <= j < |s| ==> s[j] != c
  {
    if s == [] then None
    else if s[|s| - 1] == c then Some(|s| - 1)
    else LastIndexOf(s[..|s| - 1], c)
  }

  /** strchr(s, c) as an index. */
  function IndexOf(s: string, c: char): (r: Option<nat>)
    ensures r.Some? ==> r.value < |s| && s[r.value] == c
    ensures r.Some? ==> forall j :: 0 <= j < r.value ==> s[j] != c
    ensures r.None? ==> forall j :: 0 <= j < |s| ==> s[j] != c
  {
    if s == [] then None
    else if s[0] == c then Some(0)
    else match IndexOf(s[1..], c)
      case None => None
      case Some(k) => Some(k + 1)
  }

  // ---------------------------------------------------------------------
  // strtok: the maximal runs of characters outside the delimiter set

  /** The length of the leading run of non-delimiters. */
  function RunLen(s: string, d: set<char>): (k: nat)
    ensures k <= |s|
    ensures forall i :: 0 <= i < k ==> s[i] !in d
    ensures k < |s| ==> s[k] in d
  {
    if s == [] || s[0] in d then 0 else 1 + RunLen(s[1..], d)
  }

  function Tokens(s: string, d: set<char>): (r: seq<string>)
    ensures forall t :: t in r ==> t != [] && forall i :: 0 <= i < |t| ==> t[i] !in d
    decreases |s|
  {
    if s == [] then []
    else if s[0] in d then Tokens(s[1..], d)
    else
      var k := RunLen(s, d);
      [s[..k]] + Tokens(s[k..], d)
  }

  /** strtok never hands out a delimiter or, on a C string, a NUL. */
  lemma {:induction false} TokensNoNul(s: string, d: set<char>)
    requires NoNul(s)
    ensures forall t :: t in Tokens(s, d) ==> NoNul(t)
    decreases |s|
  {
    if s != [] {
      if s[0] in d {
        TokensNoNul(s[1..], d);
      } else {
        var k := RunLen(s, d);
        TokensNoNul(s[k..], d);
      }
    }
  }

  /** The C string a loaded buffer holds: everything before its first NUL. */
  function UpToNul(s: seq<char>): (r: string)
    ensures NoNul(r) && r <= s && (|r| < |s| ==> s[|r|] == NUL)
  {
    match IndexOf(s, NUL)
    case None => s
    case Some(k) => s[..k]
  }

  /** fgets(buf, size, f): at most size - 1 characters, through the first newline; none at end of file. */
  function Fgets(contents: string, size: nat): (r: Option<string>)
    requires size >= 1
    ensures r.None? <==> contents == []
    ensures r.Some? ==> StartsWith(contents, r.value) && |r.value| <= size - 1
    ensures r.Some? && size >= 2 ==> r.value != []
  {
    if contents == [] then None
    else
      var buf := Take(contents, size - 1);
      match IndexOf(buf, '\n')
      case Some(i) => Some(buf[..i + 1])
      case None => Some(buf)
  }

  // ---------------------------------------------------------------------
  // Decimal numbers: atoi and "%d"

  predicate IsDigit(c: char) { '0' <= c <= '9' }

  predicate AllDigits(s: string) { forall i :: 0 <= i < |s| ==> IsDigit(s[i]) }

  /** isspace in the C locale. */
  predicate IsSpace(c: char)
  {
    c == ' ' || c == '\t' || c == '\n' || c == '\r' || c == 11 as char || c == 12 as char
  }

  function DigitVal(c: char): nat
    requires IsDigit(c)
  {
    c as int - '0' as int
  }

  /** The value of a string of decimal digits. */
  function DecValue(s: string): nat
    requires AllDigits(s)
  {
    if s == [] then 0 else 10 * DecValue(s[..|s| - 1]) + DigitVal(s[|s| - 1])
  }

  /** The leading run of digits. */
  function LeadingDigits(s: string): (r: string)
    ensures AllDigits(r) && StartsWith(s, r)
    ensures |r| < |s| ==> !IsDigit(s[|r|])
  {
    if s == [] || !IsDigit(s[0]) then [] else [s[0]] + LeadingDigits(s[1..])
  }

  function SkipSpaces(s: string): (r: string)
    ensures |r| <= |s| && r == s[|s| - |r|..]
    ensures r != [] ==> !IsSpace(r[0])
  {
    if s == [] || !IsSpace(s[0]) then s else SkipSpaces(s[1..])
  }

  /**
   * atoi: optional white space, an optional sign and decimal digits; 0 when
   * there are no digits.
   */
  function Atoi(s: string): int
  {
    var t := SkipSpaces(s);
    if t != [] && t[0] == '-' then -(DecValue(LeadingDigits(t[1..])) as int)
    else if t != [] && t[0] == '+' then DecValue(LeadingDigits(t[1..]))
    else DecValue(LeadingDigits(t))
  }

  function DigitChar(v: nat): (c: char)
    requires v < 10
    ensures IsDigit(c) && DigitVal(c) == v
  {
    ('0' as int + v) as char
  }

  /** printf("%d") of a non-negative number. */
  function NatToDec(n: nat): (r: string)
    ensures r != [] && AllDigits(r)
  {
    if n < 10 then [DigitChar(n)] else NatToDec(n / 10) + [DigitChar(n % 10)]
  }

  lemma {:induction false} DecValueOfNatToDec(n: nat)
    ensures DecValue(NatToDec(n)) == n
  {
    var r := NatToDec(n);
    if n >= 10 {
      DecValueOfNatToDec(n / 10);
      assert r[..|r| - 1] == NatToDec(n / 10);
    }
  }

  lemma {:induction false} LeadingDigitsAll(s: string, rest: string)
    requires AllDigits(s) && (rest == [] || !IsDigit(rest[0]))
    ensures LeadingDigits(s + rest) == s
  {
    if s != [] {
      assert (s + rest)[1..] == s[1..] + rest;
      LeadingDigitsAll(s[1..], rest);
    }
  }

  lemma {:induction false} NatToDecLength(n: nat)
    ensures n < 1000 ==> |NatToDec(n)| <= 3
  {
    if n >= 10 {
      NatToDecLength(n / 10);
    }
  }

  /** printf("%d") writes no leading zero. */
  lemma {:induction false} NatToDecLeading(n: nat)
    ensures n >= 1 ==> NatToDec(n)[0] != '0'
  {
    if n >= 10 {
      NatToDecLeading(n / 10);
    }
  }

  /** atoi of a run of digits reads their value, whatever non-digit follows. */
  lemma AtoiDigits(d: string, rest: string)
    requires d != [] && AllDigits(d) && (rest == [] || !IsDigit(rest[0]))
    ensures Atoi(d + rest) == DecValue(d)
  {
    var t := d + rest;
    assert t[0] == d[0];
    assert !IsSpace(t[0]) && t[0] != '-' && t[0] != '+';
    assert SkipSpaces(t) == t;
    LeadingDigitsAll(d, rest);
  }

  /** atoi reads back what printf("%d") wrote, whatever follows it. */
  lemma AtoiOfNatToDec(n: nat, rest: string)
    requires rest == [] || !IsDigit(rest[0])
    ensures Atoi(NatToDec(n) + rest) == n
  {
    AtoiDigits(NatToDec(n), rest);
    DecValueOfNatToDec(n);
  }

  function Zeros(k: nat): (r: string)
    ensures |r| == k && AllDigits(r)
    ensures forall i :: 0 <= i < k ==> r[i] == '0'
  {
    if k == 0 then [] else Zeros(k - 1) + ['0']
  }

  /** printf("%0*d", w, n) of a non-negative number. */
  function PadDec(n: nat, w: nat): (r: string)
    ensures AllDigits(r)
  {
    var d := NatToDec(n);
    if |d| >= w then d else Zeros(w - |d|) + d
  }

  lemma {:induction false} DecValueLeadingZeros(k: nat, s: string)
    requires AllDigits(s)
    ensures DecValue(Zeros(k) + s) == DecValue(s)
    decreases |s|
  {
    if s == [] {
      assert Zeros(k) + s == Zeros(k);
      ZerosValue(k);
    } else {
      var t := Zeros(k) + s;
      assert t[..|t| - 1] == Zeros(k) + s[..|s| - 1];
      DecValueLeadingZeros(k, s[..|s| - 1]);
    }
  }

  lemma {:induction false} ZerosValue(k: nat)
    ensures DecValue(Zeros(k)) == 0
  {
    if k > 0 {
      ZerosValue(k - 1);
    }
  }

  /** A zero-padded decimal still has the value it was printed from, and the width asked for. */
  lemma PadDecValue(n: nat, w: nat)
    ensures DecValue(PadDec(n, w)) == n
    ensures |PadDec(n, w)| >= w
  {
    DecValueOfNatToDec(n);
    var d := NatToDec(n);
    if |d| < w {
      DecValueLeadingZeros(w - |d|, d);
    }
  }

  // ---------------------------------------------------------------------
  // Hexadecimal numbers: "%0Nx" and strtoul(s, 0, 16)

  function Pow16(w: nat): (r: nat)
    ensures r >= 1
  {
    if w == 0 then 1 else 16 * Pow16(w - 1)
  }

  function HexDigit(v: nat): (c: char)
    requires v < 16
  {
    if v < 10 then ('0' as int + v) as char else ('a' as int + v - 10) as char
  }

  predicate IsHexDigit(c: char)
  {
    '0' <= c <= '9' || 'a' <= c <= 'f' || 'A' <= c <= 'F'
  }

  function HexVal(c: char): (v: nat)
    requires IsHexDigit(c)
    ensures v < 16
  {
    if '0' <= c <= '9' then c as int - '0' as int
    else if 'a' <= c <= 'f' then c as int - 'a' as int + 10
    else c as int - 'A' as int + 10
  }

  predicate AllHex(s: string) { forall i :: 0 <= i < |s| ==> IsHexDigit(s[i]) }

  function HexValue(s: string): nat
    requires AllHex(s)
  {
    if s == [] then 0 else 16 * HexValue(s[..|s| - 1]) + HexVal(s[|s| - 1])
  }

  /** printf("%0wx", n): exactly w lower-case digits of n modulo 16^w. */
  function HexFixed(n: nat, w: nat): (r: string)
    ensures |r| == w && AllHex(r)
  {
    if w == 0 then [] else HexFixed(n / 16, w - 1) + [HexDigit(n % 16)]
  }

  lemma {:induction false} HexFixedValue(n: nat, w: nat)
    requires n < Pow16(w)
    ensures HexValue(HexFixed(n, w)) == n
  {
    if w > 0 {
      var r := HexFixed(n, w);
      assert r[..|r| - 1] == HexFixed(n / 16, w - 1);
      HexFixedValue(n / 16, w - 1);
    }
  }

  /** The leading run of hexadecimal digits. */
  function LeadingHex(s: string): (r: string)
    ensures AllHex(r) && StartsWith(s, r)
    ensures |r| < |s| ==> !IsHexDigit(s[|r|])
  {
    if s == [] || !IsHexDigit(s[0]) then [] else [s[0]] + LeadingHex(s[1..])
  }

  lemma {:induction false} MulAtLeast(d: int, x: int)
    requires d > 0 && x >= 1
    ensures d * x >= d
    decreases x
  {
    if x > 1 {
      MulAtLeast(d, x - 1);
      assert d * x == d * (x - 1) + d;
    }
  }

  /** Quotient and remainder are the only ones that add back up. */
  lemma DivModUnique(n: int, d: int, q: int, r: int)
    requires d > 0 && n == d * q + r && 0 <= r < d
    ensures n / d == q && n % d == r
  {
    var q0 := n / d;
    var r0 := n % d;
    assert d * q0 + r0 == d * q + r;
    if q0 > q {
      var x := q0 - q;
      assert d * q0 == d * q + d * x;
      MulAtLeast(d, x);
    } else if q0 < q {
      var x := q - q0;
      assert d * q == d * q0 + d * x;
      MulAtLeast(d, x);
    }
  }

  /** The text strtoul reads its number from: after the leading white space and one optional sign. */
  function Unsigned(s: string): (u: string)
    ensures |u| <= |s|
  {
    var t := SkipSpaces(s);
    if t != [] && (t[0] == '+' || t[0] == '-') then t[1..] else t
  }

  /** Whether strtoul sees a minus sign after the leading white space. */
  predicate MinusSign(s: string)
  {
    var t := SkipSpaces(s);
    t != [] && t[0] == '-'
  }

  /**
   * The magnitude strtoul(s, 0, 16) reads: optional white space, an
   * optional sign, an optional "0x" and hexadecimal digits. The sign is
   * applied by the caller (MinusSign).
   */
  function HexToNat(s: string): nat
  {
    var t := Unsigned(s);
    var u := if StartsWith(t, "0x") || StartsWith(t, "0X") then t[2..] else t;
    HexValue(LeadingHex(u))
  }

  lemma NoLeadingSpace(t: string)
    requires t == [] || !IsSpace(t[0])
    ensures SkipSpaces(t) == t
  {
  }

  /** After one sign strtoul reads the rest; the sign is a minus exactly when it is one. */
  lemma UnsignedAfterSign(t: string)
    requires t != [] && (t[0] == '+' || t[0] == '-')
    requires t[1..] == [] || (!IsSpace(t[1]) && t[1] != '+' && t[1] != '-')
    ensures Unsigned(t) == t[1..] && Unsigned(t[1..]) == t[1..]
    ensures MinusSign(t) == (t[0] == '-') && !MinusSign(t[1..])
  {
    NoLeadingSpace(t);
    NoLeadingSpace(t[1..]);
  }

  /** A sign before the digits leaves the magnitude alone; only a minus sign is a minus sign. */
  lemma HexToNatPlus(s: string)
    requires s == [] || (!IsSpace(s[0]) && s[0] != '+' && s[0] != '-')
    ensures HexToNat("+" + s) == HexToNat(s) && HexToNat("-" + s) == HexToNat(s)
    ensures !MinusSign("+" + s) && !MinusSign(s) && MinusSign("-" + s)
  {
    var p, m := "+" + s, "-" + s;
    assert p[1..] == s && m[1..] == s;
    UnsignedAfterSign(p);
    UnsignedAfterSign(m);
  }

  lemma {:induction false} LeadingHexAll(s: string)
    requires AllHex(s)
    ensures LeadingHex(s) == s
  {
    if s != [] {
      LeadingHexAll(s[1..]);
    }
  }

  lemma NoSign(t: string)
    requires t == [] || (!IsSpace(t[0]) && t[0] != '+' && t[0] != '-')
    ensures SkipSpaces(t) == t && Unsigned(t) == t
  {
    NoLeadingSpace(t);
  }

  /** A mismatch at any position of p rules p out as a prefix. */
  lemma MismatchNotPrefix(s: string, p: string, i: nat)
    requires i < |p| <= |s| && s[i] != p[i]
    ensures !StartsWith(s, p)
  {
    assert s[..|p|][i] == s[i];
  }

  lemma HexNotSpace(h: string)
    requires |h| >= 2 && AllHex(h)
    ensures SkipSpaces(h) == h && Unsigned(h) == h
    ensures !StartsWith(h, "0x") && !StartsWith(h, "0X")
  {
    var c0, c1 := h[0], h[1];
    assert IsHexDigit(c0) && IsHexDigit(c1);
    NoSign(h);
    var lx, ux := "0x", "0X";
    assert lx[1] == 'x' != c1 && ux[1] == 'X' != c1;
    MismatchNotPrefix(h, lx, 1);
    MismatchNotPrefix(h, ux, 1);
  }

  /** strtoul(.., 16) reads back what printf("%08x") wrote. */
  lemma HexToNatOfHexFixed(n: nat)
    requires n < Pow16(8)
    ensures HexToNat(HexFixed(n, 8)) == n
  {
    var h := HexFixed(n, 8);
    HexNotSpace(h);
    LeadingHexAll(h);
    HexFixedValue(n, 8);
  }

  // ---------------------------------------------------------------------
  // fnmatch(pattern, s, 0), restricted to '*' and '?'

  predicate Glob(p: string, s: string)
    decreases |p| + |s|
  {
    if p == [] then s == []
    else if p[0] == '*' then Glob(p[1..], s) || (s != [] && Glob(p, s[1..]))
    else s != [] && (p[0] == '?' || p[0] == s[0]) && Glob(p[1..], s[1..])
  }

  predicate NoWildcard(p: string)
  {
    forall i :: 0 <= i < |p| ==> p[i] != '*' && p[i] != '?'
  }

  /** A pattern without wildcards matches itself and nothing else. */
  lemma {:induction false} GlobLiteral(p: string, s: string)
    requires NoWildcard(p)
    ensures Glob(p, s) <==> p == s
    decreases |p| + |s|
  {
    if p != [] && s != [] {
      GlobLiteral(p[1..], s[1..]);
      if p[1..] == s[1..] && p[0] == s[0] {
        assert p == [p[0]] + p[1..] && s == [s[0]] + s[1..];
      }
    }
  }

  /** A pattern ending in '*' matches every string that starts with its fixed part. */
  lemma {:induction false} GlobStarSuffix(p: string, s: string)
    requires NoWildcard(p)
    ensures Glob(p + "*", p + s)
    decreases |p| + |s|
  {
    if p == [] {
      assert p + "*" == "*" && p + s == s;
      StarMatchesAll(s);
    } else {
      assert (p + "*")[1..] == p[1..] + "*";
      assert (p + s)[1..] == p[1..] + s;
      GlobStarSuffix(p[1..], s);
    }
  }

  lemma {:induction false} StarMatchesAll(s: string)
    ensures Glob("*", s)
    decreases |s|
  {
    if s != [] {
      StarMatchesAll(s[1..]);
    }
  }
}
