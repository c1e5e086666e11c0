// Property autodetection in init (init/autodetect.c): the display density
// is chosen from EDID blocks and framebuffer data, and the product
// properties (brand, name, device, serial number) are read from the DMI
// files and cleaned to the character rules of section 3.2.2 of the Android
// Compatibility Definition Document 4.4.
//
// The DMI files arrive as their contents (none when a file cannot be
// opened); cached_properties is an array of the six C strings it holds.

module Autodetect {
  import opened CStrings

  // ---------------------------------------------------------------------
  // Connector ranks and the chosen resolution (get_rank, push_resolution)

  /** get_rank: internal panels rank 10, HDMI 200, any other connector 50; lower is preferred. */
  function GetRank(file: string): (r: int)
    ensures r == 10 || r == 50 || r == 200
    ensures r == 200 ==> Contains(file, "HDMI")
  {
    if Contains(file, "eDP") || Contains(file, "LVDS") || Contains(file, "DSI") then 10
    else if Contains(file, "HDMI") then 200
    else 50
  }

  /** The rank push_resolution compares against; no statement of init ever lowers or raises it. */
  const CURRENT_RANK := 100

  /** The rank order: internal panels and other connectors pass the rank test, HDMI never does, even for its detailed timings. */
  lemma GetRankOrder(file: string)
    ensures (Contains(file, "eDP") || Contains(file, "LVDS") || Contains(file, "DSI")) ==> GetRank(file) == 10
    ensures !(Contains(file, "eDP") || Contains(file, "LVDS") || Contains(file, "DSI")) ==>
      (GetRank(file) > CURRENT_RANK <==> Contains(file, "HDMI"))
    ensures GetRank(file) + 5 <= CURRENT_RANK <==> GetRank(file) <= CURRENT_RANK
  {
  }

  /** The globals pixels_x/pixels_y, mm_x/mm_y, mm_set and origin. */
  datatype ScreenInfo = ScreenInfo(pixelsX: int, pixelsY: int, mmX: int, mmY: int, mmSet: bool, origin: Option<string>)

  /** Their start values: no size known, an 8" 16:9 panel assumed. */
  function InitialScreen(): (s: ScreenInfo)
    ensures s.pixelsX == 0 && s.pixelsY == 0 && s.mmX == 177 && s.mmY == 99 && !s.mmSet && s.origin.None?
  {
    ScreenInfo(0, 0, 177, 99, false, None)
  }

  /**
   * push_resolution: a smaller mode is ignored; a mode of a rank above
   * CURRENT_RANK may only supply a physical size, and only while none is
   * set; any other mode takes over the pixel size and origin, and its
   * physical size when it has one.
   */
  function Push(s: ScreenInfo, x: int, y: int, mX: int, mY: int, rank: int, origin: string): (r: ScreenInfo)
    ensures (r.pixelsX, r.pixelsY, r.origin) == (s.pixelsX, s.pixelsY, s.origin) ||
            (r.pixelsX, r.pixelsY, r.origin) == (x, y, Some(origin))
    ensures r.pixelsX >= s.pixelsX && r.pixelsY >= s.pixelsY
    ensures (r.mmX, r.mmY) == (s.mmX, s.mmY) || (r.mmX, r.mmY) == (mX, mY)
    ensures s.mmSet ==> r.mmSet
  {
    if x < s.pixelsX || y < s.pixelsY then s
    else if rank > CURRENT_RANK && s.mmSet then s
    else
      var sized := if mX > 0 && mY > 0 then s.(mmX := mX, mmY := mY, mmSet := true) else s;
      if rank > CURRENT_RANK then sized
      else sized.(pixelsX := x, pixelsY := y, origin := Some(origin))
  }

  class Screen {
    var pixelsX: int
    var pixelsY: int
    var mmX: int
    var mmY: int
    var mmSet: bool
    var origin: Option<string>

    function State(): ScreenInfo
      reads this
    {
      ScreenInfo(pixelsX, pixelsY, mmX, mmY, mmSet, origin)
    }

    constructor ()
      ensures State() == InitialScreen()
    {
      pixelsX, pixelsY := 0, 0;
      mmX, mmY := 177, 99;
      mmSet := false;
      origin := None;
    }

    /** push_resolution. */
    method PushResolution(x: int, y: int, mX: int, mY: int, rank: int, from: string)
      modifies this
      ensures State() == Push(old(State()), x, y, mX, mY, rank, from)
    {
      if x < pixelsX || y < pixelsY {
        return;
      }
      if rank > CURRENT_RANK && mmSet {
        return;
      }
      if mX > 0 && mY > 0 {
        mmX, mmY := mX, mY;
        mmSet := true;
      }
      if rank > CURRENT_RANK {
        return;
      }
      pixelsX, pixelsY := x, y;
      if mX > 0 && mY > 0 {
        mmX, mmY := mX, mY;
        mmSet := true;
      }
      origin := Some(from);
    }
  }

  /** The pixel size never shrinks: it stays, or becomes the pushed mode, which is at least as large. */
  lemma PushGrows(s: ScreenInfo, x: int, y: int, mX: int, mY: int, rank: int, origin: string)
    ensures var r := Push(s, x, y, mX, mY, rank, origin);
      r.pixelsX >= s.pixelsX && r.pixelsY >= s.pixelsY &&
      ((r.pixelsX, r.pixelsY) == (s.pixelsX, s.pixelsY) || (r.pixelsX, r.pixelsY) == (x, y))
    ensures s.mmSet ==> Push(s, x, y, mX, mY, rank, origin).mmSet
  {
  }

  /** A mode ranked above CURRENT_RANK keeps pixels and origin, and changes the physical size only while none is set. */
  lemma PushAboveRank(s: ScreenInfo, x: int, y: int, mX: int, mY: int, rank: int, origin: string)
    requires rank > CURRENT_RANK
    ensures var r := Push(s, x, y, mX, mY, rank, origin);
      r.pixelsX == s.pixelsX && r.pixelsY == s.pixelsY && r.origin == s.origin &&
      (s.mmSet ==> r == s)
  {
  }

  /** Every timing of an HDMI connector, detailed or legacy, leaves the pixel size alone. */
  lemma HdmiKeepsPixels(s: ScreenInfo, file: string, x: int, y: int, mX: int, mY: int, origin: string)
    requires Contains(file, "HDMI") && !(Contains(file, "eDP") || Contains(file, "LVDS") || Contains(file, "DSI"))
    ensures var r := Push(s, x, y, mX, mY, GetRank(file), origin);
      r.pixelsX == s.pixelsX && r.pixelsY == s.pixelsY && r.origin == s.origin
    ensures var r := Push(s, x, y, mX, mY, GetRank(file) + 5, origin);
      r.pixelsX == s.pixelsX && r.pixelsY == s.pixelsY && r.origin == s.origin
  {
    GetRankOrder(file);
  }

  /**
   * Since the compared rank never changes, the rank of an earlier mode does
   * not protect it: any later mode of rank at most CURRENT_RANK that is as
   * large takes over, even one ranked worse than the mode it replaces.
   */
  lemma PushLaterWins(s: ScreenInfo, x1: int, y1: int, m1X: int, m1Y: int, rank1: int, o1: string,
                      x2: int, y2: int, m2X: int, m2Y: int, rank2: int, o2: string)
    requires x1 >= s.pixelsX && y1 >= s.pixelsY && rank1 <= CURRENT_RANK
    requires x2 >= x1 && y2 >= y1 && rank1 < rank2 <= CURRENT_RANK
    ensures var r := Push(Push(s, x1, y1, m1X, m1Y, rank1, o1), x2, y2, m2X, m2Y, rank2, o2);
      r.pixelsX == x2 && r.pixelsY == y2 && r.origin == Some(o2)
  {
  }

  // ---------------------------------------------------------------------
  // EDID (valid_edid_header, vsize)

  /** The fixed header of section 3.3 of VESA E-EDID. */
  const EDID_HEADER: seq<Byte> := [0x00, 0xff, 0xff, 0xff, 0xff, 0xff, 0xff, 0x00]

  /** The size of struct edid, the one block parse_edid reads. */
  const EDID_SIZE := 128

  function ByteSum(s: seq<Byte>): nat
  {
    if s == [] then 0 else ByteSum(s[..|s| - 1]) + s[|s| - 1]
  }

  lemma ByteSumStep(s: seq<Byte>, i: nat, sum: Byte)
    requires i < |s| && sum == ByteSum(s[..i]) % 256
    ensures (sum + s[i]) % 256 == ByteSum(s[..i + 1]) % 256
  {
    assert s[..i + 1][..i] == s[..i];
  }

  /**
   * valid_edid_header: the block is accepted exactly when it starts with the
   * fixed header; a byte sum other than 0 mod 256 (the checksum of section
   * 3.11) is only reported, in badChecksum, and does not reject it.
   */
  method ValidEdidHeader(edid: seq<Byte>) returns (valid: bool, badChecksum: bool)
    requires |edid| == EDID_SIZE
    ensures valid <==> edid[..8] == EDID_HEADER
    ensures badChecksum <==> valid && ByteSum(edid) % 256 != 0
  {
    if edid[0] != 0 || edid[1] != 0xff || edid[2] != 0xff || edid[3] != 0xff ||
       edid[4] != 0xff || edid[5] != 0xff || edid[6] != 0xff || edid[7] != 0 {
      ghost var h := edid[..8];
      assert h[0] != EDID_HEADER[0] || h[1] != EDID_HEADER[1] || h[2] != EDID_HEADER[2] || h[3] != EDID_HEADER[3] ||
        h[4] != EDID_HEADER[4] || h[5] != EDID_HEADER[5] || h[6] != EDID_HEADER[6] || h[7] != EDID_HEADER[7];
      return false, false;
    }
    assert edid[..8] == EDID_HEADER;
    var sum: Byte := 0;
    var i := 0;
    while i < EDID_SIZE
      invariant i <= EDID_SIZE && sum == ByteSum(edid[..i]) % 256
    {
      ByteSumStep(edid, i, sum);
      sum := (sum + edid[i]) % 256;
      i := i + 1;
    }
    TakeAll(edid);
    return true, sum != 0;
  }

  /** C division of int, which truncates toward zero. */
  function CDiv(a: int, b: int): (q: int)
    requires b > 0
    ensures a >= 0 ==> q == a / b
    ensures a < 0 ==> q == -((-a) / b)
  {
    if a >= 0 then a / b else -((-a) / b)
  }

  /** vsize: the height of a standard timing from its width and aspect bits 7-6. */
  function VSize(x: int, vfreqAspect: Byte): (y: int)
    ensures x >= 0 ==> 0 <= y <= x
  {
    var aspect := vfreqAspect / 64;
    if aspect == 0 then CDiv(x * 10, 16)
    else if aspect == 1 then CDiv(x * 3, 4)
    else if aspect == 2 then CDiv(x * 4, 5)
    else if aspect == 3 then CDiv(x * 9, 16)
    else x
  }

  /**
   * The aspect codes of section 3.9 of VESA E-EDID: 00 is 16:10, 01 is 4:3,
   * 10 is 5:4 and 11 is 16:9; the height is the exact one rounded down.
   */
  lemma VSizeAspect(x: int, vfreqAspect: Byte)
    requires x >= 0
    ensures var y := VSize(x, vfreqAspect); var a := vfreqAspect / 64;
      0 <= y <= x &&
      (a == 0 ==> 16 * y <= 10 * x < 16 * y + 16) &&
      (a == 1 ==> 4 * y <= 3 * x < 4 * y + 4) &&
      (a == 2 ==> 5 * y <= 4 * x < 5 * y + 5) &&
      (a == 3 ==> 16 * y <= 9 * x < 16 * y + 16)
  {
  }

  // ---------------------------------------------------------------------
  // snap_dpi

  /** The framework densities snap_dpi picks from. */
  const DENSITIES: seq<int> := [120, 160, 213, 240, 320, 400, 480, 640]

  function Dist(a: real, b: real): real
  {
    if a >= b then a - b else b - a
  }

  /** snap_dpi as written: the steps between 160 and 213 and between 213 and 240 sit at 187 and 227. */
  function SnapDpiAsWritten(dpi: real): (d: int)
    ensures d in DENSITIES
  {
    if dpi < 140.0 then 120
    else if dpi < 187.0 then 160
    else if dpi < 227.0 then 213
    else if dpi < 280.0 then 240
    else if dpi < 360.0 then 320
    else if dpi < 440.0 then 400
    else if dpi < 560.0 then 480
    else 640
  }

  /** snap_dpi with every step at the midpoint of its two densities. */
  function SnapDpi(dpi: real): (d: int)
    ensures d in DENSITIES
  {
    if dpi < 140.0 then 120
    else if dpi < 186.5 then 160
    else if dpi < 226.5 then 213
    else if dpi < 280.0 then 240
    else if dpi < 360.0 then 320
    else if dpi < 440.0 then 400
    else if dpi < 560.0 then 480
    else 640
  }

  /** The density chosen is a framework density, and none of the others is closer to the input. */
  lemma SnapDpiNearest(dpi: real)
    ensures SnapDpi(dpi) in DENSITIES
    ensures forall d :: d in DENSITIES ==> Dist(d as real, dpi) >= Dist(SnapDpi(dpi) as real, dpi)
  {
  }

  /** As written, a density of 186.75 snaps to 160, though 213 is closer; 226.75 snaps to 213, though 240 is closer. */
  lemma SnapDpiAsWrittenNotNearest()
    ensures SnapDpiAsWritten(186.75) == 160 && Dist(213.0, 186.75) < Dist(160.0, 186.75)
    ensures SnapDpiAsWritten(226.75) == 213 && Dist(240.0, 226.75) < Dist(213.0, 226.75)
  {
  }

  /** The two differ only in the half-unit just below 187 and just below 227. */
  lemma SnapDpiAsWrittenAgrees(dpi: real)
    ensures SnapDpiAsWritten(dpi) in DENSITIES
    ensures SnapDpiAsWritten(dpi) != SnapDpi(dpi) <==> (186.5 <= dpi < 187.0 || 226.5 <= dpi < 227.0)
  {
  }

  // ---------------------------------------------------------------------
  // CDD_clean_string

  /** The characters section 3.2.2 of the CDD allows, with '.' left out. */
  predicate CddChar(c: char)
  {
    'a' <= c <= 'z' || 'A' <= c <= 'Z' || '0' <= c <= '9' || c == ',' || c == '_' || c == '-'
  }

  /** What CDD_clean_string leaves: lower case letters, digits, ',', '_' and '-'. */
  predicate CleanChar(c: char)
  {
    'a' <= c <= 'z' || '0' <= c <= '9' || c == ',' || c == '_' || c == '-'
  }

  /** The first pass: an allowed character in lower case, anything else '_'. */
  function CddMap(s: string): (m: string)
    ensures |m| == |s|
    ensures forall i :: 0 <= i < |m| ==> CleanChar(m[i]) && (CddChar(s[i]) ==> m[i] == Lower(s[i]))
  {
    seq(|s|, i requires 0 <= i < |s| => if CddChar(s[i]) then Lower(s[i]) else '_')
  }

  /** The second pass: trailing '_' and '.' are cut. */
  function TrimTail(t: string): (r: string)
    ensures r <= t && (r == [] || (r[|r| - 1] != '_' && r[|r| - 1] != '.'))
  {
    if |t| > 0 && (t[|t| - 1] == '_' || t[|t| - 1] == '.') then TrimTail(t[..|t| - 1]) else t
  }

  function CddClean(s: string): (r: string)
    ensures |r| <= |s|
  {
    TrimTail(CddMap(s))
  }

  /** The result of CDD_clean_string is in [a-z0-9,_-]*, does not end in '_' and is a prefix of the mapped input. */
  lemma CddCleanShape(s: string)
    ensures var r := CddClean(s);
      (forall i :: 0 <= i < |r| ==> CleanChar(r[i])) && (r == [] || r[|r| - 1] != '_') && r <= CddMap(s)
  {
    var m := CddMap(s);
    forall i | 0 <= i < |m|
      ensures CleanChar(m[i])
    {
    }
  }

  /** Cleaning an already clean string changes nothing. */
  lemma {:induction false} CddCleanIdempotent(s: string)
    ensures CddClean(CddClean(s)) == CddClean(s)
  {
    var r := CddClean(s);
    CddCleanShape(s);
    assert CddMap(r) == r;
  }

  /** CDD_clean_string, in place on a NUL-terminated buffer. */
  method CddCleanString(buf: array<char>)
    requires buf.Length > 0 && buf[buf.Length - 1] == NUL
    modifies buf
    ensures buf[buf.Length - 1] == NUL
    ensures CStr(buf[..], 0) == CddClean(old(CStr(buf[..], 0)))
  {
    ghost var s := CStr(buf[..], 0);
    var c := CddMapPass(buf, s);
    ghost var m := CddMap(s);
    var len := TrimPass(buf, m, c);
    CddCleanShape(s);
    assert buf[..][0..len] == CddClean(s);
    CStrAt(buf[..], 0, CddClean(s));
  }

  /** The first loop of CDD_clean_string, up to the terminator at |s|. */
  method CddMapPass(buf: array<char>, ghost s: string) returns (c: nat)
    requires NoNul(s) && |s| < buf.Length && buf[|s|] == NUL
    requires forall k :: 0 <= k < |s| ==> buf[k] == s[k]
    modifies buf
    ensures c == |s| && buf[c] == NUL
    ensures forall k :: 0 <= k < c ==> buf[k] == CddMap(s)[k]
    ensures forall k :: c < k < buf.Length ==> buf[k] == old(buf[k])
  {
    c := 0;
    while buf[c] != NUL
      invariant c <= |s| && buf[|s|] == NUL
      invariant forall k :: 0 <= k < c ==> buf[k] == CddMap(s)[k]
      invariant forall k :: c <= k < |s| ==> buf[k] == s[k]
      invariant forall k :: |s| < k < buf.Length ==> buf[k] == old(buf[k])
      decreases |s| - c
    {
      if CddChar(buf[c]) {
        buf[c] := Lower(buf[c]);
      } else {
        buf[c] := '_';
      }
      c := c + 1;
    }
  }

  /** The second loop of CDD_clean_string: len is strlen(buf), the index of the first NUL. */
  method TrimPass(buf: array<char>, ghost m: string, n: nat) returns (len: nat)
    requires |m| == n < buf.Length && buf[n] == NUL
    requires forall k :: 0 <= k < n ==> buf[k] == m[k]
    modifies buf
    ensures len <= n && buf[len] == NUL && buf[n] == NUL && m[..len] == TrimTail(m)
    ensures forall k :: 0 <= k < len ==> buf[k] == m[k]
    ensures forall k :: n < k < buf.Length ==> buf[k] == old(buf[k])
  {
    len := n;
    assert m[..len] == m;
    while len > 0 && (buf[len - 1] == '_' || buf[len - 1] == '.')
      invariant len <= n && buf[len] == NUL && buf[n] == NUL
      invariant forall k :: 0 <= k < len ==> buf[k] == m[k]
      invariant forall k :: n < k < buf.Length ==> buf[k] == old(buf[k])
      invariant TrimTail(m[..len]) == TrimTail(m)
    {
      assert m[..len][..len - 1] == m[..len - 1];
      buf[len - 1] := NUL;
      len := len - 1;
    }
  }

  // ---------------------------------------------------------------------
  // CDD_clean_serialno, check_serialno

  predicate Alnum(c: char)
  {
    'a' <= c <= 'z' || 'A' <= c <= 'Z' || '0' <= c <= '9'
  }

  /** The texts BIOS vendors leave in place of a serial number; strcasestr with lower case needles. */
  predicate PlaceholderSerial(s: string)
  {
    Contains(LowerStr(s), "serial") || Contains(LowerStr(s), "filled") || Contains(LowerStr(s), "12345678")
  }

  /** Every character outside [A-Za-z0-9] becomes '0'. */
  function SerialMap(s: string): (m: string)
    ensures |m| == |s|
    ensures forall i :: 0 <= i < |m| ==> Alnum(m[i]) && (Alnum(s[i]) <==> m[i] == s[i])
  {
    seq(|s|, i requires 0 <= i < |s| => if Alnum(s[i]) then s[i] else '0')
  }

  predicate AllZeros(m: string)
  {
    forall i :: 0 <= i < |m| ==> m[i] == '0'
  }

  /** The serial number: placeholders, short ones and all-zero ones are dropped, long ones cut to 20. */
  function CleanSerial(s: string): (r: string)
    ensures |r| <= |s|
  {
    if PlaceholderSerial(s) || |s| < 6 then ""
    else if AllZeros(SerialMap(s)) then ""
    else Take(SerialMap(s), 20)
  }

  /** A serial number left non-empty matches [A-Za-z0-9]{6,20}; it is empty exactly in the three rejected cases. */
  lemma CleanSerialShape(s: string)
    ensures var r := CleanSerial(s);
      (r == [] <==> PlaceholderSerial(s) || |s| < 6 || AllZeros(SerialMap(s))) &&
      (r != [] ==> 6 <= |r| <= 20 && (forall i :: 0 <= i < |r| ==> Alnum(r[i])) && r <= SerialMap(s))
  {
    var r := CleanSerial(s);
    if r != [] {
      var m := SerialMap(s);
      forall i | 0 <= i < |r|
        ensures Alnum(r[i])
      {
        assert r[i] == m[i];
      }
    }
  }

  /** The zeros counted in the pass. */
  function CountZeros(m: string): (n: nat)
    ensures n <= |m|
  {
    if m == [] then 0 else CountZeros(m[..|m| - 1]) + (if m[|m| - 1] == '0' then 1 else 0)
  }

  lemma {:induction false} CountZerosAll(m: string)
    ensures CountZeros(m) == |m| <==> AllZeros(m)
  {
    if m != [] {
      var init := m[..|m| - 1];
      CountZerosAll(init);
      if AllZeros(m) {
        assert AllZeros(init) by {
          forall i | 0 <= i < |init|
            ensures init[i] == '0'
          {
            assert init[i] == m[i];
          }
        }
      } else if CountZeros(m) == |m| {
        assert m[|m| - 1] == '0';
        assert AllZeros(m) by {
          forall i | 0 <= i < |m|
            ensures m[i] == '0'
          {
            if i < |m| - 1 {
              assert m[i] == init[i];
            }
          }
        }
      }
    }
  }

  /** CDD_clean_serialno, in place on a NUL-terminated buffer. */
  method CddCleanSerialno(buf: array<char>)
    requires buf.Length > 0 && buf[buf.Length - 1] == NUL
    modifies buf
    ensures buf[buf.Length - 1] == NUL
    ensures CStr(buf[..], 0) == CleanSerial(old(CStr(buf[..], 0)))
  {
    var s := CStr(buf[..], 0);
    if PlaceholderSerial(s) || |s| < 6 {
      buf[0] := NUL;
      CStrAt(buf[..], 0, []);
      return;
    }
    var zeros := ZeroPass(buf, s);
    ghost var m := SerialMap(s);
    CountZerosAll(m);
    if |s| == zeros {
      buf[0] := NUL;
      CStrAt(buf[..], 0, []);
      return;
    }
    if |s| > 20 {
      buf[20] := NUL;
    }
    CleanSerialShape(s);
    TakeCStr(buf[..], m, Take(m, 20));
  }

  /** The cleaned characters, cut at 20 by a NUL, read back as the first 20 of them. */
  lemma TakeCStr(b: seq<char>, m: string, r: string)
    requires r == Take(m, 20) && |r| < |b| && b[|b| - 1] == NUL && b[|r|] == NUL
    requires forall i :: 0 <= i < |r| ==> Alnum(r[i])
    requires forall k :: 0 <= k < |r| ==> b[k] == m[k]
    ensures CStr(b, 0) == r
  {
    assert b[0..|r|] == r;
    CStrAt(b, 0, r);
  }

  /** The loop of CDD_clean_serialno: characters outside [A-Za-z0-9] become '0', and the zeros are counted. */
  method ZeroPass(buf: array<char>, ghost s: string) returns (zeros: nat)
    requires NoNul(s) && |s| < buf.Length && buf[|s|] == NUL
    requires forall k :: 0 <= k < |s| ==> buf[k] == s[k]
    modifies buf
    ensures zeros == CountZeros(SerialMap(s))
    ensures forall k :: 0 <= k < |s| ==> buf[k] == SerialMap(s)[k]
    ensures forall k :: |s| <= k < buf.Length ==> buf[k] == old(buf[k])
  {
    ghost var m := SerialMap(s);
    zeros := 0;
    var c := 0;
    while buf[c] != NUL
      invariant c <= |s| && buf[|s|] == NUL
      invariant forall k :: 0 <= k < c ==> buf[k] == m[k]
      invariant forall k :: c <= k < |s| ==> buf[k] == s[k]
      invariant forall k :: |s| < k < buf.Length ==> buf[k] == old(buf[k])
      invariant zeros == CountZeros(m[..c])
      decreases |s| - c
    {
      assert m[..c + 1][..c] == m[..c];
      if !Alnum(buf[c]) {
        buf[c] := '0';
      }
      if buf[c] == '0' {
        zeros := zeros + 1;
      }
      c := c + 1;
    }
    assert m[..c] == m;
  }

  /** check_serialno: an empty serial number becomes the canary, which itself matches [A-Za-z0-9]{6,20}. */
  function CheckSerial(serial: string): (r: string)
    ensures serial != [] ==> r == serial
    ensures serial == [] ==> r == "00badbios00badbios00" && |r| == 20 && forall i :: 0 <= i < |r| ==> Alnum(r[i])
  {
    if serial == [] then "00badbios00badbios00" else serial
  }

  /** A serial number as section 3.2.2 of the CDD wants it: [A-Za-z0-9]{6,20}. */
  predicate SerialShape(s: string)
  {
    6 <= |s| <= 20 && forall i :: 0 <= i < |s| ==> Alnum(s[i])
  }

  // ---------------------------------------------------------------------
  // chop_brand_tail

  /** chop_brand_tail on the brand: intel and asus brands become exactly that word, other brands lose the tail from the first _inc, else _corp, else _gmbh. */
  function ChopBrand(brand: string): (r: string)
    ensures r == "intel" || r == "asus" || r <= brand
  {
    var low := LowerStr(brand);
    if StartsWith(low, "intel") then "intel"
    else if StartsWith(low, "asus") then "asus"
    else match FindSub(low, "_inc")
      case Some(i) => brand[..i]
      case None =>
        match FindSub(low, "_corp")
        case Some(i) => brand[..i]
        case None =>
          match FindSub(low, "_gmbh")
          case Some(i) => brand[..i]
          case None => brand
  }

  /** Lowering commutes with taking a prefix. */
  lemma LowerPrefix(s: string, i: nat)
    requires i <= |s|
    ensures LowerStr(s[..i]) == LowerStr(s)[..i]
  {
  }

  /** The text before the first occurrence of p does not contain p. */
  lemma {:induction false} BeforeFirst(low: string, p: string, i: nat)
    requires FindSub(low, p) == Some(i) && |p| > 0
    ensures !Contains(low[..i], p)
  {
    forall j: nat | j <= i
      ensures !SubAt(low[..i], p, j)
    {
      if j + |p| <= i {
        assert low[..i][j..j + |p|] == low[j..j + |p|];
        assert !SubAt(low, p, j);
      }
    }
  }

  /** A prefix of a text without p has no p either. */
  lemma {:induction false} PrefixWithout(low: string, p: string, i: nat)
    requires i <= |low| && !Contains(low, p)
    ensures !Contains(low[..i], p)
  {
    forall j: nat | j <= i
      ensures !SubAt(low[..i], p, j)
    {
      if j + |p| <= i {
        assert low[..i][j..j + |p|] == low[j..j + |p|];
        assert !SubAt(low, p, j);
      }
    }
  }

  /** r is brand cut at i, where the lowered brand has its first occurrence of p. */
  predicate CutAtFirst(brand: string, low: string, p: string, i: nat, r: string)
  {
    i <= |brand| && r == brand[..i] && SubAt(low, p, i) && forall j: nat :: j < i ==> !SubAt(low, p, j)
  }

  /**
   * Outside the intel and asus cases the brand is cut at the first "_inc"
   * (in any case), else at the first "_corp", else at the first "_gmbh",
   * and is kept whole when it has none of them; what is kept has no "_inc",
   * no "_corp" when it had no "_inc", and no "_gmbh" when it had neither.
   */
  lemma {:induction false} ChopBrandTail(brand: string)
    ensures var low := LowerStr(brand); var r := ChopBrand(brand);
      (StartsWith(low, "intel") ==> r == "intel") &&
      (!StartsWith(low, "intel") && StartsWith(low, "asus") ==> r == "asus") &&
      (!StartsWith(low, "intel") && !StartsWith(low, "asus") ==>
        r <= brand && !Contains(LowerStr(r), "_inc") &&
        (!Contains(low, "_inc") ==> !Contains(LowerStr(r), "_corp")) &&
        (!Contains(low, "_inc") && !Contains(low, "_corp") ==> !Contains(LowerStr(r), "_gmbh")))
    ensures var low := LowerStr(brand); var r := ChopBrand(brand);
      !StartsWith(low, "intel") && !StartsWith(low, "asus") ==>
        (Contains(low, "_inc") ==> exists i: nat :: CutAtFirst(brand, low, "_inc", i, r)) &&
        (!Contains(low, "_inc") && Contains(low, "_corp") ==> exists i: nat :: CutAtFirst(brand, low, "_corp", i, r)) &&
        (!Contains(low, "_inc") && !Contains(low, "_corp") && Contains(low, "_gmbh") ==>
          exists i: nat :: CutAtFirst(brand, low, "_gmbh", i, r)) &&
        (!Contains(low, "_inc") && !Contains(low, "_corp") && !Contains(low, "_gmbh") ==> r == brand)
  {
    var low := LowerStr(brand);
    var r := ChopBrand(brand);
    if !StartsWith(low, "intel") && !StartsWith(low, "asus") {
      assert r <= brand;
      LowerPrefix(brand, |r|);
      assert LowerStr(r) == low[..|r|];
      match FindSub(low, "_inc")
      case Some(i) =>
        BeforeFirst(low, "_inc", i);
        assert CutAtFirst(brand, low, "_inc", i, r);
      case None =>
        PrefixWithout(low, "_inc", |r|);
        match FindSub(low, "_corp")
        case Some(i) =>
          BeforeFirst(low, "_corp", i);
          assert CutAtFirst(brand, low, "_corp", i, r);
        case None =>
          PrefixWithout(low, "_corp", |r|);
          match FindSub(low, "_gmbh")
          case Some(i) =>
            BeforeFirst(low, "_gmbh", i);
            assert CutAtFirst(brand, low, "_gmbh", i, r);
          case None =>
            PrefixWithout(low, "_gmbh", |r|);
    }
  }

  // ---------------------------------------------------------------------
  // Reading the DMI files (get_property_from_dmi_file, get_property_DEVICE)

  /** PROP_VALUE_MAX of Android's system properties: the size of every buffer here. */
  const PROP_VALUE_MAX: nat := 92

  /** strchr(buf, '\n') = 0: the string ends before its first newline. */
  function CutNewline(s: string): (r: string)
    ensures r <= s && forall i :: 0 <= i < |r| ==> r[i] != '\n'
  {
    match IndexOf(s, '\n')
    case None => s
    case Some(k) => s[..k]
  }

  /** The first line of a DMI file as the zeroed buffer holds it after fgets and the newline cut; none for an empty file. */
  function DmiLine(contents: string): (r: Option<string>)
    ensures r.None? <==> contents == []
    ensures r.Some? ==> |r.value| < PROP_VALUE_MAX && NoNul(r.value)
  {
    match Fgets(contents, PROP_VALUE_MAX)
    case None => None
    case Some(l) => Some(CutNewline(UpToNul(l)))
  }

  /** The cleaned value of one DMI file: empty when the file is missing, empty or rejected. */
  function Cleaned(file: Option<string>, serial: bool): (r: string)
    ensures |r| < PROP_VALUE_MAX
  {
    if file.None? then ""
    else match DmiLine(file.value)
      case None => ""
      case Some(v) => if serial then CleanSerial(v) else CddClean(v)
  }

  /** get_property_from_dmi_file: a property already found stays; otherwise the file's cleaned value, if any. */
  function FromDmi(cur: string, file: Option<string>, serial: bool): (r: string)
    ensures cur != "" ==> r == cur
    ensures |cur| < PROP_VALUE_MAX ==> |r| < PROP_VALUE_MAX
  {
    if cur != "" then cur else Cleaned(file, serial)
  }

  /** The first non-empty cleaned value of the files, in order. */
  function FirstFound(files: seq<Option<string>>, serial: bool): (r: string)
    ensures |r| < PROP_VALUE_MAX
  {
    if files == [] then ""
    else if Cleaned(files[0], serial) != "" then Cleaned(files[0], serial)
    else FirstFound(files[1..], serial)
  }

  /** Calling get_property_from_dmi_file for each file in turn. */
  function Found(cur: string, files: seq<Option<string>>, serial: bool): (r: string)
    ensures cur != "" ==> r == cur
    ensures |cur| < PROP_VALUE_MAX ==> |r| < PROP_VALUE_MAX
  {
    if cur != "" then cur else FirstFound(files, serial)
  }

  /** One more call of get_property_from_dmi_file moves one file along the list. */
  lemma FoundStep(cur: string, files: seq<Option<string>>, k: nat, serial: bool)
    requires k < |files|
    ensures Found(FromDmi(cur, files[k], serial), files[k + 1..], serial) == Found(cur, files[k..], serial)
  {
    assert files[k..][1..] == files[k + 1..];
  }

  /**
   * The first file with a valid value supplies the property: the result
   * is empty exactly when no file has one, and otherwise it is the value of
   * a file before which every file gave nothing.
   */
  lemma {:induction false} FirstFoundIsFirst(files: seq<Option<string>>, serial: bool)
    ensures var r := FirstFound(files, serial);
      (r == "" <==> forall i :: 0 <= i < |files| ==> Cleaned(files[i], serial) == "") &&
      (r != "" ==> (exists i :: 0 <= i < |files| && r == Cleaned(files[i], serial) &&
                              (forall j :: 0 <= j < i ==> Cleaned(files[j], serial) == "")))
  {
    if files != [] {
      var tail := files[1..];
      FirstFoundIsFirst(tail, serial);
      if Cleaned(files[0], serial) != "" {
        assert FirstFound(files, serial) == Cleaned(files[0], serial);
      } else {
        assert FirstFound(files, serial) == FirstFound(tail, serial);
        if FirstFound(tail, serial) == "" {
          NoneFoundShift(files, serial);
        } else {
          var i :| 0 <= i < |tail| && FirstFound(tail, serial) == Cleaned(tail[i], serial) &&
            forall j :: 0 <= j < i ==> Cleaned(tail[j], serial) == "";
          forall j | 0 <= j < i + 1
            ensures Cleaned(files[j], serial) == ""
          {
            if j > 0 {
              assert Cleaned(tail[j - 1], serial) == "";
              assert files[j] == tail[j - 1];
            }
          }
          assert files[i + 1] == tail[i];
        }
      }
    }
  }

  /** Behind a first file that gives nothing, every file gives nothing exactly when every later one does. */
  lemma NoneFoundShift(files: seq<Option<string>>, serial: bool)
    requires files != [] && Cleaned(files[0], serial) == ""
    ensures (forall i :: 0 <= i < |files| ==> Cleaned(files[i], serial) == "") <==>
            (forall i :: 0 <= i < |files[1..]| ==> Cleaned(files[1..][i], serial) == "")
  {
    var tail := files[1..];
    if forall i :: 0 <= i < |tail| ==> Cleaned(tail[i], serial) == "" {
      forall i | 0 <= i < |files| ensures Cleaned(files[i], serial) == "" {
        if i > 0 {
          assert Cleaned(tail[i - 1], serial) == "";
          assert files[i] == tail[i - 1];
        }
      }
    }
  }

  /** A non-empty cleaned serial number matches [A-Za-z0-9]{6,20}. */
  lemma CleanedSerialShape(file: Option<string>)
    ensures Cleaned(file, true) == "" || SerialShape(Cleaned(file, true))
  {
    if file.Some? && DmiLine(file.value).Some? {
      CleanSerialShape(DmiLine(file.value).value);
    }
  }

  /** After the serial files and check_serialno the serial number always matches [A-Za-z0-9]{6,20}. */
  lemma {:induction false} SerialAlwaysShaped(cur: string, files: seq<Option<string>>)
    requires cur == "" || SerialShape(cur)
    ensures SerialShape(CheckSerial(Found(cur, files, true)))
  {
    FirstFoundIsFirst(files, true);
    if cur == "" && FirstFound(files, true) != "" {
      var i :| 0 <= i < |files| && FirstFound(files, true) == Cleaned(files[i], true) &&
        forall j :: 0 <= j < i ==> Cleaned(files[j], true) == "";
      CleanedSerialShape(files[i]);
    }
  }

  /** IRDA_FISHNAME, the last part of every device name. */
  const IRDA_FISHNAME := "coho"

  /** The board version as get_property_DEVICE uses it: cleaned, and empty for a missing file or a first final revision ("1_0..."). */
  function BoardVersion(file: Option<string>): (v: string)
    ensures |v| < PROP_VALUE_MAX
  {
    var cl := Cleaned(file, false);
    if StartsWith(cl, "1_0") then "" else cl
  }

  /** The sprintf of get_property_DEVICE: board name, board version when there is one, then "coho", joined by '_'. */
  function DeviceAsWritten(name: string, version: string): (r: string)
    ensures |r| == |name| + 1 + |IRDA_FISHNAME| + (if version == "" then 0 else |version| + 1)
    ensures r[..|name|] == name && r[|r| - |IRDA_FISHNAME|..] == IRDA_FISHNAME
  {
    if version == "" then name + "_" + IRDA_FISHNAME else name + "_" + version + "_" + IRDA_FISHNAME
  }

  /** A cleaned board name of 87 characters or more makes that sprintf write more than the PROP_VALUE_MAX-byte buffer holds. */
  lemma DeviceAsWrittenOverflows(name: string, version: string)
    requires |name| >= 87
    ensures |DeviceAsWritten(name, version)| + 1 > PROP_VALUE_MAX
  {
  }

  /** Such board names pass the read and the cleaning unchanged: any lower case text of up to 90 letters on its own line. */
  lemma LongBoardNameKept(name: string)
    requires |name| <= 90 && forall i :: 0 <= i < |name| ==> 'a' <= name[i] <= 'z'
    ensures DmiLine(name + "\n") == Some(name) && CddClean(name) == name
  {
    DmiLineWhole(name);
    CddCleanLower(name);
  }

  /** A line of up to 90 letters is read back without its newline. */
  lemma DmiLineWhole(name: string)
    requires |name| <= 90 && forall i :: 0 <= i < |name| ==> 'a' <= name[i] <= 'z'
    ensures DmiLine(name + "\n") == Some(name)
  {
    var t := name + "\n";
    LineRead(name);
    assert UpToNul(t) == t by {
      assert NoNul(t);
      assert IndexOf(t, NUL).None?;
    }
    assert CutNewline(t) == name by {
      assert t[..|name|] == name;
    }
  }

  /** Lower case letters pass CDD_clean_string unchanged. */
  lemma CddCleanLower(name: string)
    requires forall i :: 0 <= i < |name| ==> 'a' <= name[i] <= 'z'
    ensures CddClean(name) == name
  {
    assert CddMap(name) == name by {
      forall i | 0 <= i < |name| ensures CddMap(name)[i] == name[i] {
        assert CddChar(name[i]) && Lower(name[i]) == name[i];
      }
    }
    assert name == [] || ('a' <= name[|name| - 1] <= 'z');
    assert TrimTail(name) == name;
  }

  /** fgets reads a line of up to 90 letters whole, through its newline. */
  lemma LineRead(name: string)
    requires |name| <= 90 && forall i :: 0 <= i < |name| ==> 'a' <= name[i] <= 'z'
    ensures Fgets(name + "\n", PROP_VALUE_MAX) == Some(name + "\n")
    ensures IndexOf(name + "\n", '\n') == Some(|name|)
  {
    var t := name + "\n";
    assert Take(t, PROP_VALUE_MAX - 1) == t;
    assert t[|name|] == '\n';
    assert IndexOf(t, '\n').value == |name|;
    assert t[..|name| + 1] == t;
  }

  /** The device name with the write bounded by the buffer, as snprintf would: never longer than a property value, and the full name whenever it fits. */
  function DeviceString(name: string, version: string): (r: string)
    ensures |r| < PROP_VALUE_MAX && r <= DeviceAsWritten(name, version)
    ensures |DeviceAsWritten(name, version)| < PROP_VALUE_MAX ==> r == DeviceAsWritten(name, version)
  {
    Take(DeviceAsWritten(name, version), PROP_VALUE_MAX - 1)
  }

  /** get_property_DEVICE: none when board_name is missing, empty or cleans to nothing. */
  function DeviceFromDmi(boardName: Option<string>, boardVersion: Option<string>): (r: Option<string>)
    ensures r.None? <==> Cleaned(boardName, false) == ""
    ensures r.Some? ==> (r.value != "" && |r.value| < PROP_VALUE_MAX &&
                         r.value <= DeviceAsWritten(Cleaned(boardName, false), BoardVersion(boardVersion)))
  {
    var name := Cleaned(boardName, false);
    if name == "" then None else Some(DeviceString(name, BoardVersion(boardVersion)))
  }

  /** memset(buf, 0, PROP_VALUE_MAX) and fgets of a line into it. */
  method LoadBuffer(line: string) returns (buf: array<char>)
    requires |line| < PROP_VALUE_MAX
    ensures fresh(buf) && buf.Length == PROP_VALUE_MAX && buf[buf.Length - 1] == NUL
    ensures CStr(buf[..], 0) == UpToNul(line)
  {
    buf := new char[PROP_VALUE_MAX](i => if 0 <= i < |line| then line[i] else NUL);
    var r := UpToNul(line);
    assert buf[..][0..|r|] == r;
    CStrAt(buf[..], 0, r);
  }

  /** The newline cut, in place. */
  method CutNewlineIn(buf: array<char>)
    requires buf.Length > 0 && buf[buf.Length - 1] == NUL
    modifies buf
    ensures buf[buf.Length - 1] == NUL
    ensures CStr(buf[..], 0) == CutNewline(old(CStr(buf[..], 0)))
  {
    var s := CStr(buf[..], 0);
    var c := IndexOf(s, '\n');
    if c.Some? {
      buf[c.value] := NUL;
      assert buf[..][0..c.value] == s[..c.value];
      CStrAt(buf[..], 0, s[..c.value]);
    }
  }

  // ---------------------------------------------------------------------
  // cached_properties

  const BRAND: nat := 0
  const NAME: nat := 1
  const DEVICE: nat := 2
  const BOOTLOADER: nat := 3
  const SERIAL: nat := 4
  const MODEL: nat := 5

  /** The fingerprint prefix bound of shorten_fingerprint. */
  const FINGERPRINT_PREFIX_MAX := 33

  function PrefixLength(p: seq<string>): nat
    requires |p| == 6
  {
    |p[BRAND]| + |p[NAME]| + |p[DEVICE]|
  }

  function Errored(p: seq<string>): (r: seq<string>)
    requires |p| == 6
  {
    p[DEVICE := "ERROR"][NAME := "ERROR"][BRAND := "ERROR"]
  }

  /** shorten_fingerprint: brand, name and device become "ERROR" when together longer than 33. */
  function Shortened(p: seq<string>): (r: seq<string>)
    requires |p| == 6
    ensures |r| == 6 && PrefixLength(r) <= FINGERPRINT_PREFIX_MAX
    ensures PrefixLength(p) <= FINGERPRINT_PREFIX_MAX ==> r == p
    ensures PrefixLength(p) > FINGERPRINT_PREFIX_MAX ==> r[BRAND] == r[NAME] == r[DEVICE] == "ERROR"
    ensures forall k :: BOOTLOADER <= k < 6 ==> r[k] == p[k]
  {
    if PrefixLength(p) > FINGERPRINT_PREFIX_MAX then Errored(p) else p
  }

  class DmiCache {
    const cached: array<string>

    /** Every property fits its PROP_VALUE_MAX buffer. */
    ghost predicate Valid()
      reads this, cached
    {
      cached.Length == 6 && forall i :: 0 <= i < 6 ==> |cached[i]| < PROP_VALUE_MAX
    }

    /** The static array starts out all empty. */
    constructor ()
      ensures Valid() && fresh(cached) && cached[..] == ["", "", "", "", "", ""]
    {
      cached := new string[6](i => "");
    }

    /** get_property_from_dmi_file. */
    method GetPropertyFromDmiFile(file: Option<string>, propType: nat)
      requires Valid() && propType < 6
      modifies cached
      ensures Valid()
      ensures cached[propType] == FromDmi(old(cached[propType]), file, propType == SERIAL)
      ensures forall i :: 0 <= i < 6 && i != propType ==> cached[i] == old(cached[i])
    {
      if |cached[propType]| != 0 {
        return;
      }
      if file.None? {
        return;
      }
      var v := ReadCleaned(file.value, propType == SERIAL);
      if |v| > 0 {
        cached[propType] := v;
      }
    }

    /** get_property_NAME: product_name, then board_name. */
    method GetPropertyName(dmi: string -> Option<string>)
      requires Valid()
      modifies cached
      ensures Valid()
      ensures cached[NAME] == Found(old(cached[NAME]), NameFiles(dmi), false)
      ensures forall i :: 0 <= i < 6 && i != NAME ==> cached[i] == old(cached[i])
    {
      var files := NameFiles(dmi);
      assert files[0..] == files;
      FoundStep(cached[NAME], files, 0, false);
      GetPropertyFromDmiFile(files[0], NAME);  // product_name
      FoundStep(cached[NAME], files, 1, false);
      GetPropertyFromDmiFile(files[1], NAME);  // board_name
      assert files[2..] == [];
    }

    /** get_property_BRAND: board_vendor, sys_vendor, then product_vendor, and the brand tail chopped. */
    method GetPropertyBrand(dmi: string -> Option<string>)
      requires Valid()
      modifies cached
      ensures Valid()
      ensures cached[BRAND] == ChopBrand(Found(old(cached[BRAND]), BrandFiles(dmi), false))
      ensures forall i :: 0 <= i < 6 && i != BRAND ==> cached[i] == old(cached[i])
    {
      var files := BrandFiles(dmi);
      assert files[0..] == files;
      FoundStep(cached[BRAND], files, 0, false);
      GetPropertyFromDmiFile(files[0], BRAND);  // board_vendor
      FoundStep(cached[BRAND], files, 1, false);
      GetPropertyFromDmiFile(files[1], BRAND);  // sys_vendor
      FoundStep(cached[BRAND], files, 2, false);
      GetPropertyFromDmiFile(files[2], BRAND);  // product_vendor
      assert files[3..] == [];
      ChopBrandTail();
    }

    /** get_property_SERIAL: seven serial and asset fields in turn, then check_serialno. */
    method GetPropertySerial(dmi: string -> Option<string>)
      requires Valid()
      modifies cached
      ensures Valid()
      ensures cached[SERIAL] == CheckSerial(Found(old(cached[SERIAL]), SerialFiles(dmi), true))
      ensures forall i :: 0 <= i < 6 && i != SERIAL ==> cached[i] == old(cached[i])
    {
      var files := SerialFiles(dmi);
      assert files[0..] == files;
      FoundStep(cached[SERIAL], files, 0, true);
      GetPropertyFromDmiFile(files[0], SERIAL);  // product_serial
      FoundStep(cached[SERIAL], files, 1, true);
      GetPropertyFromDmiFile(files[1], SERIAL);  // chassis_serial
      FoundStep(cached[SERIAL], files, 2, true);
      GetPropertyFromDmiFile(files[2], SERIAL);  // board_serial
      FoundStep(cached[SERIAL], files, 3, true);
      GetPropertyFromDmiFile(files[3], SERIAL);  // product_asset_tag
      FoundStep(cached[SERIAL], files, 4, true);
      GetPropertyFromDmiFile(files[4], SERIAL);  // chassis_asset_tag
      FoundStep(cached[SERIAL], files, 5, true);
      GetPropertyFromDmiFile(files[5], SERIAL);  // board_asset_tag
      FoundStep(cached[SERIAL], files, 6, true);
      GetPropertyFromDmiFile(files[6], SERIAL);  // product_uuid
      assert files[7..] == [];
      CheckSerialno();
    }

    /** get_property_DEVICE. */
    method GetPropertyDevice(boardName: Option<string>, boardVersion: Option<string>)
      requires Valid()
      modifies cached
      ensures Valid()
      ensures DeviceFromDmi(boardName, boardVersion).None? ==> cached[..] == old(cached[..])
      ensures DeviceFromDmi(boardName, boardVersion).Some? ==>
        cached[..] == old(cached[..])[DEVICE := DeviceFromDmi(boardName, boardVersion).value]
    {
      if boardName.None? {
        return;
      }
      var name := ReadCleaned(boardName.value, false);
      if |name| == 0 {
        return;
      }
      var version := ReadBoardVersion(boardVersion);
      cached[DEVICE] := DeviceString(name, version);
    }

    /** chop_brand_tail. */
    method ChopBrandTail()
      requires Valid()
      modifies cached
      ensures Valid()
      ensures cached[BRAND] == ChopBrand(old(cached[BRAND]))
      ensures forall i :: 0 <= i < 6 && i != BRAND ==> cached[i] == old(cached[i])
    {
      var brand := cached[BRAND];
      var low := LowerStr(brand);
      if StartsWith(low, "intel") {
        cached[BRAND] := "intel";
        return;
      }
      if StartsWith(low, "asus") {
        cached[BRAND] := "asus";
        return;
      }
      var c := FindSub(low, "_inc");
      if c.Some? {
        cached[BRAND] := brand[..c.value];
        return;
      }
      c := FindSub(low, "_corp");
      if c.Some? {
        cached[BRAND] := brand[..c.value];
        return;
      }
      c := FindSub(low, "_gmbh");
      if c.Some? {
        cached[BRAND] := brand[..c.value];
      }
    }

    /** check_serialno. */
    method CheckSerialno()
      requires Valid()
      modifies cached
      ensures Valid()
      ensures cached[SERIAL] == CheckSerial(old(cached[SERIAL]))
      ensures forall i :: 0 <= i < 6 && i != SERIAL ==> cached[i] == old(cached[i])
    {
      if |cached[SERIAL]| == 0 {
        cached[SERIAL] := "00badbios00badbios00";
      }
    }

    /** shorten_fingerprint. */
    method ShortenFingerprint()
      requires Valid()
      modifies cached
      ensures Valid()
      ensures cached[..] == Shortened(old(cached[..]))
    {
      ghost var p := cached[..];
      while |cached[BRAND]| + |cached[NAME]| + |cached[DEVICE]| > FINGERPRINT_PREFIX_MAX
        invariant Valid()
        invariant cached[..] == p || (cached[..] == Errored(p) && PrefixLength(p) > FINGERPRINT_PREFIX_MAX)
        decreases |cached[BRAND]| + |cached[NAME]| + |cached[DEVICE]|
      {
        assert cached[..] == p;
        var i: int := DEVICE;
        while i >= BRAND
          invariant -1 <= i <= DEVICE && Valid()
          invariant forall k :: 0 <= k < 6 ==> cached[k] == if i < k <= DEVICE then "ERROR" else p[k]
          decreases i + 1
        {
          cached[i] := "ERROR";
          i := i - 1;
        }
        assert cached[..] == Errored(p);
      }
    }
  }

  /** The DMI files get_property_NAME reads, in order. */
  function NameFiles(dmi: string -> Option<string>): seq<Option<string>>
  {
    [dmi("product_name"), dmi("board_name")]
  }

  /** The DMI files get_property_BRAND reads, in order. */
  function BrandFiles(dmi: string -> Option<string>): seq<Option<string>>
  {
    [dmi("board_vendor"), dmi("sys_vendor"), dmi("product_vendor")]
  }

  /** The DMI files get_property_SERIAL reads, in order. */
  function SerialFiles(dmi: string -> Option<string>): seq<Option<string>>
  {
    [dmi("product_serial"), dmi("chassis_serial"), dmi("board_serial"), dmi("product_asset_tag"),
     dmi("chassis_asset_tag"), dmi("board_asset_tag"), dmi("product_uuid")]
  }

  /** fgets into a zeroed buffer, the newline cut and the cleaning; empty when fgets finds nothing. */
  method ReadCleaned(contents: string, serial: bool) returns (v: string)
    ensures v == Cleaned(Some(contents), serial)
  {
    var line := Fgets(contents, PROP_VALUE_MAX);
    if line.None? {
      return "";
    }
    var buf := LoadBuffer(line.value);
    CutNewlineIn(buf);
    ghost var l := CStr(buf[..], 0);
    assert DmiLine(contents) == Some(l);
    if serial {
      CddCleanSerialno(buf);
      assert CStr(buf[..], 0) == CleanSerial(l);
    } else {
      CddCleanString(buf);
      assert CStr(buf[..], 0) == CddClean(l);
    }
    v := CStr(buf[..], 0);
  }

  /** The board_version part of get_property_DEVICE. */
  method ReadBoardVersion(file: Option<string>) returns (v: string)
    ensures v == BoardVersion(file)
  {
    if file.None? {
      return "";
    }
    var line := Fgets(file.value, PROP_VALUE_MAX);
    var buf := LoadBuffer(if line.Some? then line.value else "");
    CutNewlineIn(buf);
    CddCleanString(buf);
    v := CStr(buf[..], 0);
    if StartsWith(v, "1_0") {
      v := "";
    }
  }
}
