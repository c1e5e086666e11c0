// The recovery volume table (libvolumeutils/roots.c): /etc/recovery.fstab
// is read line by line into a growable array whose first entry is always
// the /tmp ramdisk; a path is resolved to the first volume whose mount
// point covers it; mount, unmount, wipe and format check that volume
// before they act.
//
// The file arrives as its contents (none when it cannot be opened). What
// the system calls would report (the list of mounted volumes, which
// devices mount, what a discard, an MTD format or make_ext4fs returns) is
// a System value.

module Roots {
  import opened CStrings

  /** fgets(buffer, sizeof(buffer) - 1, fstab) with a 1024-byte buffer. */
  const LINE_SIZE: nat := 1023

  /** One entry of the table; device is NULL only for the ramdisk. */
  datatype Volume = Volume(mountPoint: string, fsType: string, device: Option<string>,
                           device2: Option<string>, length: int)

  /** The entry the table starts with. */
  function TmpVolume(): (v: Volume)
    ensures v.mountPoint == "/tmp" && v.fsType == "ramdisk" && v.device.None? && v.device2.None? && v.length == 0
  {
    Volume("/tmp", "ramdisk", None, None, 0)
  }

  // ---------------------------------------------------------------------
  // parse_options

  const LLONG_MIN: int := -0x8000_0000_0000_0000
  const LLONG_MAX: int := 0x7fff_ffff_ffff_ffff

  /** strtoll in base 10: the number atoi reads, saturated at the limits of long long. */
  function Strtoll(s: string): (n: int)
    ensures LLONG_MIN <= n <= LLONG_MAX
    ensures LLONG_MIN <= Atoi(s) <= LLONG_MAX <==> n == Atoi(s)
    ensures Atoi(s) > LLONG_MAX ==> n == LLONG_MAX
    ensures Atoi(s) < LLONG_MIN ==> n == LLONG_MIN
  {
    var v := Atoi(s);
    if v > LLONG_MAX then LLONG_MAX else if v < LLONG_MIN then LLONG_MIN else v
  }

  /** The options left to right: each must be "length=<n>", and the last one wins. */
  function LengthOf(opts: seq<string>, len: int): (r: Option<int>)
    ensures LLONG_MIN <= len <= LLONG_MAX && r.Some? ==> LLONG_MIN <= r.value <= LLONG_MAX
    ensures opts == [] ==> r == Some(len)
  {
    if opts == [] then Some(len)
    else if StartsWith(opts[0], "length=") then LengthOf(opts[1..], Strtoll(opts[0][7..]))
    else None
  }

  /** parse_options: the length the options set, none when they are absent or one is not "length=". */
  function OptionsLength(options: Option<string>): (r: Option<int>)
    ensures r.Some? ==> options.Some? && LLONG_MIN <= r.value <= LLONG_MAX
  {
    if options.None? then None else LengthOf(Tokens(options.value, {','}), 0)
  }

  /** parse_options accepts the options exactly when every one of them starts with "length=". */
  lemma {:induction false} LengthOfAccepts(opts: seq<string>, len: int)
    ensures LengthOf(opts, len).Some? <==> forall i :: 0 <= i < |opts| ==> StartsWith(opts[i], "length=")
    decreases |opts|
  {
    if opts != [] && StartsWith(opts[0], "length=") {
      var tail := opts[1..];
      LengthOfAccepts(tail, Strtoll(opts[0][7..]));
      assert forall i :: 1 <= i < |opts| ==> opts[i] == tail[i - 1];
    }
  }

  /** The length is the number after the last option, or the starting length when there is none. */
  lemma {:induction false} LengthOfLast(opts: seq<string>, len: int)
    ensures LengthOf(opts, len).Some? && opts == [] ==> LengthOf(opts, len).value == len
    ensures LengthOf(opts, len).Some? && opts != [] ==>
      StartsWith(opts[|opts| - 1], "length=") && LengthOf(opts, len).value == Strtoll(opts[|opts| - 1][7..])
    decreases |opts|
  {
    if opts != [] && StartsWith(opts[0], "length=") {
      var tail := opts[1..];
      LengthOfLast(tail, Strtoll(opts[0][7..]));
      if tail != [] {
        assert opts[|opts| - 1] == tail[|tail| - 1];
      }
    }
  }

  /** The parse_options loop; the length starts at 0, as load_volume_table sets it. */
  method ParseOptions(options: Option<string>) returns (r: int, length: int)
    ensures r == 0 || r == -1
    ensures r == 0 <==> OptionsLength(options).Some?
    ensures r == 0 ==> length == OptionsLength(options).value
  {
    length := 0;
    if options.None? {
      return -1, length;
    }
    var opts := Tokens(options.value, {','});
    var i := 0;
    while i < |opts|
      invariant 0 <= i <= |opts|
      invariant LengthOf(opts[i..], length) == LengthOf(opts, 0)
    {
      assert opts[i..][1..] == opts[i + 1..];
      if StartsWith(opts[i], "length=") {
        length := Strtoll(opts[i][7..]);
      } else {
        return -1, length;
      }
      i := i + 1;
    }
    return 0, length;
  }

  // ---------------------------------------------------------------------
  // One line of recovery.fstab

  datatype Line = Blank | Malformed | Entry(volume: Volume)

  function Fields(s: string): seq<string> { Tokens(s, {' ', '\t', '\n'}) }

  /**
   * The fields are device, mount point, fs type, an ignored fourth field,
   * and then either a second device (starting with '/') followed by the
   * options, or the options.
   */
  function SecondDevice(f: seq<string>): Option<string>
  {
    if |f| >= 5 && IsPath(f[4]) then Some(f[4]) else None
  }

  function OptionsField(f: seq<string>): Option<string>
  {
    if |f| < 5 then None
    else if IsPath(f[4]) then (if |f| >= 6 then Some(f[5]) else None)
    else Some(f[4])
  }

  predicate IsPath(s: string) { s != [] && s[0] == '/' }

  /** The loop body of load_volume_table for the piece one fgets call returns. */
  function ParseLine(piece: string): (l: Line)
    ensures l.Entry? ==> (l.volume.device.Some? && l.volume.device.value != [] && l.volume.mountPoint != [] &&
                          l.volume.fsType != [] && LLONG_MIN <= l.volume.length <= LLONG_MAX)
    ensures l.Entry? && l.volume.device2.Some? ==> IsPath(l.volume.device2.value)
  {
    var t := SkipSpaces(UpToNul(piece));
    if t == [] || t[0] == '#' then Blank
    else
      var f := Fields(t);
      if |f| < 3 then Malformed
      else match OptionsLength(OptionsField(f))
        case None => Malformed
        case Some(len) => Entry(Volume(f[1], f[2], Some(f[0]), SecondDevice(f), len))
  }

  /** An empty line, or one whose first non-blank character is '#', is skipped. */
  lemma ParseLineBlank(piece: string)
    ensures var t := SkipSpaces(UpToNul(piece));
      ParseLine(piece).Blank? <==> t == [] || t[0] == '#'
  {
  }

  /**
   * A line is an entry exactly when it has a device, a mount point, a fs
   * type, a fourth field and options that parse_options accepts.
   */
  lemma ParseLineEntry(piece: string)
    ensures var t := SkipSpaces(UpToNul(piece));
      ParseLine(piece).Entry? <==>
        !(t == [] || t[0] == '#') && |Fields(t)| >= 5 && OptionsLength(OptionsField(Fields(t))).Some?
  {
    var t := SkipSpaces(UpToNul(piece));
    if t == [] || t[0] == '#' {
      assert ParseLine(piece) == Blank;
    } else {
      var f := Fields(t);
      if |f| < 3 {
        assert ParseLine(piece) == Malformed && OptionsField(f).None?;
      } else {
        var o := OptionsLength(OptionsField(f));
        if o.Some? {
          assert ParseLine(piece) == Entry(Volume(f[1], f[2], Some(f[0]), SecondDevice(f), o.value));
          assert OptionsField(f).Some? && |f| >= 5;
        } else {
          assert ParseLine(piece) == Malformed;
        }
      }
    }
  }

  /**
   * The fields of an entry: the fifth is the second device when it starts
   * with '/' (the options are then the sixth), and the options otherwise.
   */
  lemma ParseLineFields(piece: string)
    requires ParseLine(piece).Entry?
    ensures var f := Fields(SkipSpaces(UpToNul(piece)));
      var v := ParseLine(piece).volume;
      |f| >= 5 && v.device == Some(f[0]) && v.mountPoint == f[1] && v.fsType == f[2] &&
      (IsPath(f[4]) ==> v.device2 == Some(f[4]) && |f| >= 6 && OptionsLength(Some(f[5])) == Some(v.length)) &&
      (!IsPath(f[4]) ==> v.device2.None? && OptionsLength(Some(f[4])) == Some(v.length))
  {
    var t := SkipSpaces(UpToNul(piece));
    var f := Fields(t);
    assert !(t == [] || t[0] == '#') && |f| >= 3;
    var o := OptionsLength(OptionsField(f));
    assert o.Some? && ParseLine(piece) == Entry(Volume(f[1], f[2], Some(f[0]), SecondDevice(f), o.value));
    assert OptionsField(f).Some? && |f| >= 5;
    if IsPath(f[4]) {
      assert OptionsField(f) == Some(f[5]);
    } else {
      assert OptionsField(f) == Some(f[4]);
    }
  }

  // ---------------------------------------------------------------------
  // The whole file

  /** The successive pieces fgets returns. */
  function Pieces(contents: string): (r: seq<string>)
    decreases |contents|
  {
    match Fgets(contents, LINE_SIZE)
    case None => []
    case Some(p) => [p] + Pieces(contents[|p|..])
  }

  /** The volumes the pieces add, in order. */
  function Entries(pieces: seq<string>): (vs: seq<Volume>)
    ensures |vs| <= |pieces|
    ensures forall i :: 0 <= i < |vs| ==> vs[i].device.Some?
  {
    if pieces == [] then []
    else
      Entries(pieces[..|pieces| - 1]) + Added(pieces[|pieces| - 1])
  }

  /** The volume a piece adds, if any. */
  function Added(piece: string): (vs: seq<Volume>)
    ensures |vs| <= 1 && (vs != [] ==> vs[0].device.Some?)
  {
    var line := ParseLine(piece);
    if line.Entry? then [line.volume] else []
  }

  /** load_volume_table: the ramdisk, then an entry for each valid line. */
  function LoadTable(fstab: Option<string>): (vs: seq<Volume>)
    ensures |vs| >= 1 && vs[0] == TmpVolume()
    ensures forall i :: 1 <= i < |vs| ==> vs[i].device.Some?
  {
    [TmpVolume()] + (if fstab.None? then [] else Entries(Pieces(fstab.value)))
  }

  /** The pieces read back, in order, are the file. */
  lemma {:induction false} PiecesConcat(contents: string)
    ensures Concat(Pieces(contents)) == contents
    decreases |contents|
  {
    if contents != [] {
      PiecesStep(contents);
      var p := Fgets(contents, LINE_SIZE).value;
      var rest := contents[|p|..];
      PiecesConcat(rest);
      ConcatCons(p, Pieces(rest));
      assert p + rest == contents;
    }
  }

  lemma ConcatCons(p: string, ps: seq<string>)
    ensures Concat([p] + ps) == p + Concat(ps)
  {
    assert ([p] + ps)[1..] == ps;
  }

  /** Every piece holds at least one character and at most LINE_SIZE - 1. */
  lemma {:induction false} PiecesBounded(contents: string)
    ensures forall i :: 0 <= i < |Pieces(contents)| ==> 0 < |Pieces(contents)[i]| <= LINE_SIZE - 1
    decreases |contents|
  {
    if contents != [] {
      PiecesStep(contents);
      var p := Fgets(contents, LINE_SIZE).value;
      var rest := contents[|p|..];
      PiecesBounded(rest);
      var ps := Pieces(contents);
      forall i | 0 <= i < |ps|
        ensures 0 < |ps[i]| <= LINE_SIZE - 1
      {
        if i > 0 {
          assert ps[i] == Pieces(rest)[i - 1];
        }
      }
    }
  }

  function Concat(ps: seq<string>): string
  {
    if ps == [] then [] else ps[0] + Concat(ps[1..])
  }

  /** Every entry after the ramdisk comes from a line that parses to it. */
  lemma {:induction false} EntriesFromLines(pieces: seq<string>)
    ensures forall v :: v in Entries(pieces) ==> exists i :: 0 <= i < |pieces| && ParseLine(pieces[i]) == Entry(v)
    ensures |Entries(pieces)| <= |pieces|
    decreases |pieces|
  {
    if pieces != [] {
      var init := pieces[..|pieces| - 1];
      EntriesFromLines(init);
      forall v | v in Entries(pieces)
        ensures exists i :: 0 <= i < |pieces| && ParseLine(pieces[i]) == Entry(v)
      {
        if v in Entries(init) {
          var i :| 0 <= i < |init| && ParseLine(init[i]) == Entry(v);
          assert pieces[i] == init[i];
        } else {
          assert ParseLine(pieces[|pieces| - 1]) == Entry(v);
        }
      }
    }
  }

  /** The table always starts with the ramdisk, whatever the file holds. */
  lemma LoadTableStartsWithTmp(fstab: Option<string>)
    ensures |LoadTable(fstab)| >= 1 && LoadTable(fstab)[0] == TmpVolume()
    ensures fstab.None? ==> LoadTable(fstab) == [TmpVolume()]
    ensures fstab.Some? ==> |LoadTable(fstab)| <= 1 + |Pieces(fstab.value)|
  {
    if fstab.Some? {
      EntriesFromLines(Pieces(fstab.value));
    }
  }

  lemma PiecesStep(contents: string)
    requires contents != []
    ensures var p := Fgets(contents, LINE_SIZE).value;
      0 < |p| <= |contents| && Pieces(contents) == [p] + Pieces(contents[|p|..])
  {
  }

  lemma EntriesSnoc(pieces: seq<string>, piece: string)
    ensures Entries(pieces + [piece]) == Entries(pieces) + Added(piece)
  {
    assert (pieces + [piece])[..|pieces|] == pieces;
  }

  // ---------------------------------------------------------------------
  // volume_for_path

  /** The mount point is the path, or a prefix of it followed by '/'. */
  predicate Covers(mountPoint: string, path: string)
  {
    StartsWith(path, mountPoint) && (|path| == |mountPoint| || path[|mountPoint|] == '/')
  }

  /** The first volume from i on that covers the path. */
  function FirstCovering(vs: seq<Volume>, path: string, i: nat): (r: Option<nat>)
    requires i <= |vs|
    ensures r.Some? ==> i <= r.value < |vs| && Covers(vs[r.value].mountPoint, path)
    decreases |vs| - i
  {
    if i == |vs| then None
    else if Covers(vs[i].mountPoint, path) then Some(i)
    else FirstCovering(vs, path, i + 1)
  }

  /** volume_for_path: none for a NULL path. */
  function VolumeFor(vs: seq<Volume>, path: Option<string>): (r: Option<nat>)
    ensures r.Some? ==> path.Some? && r.value < |vs| && Covers(vs[r.value].mountPoint, path.value)
  {
    if path.None? then None else FirstCovering(vs, path.value, 0)
  }

  /** The volume found is the first that covers the path; none means no volume covers it. */
  lemma {:induction false} FirstCoveringFirst(vs: seq<Volume>, path: string, i: nat)
    requires i <= |vs|
    ensures FirstCovering(vs, path, i).Some? ==>
      forall j :: i <= j < FirstCovering(vs, path, i).value ==> !Covers(vs[j].mountPoint, path)
    ensures FirstCovering(vs, path, i).None? <==> forall j :: i <= j < |vs| ==> !Covers(vs[j].mountPoint, path)
    decreases |vs| - i
  {
    if i < |vs| {
      FirstCoveringFirst(vs, path, i + 1);
    }
  }

  /** "/system" covers "/system" and "/system/bin" but not "/systemx". */
  lemma CoversBoundary()
    ensures Covers("/system", "/system") && Covers("/system", "/system/bin")
    ensures !Covers("/system", "/systemx") && !Covers("/system", "/sys")
  {
    assert "/systemx"[7] == 'x';
  }

  // ---------------------------------------------------------------------
  // The table as the program holds it

  class VolumeTable {
    var vols: array<Volume>
    var num: int

    /** num_volumes never exceeds the allocated size. */
    predicate Valid()
      reads this
    {
      0 <= num <= vols.Length && vols.Length >= 2
    }

    function Volumes(): seq<Volume>
      reads this, vols
      requires Valid()
    {
      vols[..num]
    }

    /** load_volume_table. */
    constructor Load(fstab: Option<string>)
      ensures Valid() && Volumes() == LoadTable(fstab)
    {
      vols := new Volume[2](_ => TmpVolume());
      num := 1;
      new;
      assert Volumes() == [TmpVolume()];
      if fstab.Some? {
        LoadLines(fstab.value);
      }
    }

    /** The fgets loop of load_volume_table. */
    method LoadLines(contents: string)
      requires Valid()
      modifies this, vols
      ensures Valid() && Volumes() == old(Volumes()) + Entries(Pieces(contents))
    {
      var rest := contents;
      ghost var seen: seq<string> := [];
      while rest != []
        invariant Valid() && (vols == old(vols) || fresh(vols))
        invariant Pieces(contents) == seen + Pieces(rest)
        invariant Volumes() == old(Volumes()) + Entries(seen)
        decreases |rest|
      {
        rest, seen := LoadPiece(contents, rest, seen, old(Volumes()));
      }
      assert Pieces(rest) == [];
      assert seen + [] == seen;
    }

    /** One fgets call and its line. */
    method LoadPiece(ghost contents: string, rest: string, ghost seen: seq<string>, ghost base: seq<Volume>)
      returns (rest': string, ghost seen': seq<string>)
      requires Valid() && rest != []
      requires Pieces(contents) == seen + Pieces(rest) && Volumes() == base + Entries(seen)
      modifies this, vols
      ensures Valid() && (vols == old(vols) || fresh(vols)) && |rest'| < |rest|
      ensures Pieces(contents) == seen' + Pieces(rest') && Volumes() == base + Entries(seen')
    {
      var piece := Fgets(rest, LINE_SIZE).value;
      PiecesStep(rest);
      AddLine(piece);
      EntriesSnoc(seen, piece);
      Assoc(base, Entries(seen), Added(piece));
      Assoc(seen, [piece], Pieces(rest[|piece|..]));
      seen' := seen + [piece];
      rest' := rest[|piece|..];
    }

    /** The loop body of load_volume_table for one piece. */
    method AddLine(piece: string)
      requires Valid()
      modifies this, vols
      ensures Valid() && (vols == old(vols) || fresh(vols))
      ensures Volumes() == old(Volumes()) + Added(piece)
    {
      var t := SkipSpaces(UpToNul(piece));
      if t == [] || t[0] == '#' {
        assert ParseLine(piece) == Blank;
        return;
      }
      var f := Fields(t);
      if |f| < 3 {
        assert ParseLine(piece) == Malformed;
        return;
      }
      StoreFields(f);
      assert ParseLine(piece) == (match OptionsLength(OptionsField(f))
        case None => Malformed
        case Some(len) => Entry(Volume(f[1], f[2], Some(f[0]), SecondDevice(f), len)));
    }

    /** A line with at least three fields: the slot is filled, and kept when the options parse. */
    method StoreFields(f: seq<string>)
      requires Valid() && |f| >= 3
      modifies this, vols
      ensures Valid() && (vols == old(vols) || fresh(vols))
      ensures Volumes() == old(Volumes()) + match OptionsLength(OptionsField(f))
        case None => []
        case Some(len) => [Volume(f[1], f[2], Some(f[0]), SecondDevice(f), len)]
    {
      Reserve();
      var r, length := ParseOptions(OptionsField(f));
      var v := Volume(f[1], f[2], Some(f[0]), SecondDevice(f), length);
      vols[num] := v;
      if r == 0 {
        num := num + 1;
        assert Volumes() == old(Volumes()) + [v];
      }
    }

    /** Doubling the allocation while the table is full. */
    method Reserve()
      requires Valid()
      modifies this
      ensures Valid() && num < vols.Length && num == old(num)
      ensures Volumes() == old(Volumes())
      ensures vols == old(vols) || fresh(vols)
    {
      while num >= vols.Length
        invariant Valid() && num == old(num) && Volumes() == old(Volumes())
        invariant vols == old(vols) || fresh(vols)
        decreases num - vols.Length
      {
        var grown := new Volume[2 * vols.Length](_ => TmpVolume());
        var i := 0;
        while i < num
          invariant 0 <= i <= num <= vols.Length < grown.Length
          invariant grown[..i] == vols[..i]
          modifies grown
        {
          grown[i] := vols[i];
          i := i + 1;
        }
        assert grown[..num] == vols[..num];
        vols := grown;
      }
    }

    /** volume_for_path: the index of the volume, as the pointer into the table. */
    method VolumeForPath(path: Option<string>) returns (r: Option<nat>)
      requires Valid()
      ensures r == VolumeFor(Volumes(), path)
    {
      if path.None? {
        return None;
      }
      var i := 0;
      while i < num
        invariant 0 <= i <= num
        invariant FirstCovering(Volumes(), path.value, 0) == FirstCovering(Volumes(), path.value, i)
      {
        if Covers(vols[i].mountPoint, path.value) {
          return Some(i);
        }
        i := i + 1;
      }
      return None;
    }
  }

  // ---------------------------------------------------------------------
  // The checks before mounting, unmounting, wiping and formatting

  /**
   * What the system would answer: whether scan_mounted_volumes succeeds
   * and which mount points it lists, which devices mount, which MTD
   * partitions exist and what mounting or formatting one returns, what
   * unmounting returns, which devices open, and what a discard and
   * make_ext4fs return.
   */
  datatype System = System(scanOk: bool, mounted: set<string>, mountable: set<string>,
                           mtdParts: set<string>, mtdMountResult: int, unmountResult: int,
                           openable: set<string>, discardResult: int, mtdFormatOk: bool, ext4Result: int)

  /**
   * The result of ensure_path_mounted, the directories it asked mkdir for
   * (their results are ignored) and the devices it tried, in order.
   */
  datatype Mounting = Mounting(ret: int, made: seq<string>, tried: seq<string>)

  /** The device mount() is given, first and then the fallback. */
  function TryMount(v: Volume, sys: System): (m: Mounting)
    ensures m.made == [] && 1 <= |m.tried| <= 2
    ensures m.ret == 0 <==> m.tried[|m.tried| - 1] in sys.mountable
  {
    var dev := if v.device.Some? then v.device.value else "";
    if dev in sys.mountable then Mounting(0, [], [dev])
    else if v.device2.Some? then Mounting(if v.device2.value in sys.mountable then 0 else -1, [], [dev, v.device2.value])
    else Mounting(-1, [], [dev])
  }

  /** ensure_path_mounted. */
  function EnsureMounted(vs: seq<Volume>, path: Option<string>, sys: System): (m: Mounting)
    ensures VolumeFor(vs, path).None? ==> m == Mounting(-1, [], [])
    ensures (VolumeFor(vs, path).Some? && vs[VolumeFor(vs, path).value].fsType == "ramdisk") ==> m == Mounting(0, [], [])
    ensures |m.tried| <= 2 && (|m.tried| == 2 ==> m.tried[0] !in sys.mountable)
    ensures m.tried != [] ==> (m.ret == 0 <==> m.tried[|m.tried| - 1] in sys.mountable)
    ensures m.made != [] <==> (VolumeFor(vs, path).Some? && vs[VolumeFor(vs, path).value].fsType != "ramdisk" &&
                               sys.scanOk && vs[VolumeFor(vs, path).value].mountPoint !in sys.mounted)
    ensures m.made != [] ==> m.made == ["/mnt", vs[VolumeFor(vs, path).value].mountPoint]
    ensures m.tried != [] ==> m.made != []
  {
    match VolumeFor(vs, path)
    case None => Mounting(-1, [], [])
    case Some(i) =>
      var v := vs[i];
      var made := ["/mnt", v.mountPoint];
        if v.fsType == "ramdisk" then Mounting(0, [], [])
        else if !sys.scanOk then Mounting(-1, [], [])
        else if v.mountPoint in sys.mounted then Mounting(0, [], [])
        else if v.fsType == "yaffs2" then
          Mounting(if v.device.Some? && v.device.value in sys.mtdParts then sys.mtdMountResult else -1, made, [])
        else if v.fsType == "ext4" || v.fsType == "vfat" then TryMount(v, sys).(made := made)
        else Mounting(-1, made, [])
  }

  /** ensure_path_unmounted. */
  function EnsureUnmounted(vs: seq<Volume>, path: Option<string>, sys: System): (r: int)
    ensures VolumeFor(vs, path).None? ==> r == -1
    ensures (VolumeFor(vs, path).Some? && vs[VolumeFor(vs, path).value].fsType == "ramdisk") ==> r == -1
    ensures r != -1 && r != sys.unmountResult ==> r == 0
  {
    match VolumeFor(vs, path)
    case None => -1
    case Some(i) =>
      var v := vs[i];
        if v.fsType == "ramdisk" then -1
        else if !sys.scanOk then -1
        else if v.mountPoint !in sys.mounted then 0
        else sys.unmountResult
  }

  /** The result of wipe_volume and whether a discard was issued. */
  datatype Wiping = Wiping(ret: int, discarded: bool)

  /** wipe_volume: only an eMMC device (named "mmcblk…") is discarded. */
  function Wipe(vs: seq<Volume>, volume: Option<string>, sys: System): (w: Wiping)
    ensures VolumeFor(vs, volume).None? ==> w == Wiping(-1, false)
    ensures w.discarded ==> (var v := vs[VolumeFor(vs, volume).value];
                             v.device.Some? && Contains(v.device.value, "mmcblk"))
    ensures w.ret == 0 && !w.discarded ==> (var v := vs[VolumeFor(vs, volume).value];
                             v.device.Some? && v.device.value in sys.openable && !Contains(v.device.value, "mmcblk"))
    ensures w.discarded ==> w.ret == (if sys.discardResult < 0 then -1 else sys.discardResult)
    ensures VolumeFor(vs, volume).Some? ==> (var v := vs[VolumeFor(vs, volume).value];
                             (v.device.None? || v.device.value !in sys.openable) ==> w == Wiping(-1, false))
    ensures VolumeFor(vs, volume).Some? ==> (var v := vs[VolumeFor(vs, volume).value];
                             v.device.Some? && v.device.value in sys.openable && !Contains(v.device.value, "mmcblk") ==>
                             w == Wiping(0, false))
    ensures VolumeFor(vs, volume).Some? ==> (var v := vs[VolumeFor(vs, volume).value];
                             v.device.Some? && v.device.value in sys.openable && Contains(v.device.value, "mmcblk") ==>
                             w.discarded)
  {
    match VolumeFor(vs, volume)
    case None => Wiping(-1, false)
    case Some(i) =>
      var v := vs[i];
        if v.device.None? || v.device.value !in sys.openable then Wiping(-1, false)
        else if !Contains(v.device.value, "mmcblk") then Wiping(0, false)
        else Wiping(if sys.discardResult < 0 then -1 else sys.discardResult, true)
  }

  /** What format_volume did last: nothing, an MTD erase, a wipe, or a wipe and make_ext4fs. */
  datatype FormatAction = NoAction | MtdErase | WipeOnly | WipeAndExt4

  datatype Formatting = Formatting(ret: int, action: FormatAction)

  /** format_volume. */
  function Format(vs: seq<Volume>, volume: Option<string>, sys: System): (f: Formatting)
    ensures f.ret == 0 ==> (volume.Some? && VolumeFor(vs, volume).Some? &&
                            var v := vs[VolumeFor(vs, volume).value];
                            v.fsType != "ramdisk" && v.mountPoint == volume.value &&
                            EnsureUnmounted(vs, volume, sys) == 0)
    ensures f.action != NoAction ==> EnsureUnmounted(vs, volume, sys) == 0
    ensures f.action == WipeAndExt4 ==> Wipe(vs, volume, sys).ret >= 0
  {
    match VolumeFor(vs, volume)
    case None => Formatting(-1, NoAction)
    case Some(i) =>
      var v := vs[i];
        if v.fsType == "ramdisk" then Formatting(-1, NoAction)
        else if v.mountPoint != volume.value then Formatting(-1, NoAction)
        else if EnsureUnmounted(vs, volume, sys) != 0 then Formatting(-1, NoAction)
        else if v.fsType == "yaffs2" || v.fsType == "mtd" then
          if v.device.Some? && v.device.value in sys.mtdParts && sys.mtdFormatOk then Formatting(0, MtdErase)
          else Formatting(-1, MtdErase)
        else if Wipe(vs, volume, sys).ret < 0 then Formatting(-1, WipeOnly)
        else if v.fsType == "emmc" then Formatting(0, WipeOnly)
        else if v.fsType == "ext4" then Formatting(if sys.ext4Result != 0 then -1 else 0, WipeAndExt4)
        else Formatting(-1, WipeOnly)
  }

  /** Neither mount nor unmount accepts a path no volume covers; the ramdisk is always mounted and never unmounted. */
  lemma GuardsAgree(vs: seq<Volume>, path: Option<string>, sys: System)
    ensures VolumeFor(vs, path).None? ==> EnsureMounted(vs, path, sys).ret == -1 && EnsureUnmounted(vs, path, sys) == -1
    ensures VolumeFor(vs, path).Some? && vs[VolumeFor(vs, path).value].fsType == "ramdisk" ==>
      EnsureMounted(vs, path, sys).ret == 0 && EnsureUnmounted(vs, path, sys) == -1 &&
      Format(vs, path, sys).ret == -1
  {
    if VolumeFor(vs, path).Some? {
      FirstCoveringFirst(vs, path.value, 0);
    }
  }
}
