// init/devices.c: ueventd's device manager. It decodes kernel uevents,
// keeps the permission rules, the platform-bus registry, the module
// argument table and the deferred module-loading queue, and turns each
// event into device nodes and links under /dev.
//
// Effects on the system (mknod, chown, chmod, setegid, mkdir, symlinks,
// unlink, module probing) are recorded in an ordered log. fnmatch is the
// simplified glob of CStrings; sanitize, the result of insmod_by_dep and the
// alias resolution inside get_mod_args are parameters.

module Devices {
  import opened CStrings
  import opened UeventWire
  import ProbeModule

  const DEVPATH_MAX: nat := 95     // char devpath[96]
  const MAX_NAME: nat := 64        // parse_device_name(uevent, 64)
  const SYSFS_BUF: nat := 512      // char buf[512] in fixup_sys_perms
  const MOD_ARGS_MAX: nat := 1023  // char tmp_mod_args[1024]
  const LINK_PATH_MAX: nat := 255  // char link_path[256]
  const S_IFBLK: bv32 := 0x6000
  const S_IFCHR: bv32 := 0x2000
  const AID_ROOT: nat := 0
  const DEFAULT_PERM: bv32 := 0x180  // 0600

  // ---------------------------------------------------------------------
  // The uevent record and parse_event

  datatype Uevent = Uevent(
    action: string, path: string, subsystem: string, firmware: string,
    major: int, minor: int,
    partitionName: Option<string>, partitionNum: int,
    deviceName: Option<string>, modalias: Option<string>, country: string)

  /** The record before any field of the message has been seen. */
  const NoEvent := Uevent("", "", "", "", -1, -1, None, -1, None, None, "")

  datatype Key =
    | KeyAction | KeyDevPath | KeySubsystem | KeyFirmware | KeyMajor | KeyMinor
    | KeyPartN | KeyPartName | KeyDevName | KeyCountry | KeyModAlias

  function KeyText(k: Key): string
  {
    match k
    case KeyAction => "ACTION="
    case KeyDevPath => "DEVPATH="
    case KeySubsystem => "SUBSYSTEM="
    case KeyFirmware => "FIRMWARE="
    case KeyMajor => "MAJOR="
    case KeyMinor => "MINOR="
    case KeyPartN => "PARTN="
    case KeyPartName => "PARTNAME="
    case KeyDevName => "DEVNAME="
    case KeyCountry => "COUNTRY="
    case KeyModAlias => "MODALIAS="
  }

  /** The keys in the order parse_event's if-chain tries them. */
  const KEY_ORDER: seq<Key> := [KeyAction, KeyDevPath, KeySubsystem, KeyFirmware, KeyMajor, KeyMinor,
                                KeyPartN, KeyPartName, KeyDevName, KeyCountry, KeyModAlias]

  /** The key a message string starts with, or None for a string parse_event skips. */
  function KeyOf(f: string): Option<Key>
  {
    FirstKey(f, KEY_ORDER, KeyText)
  }

  function SetField(ev: Uevent, k: Key, v: string): Uevent
  {
    match k
    case KeyAction => ev.(action := v)
    case KeyDevPath => ev.(path := v)
    case KeySubsystem => ev.(subsystem := v)
    case KeyFirmware => ev.(firmware := v)
    case KeyMajor => ev.(major := Atoi(v))
    case KeyMinor => ev.(minor := Atoi(v))
    case KeyPartN => ev.(partitionNum := Atoi(v))
    case KeyPartName => ev.(partitionName := Some(v))
    case KeyDevName => ev.(deviceName := Some(v))
    case KeyCountry => ev.(country := v)
    case KeyModAlias => ev.(modalias := Some(v))
  }

  /** One step of parse_event: a known key sets its field, anything else is skipped. */
  function ApplyField(ev: Uevent, f: string): Uevent
  {
    match KeyOf(f)
    case None => ev
    case Some(k) => SetField(ev, k, f[|KeyText(k)|..])
  }

  /** The fields applied in message order. */
  function Decode(ev: Uevent, fs: seq<string>): Uevent
  {
    FoldFields(ApplyField, ev, fs)
  }

  /** The value of the last string of the message that carries key k. */
  function LastValue(fs: seq<string>, k: Key): Option<string>
  {
    if fs == [] then None
    else if KeyOf(fs[|fs| - 1]) == Some(k) then Some(fs[|fs| - 1][|KeyText(k)|..])
    else LastValue(fs[..|fs| - 1], k)
  }

  function TextOr(v: Option<string>, d: string): string
  {
    if v.Some? then v.value else d
  }

  function NumberOr(v: Option<string>, d: int): int
  {
    if v.Some? then Atoi(v.value) else d
  }

  /**
   * The reference reading of a message: every field holds the value of the
   * last string carrying its key, or its default when there is none.
   */
  function EventOf(fs: seq<string>): Uevent
  {
    Uevent(
      TextOr(LastValue(fs, KeyAction), ""), TextOr(LastValue(fs, KeyDevPath), ""),
      TextOr(LastValue(fs, KeySubsystem), ""), TextOr(LastValue(fs, KeyFirmware), ""),
      NumberOr(LastValue(fs, KeyMajor), -1), NumberOr(LastValue(fs, KeyMinor), -1),
      LastValue(fs, KeyPartName), NumberOr(LastValue(fs, KeyPartN), -1),
      LastValue(fs, KeyDevName), LastValue(fs, KeyModAlias),
      TextOr(LastValue(fs, KeyCountry), ""))
  }

  lemma LastValueSnoc(fs: seq<string>, f: string, k: Key)
    ensures LastValue(fs + [f], k) == if KeyOf(f) == Some(k) then Some(f[|KeyText(k)|..]) else LastValue(fs, k)
  {
    var gs := fs + [f];
    assert gs[..|gs| - 1] == fs;
    assert gs[|gs| - 1] == f;
  }

  lemma EventOfSnoc(fs: seq<string>, f: string)
    ensures EventOf(fs + [f]) == ApplyField(EventOf(fs), f)
  {
    LastValueSnoc(fs, f, KeyAction);
    LastValueSnoc(fs, f, KeyDevPath);
    LastValueSnoc(fs, f, KeySubsystem);
    LastValueSnoc(fs, f, KeyFirmware);
    LastValueSnoc(fs, f, KeyMajor);
    LastValueSnoc(fs, f, KeyMinor);
    LastValueSnoc(fs, f, KeyPartN);
    LastValueSnoc(fs, f, KeyPartName);
    LastValueSnoc(fs, f, KeyDevName);
    LastValueSnoc(fs, f, KeyCountry);
    LastValueSnoc(fs, f, KeyModAlias);
    match KeyOf(f)
    case None =>
    case Some(k) =>
      match k
      case KeyAction =>
      case KeyDevPath =>
      case KeySubsystem =>
      case KeyFirmware =>
      case KeyMajor =>
      case KeyMinor =>
      case KeyPartN =>
      case KeyPartName =>
      case KeyDevName =>
      case KeyCountry =>
      case KeyModAlias =>
  }

  /** Applying the strings in order keeps the last value of each key and the defaults otherwise. */
  lemma {:induction false} DecodeIsLastValue(fs: seq<string>)
    ensures Decode(NoEvent, fs) == EventOf(fs)
    decreases |fs|
  {
    if fs != [] {
      var init := fs[..|fs| - 1];
      var f := fs[|fs| - 1];
      assert fs == init + [f];
      DecodeIsLastValue(init);
      FoldSnoc(ApplyField, NoEvent, init, f);
      EventOfSnoc(init, f);
    }
  }

  /** parse_event: walk the message string by string until the empty string. */
  method ParseEvent(buf: seq<char>) returns (ev: Uevent)
    requires Terminated(buf)
    ensures ev == EventOf(FieldsFrom(buf, 0))
  {
    ev := NoEvent;
    var i := 0;
    while buf[i] != NUL
      invariant i < |buf|
      invariant Decode(ev, FieldsFrom(buf, i)) == Decode(NoEvent, FieldsFrom(buf, 0))
      decreases |buf| - i
    {
      var j := ScanToNul(buf, i);
      FieldsFromFirst(buf, i);
      FoldFirst(ApplyField, ev, FieldsFrom(buf, i));
      ev := ApplyField(ev, buf[i..j]);
      i := j + 1;
    }
    DecodeIsLastValue(FieldsFrom(buf, 0));
  }

  // ---------------------------------------------------------------------
  // Effects, rule tables and the platform registry

  datatype Effect =
    | Chown(path: string, uid: int, gid: int)   // -1 leaves an id unchanged
    | Chmod(path: string, mode: bv32)
    | SetEgid(egid: nat)
    | Mknod(path: string, mode: bv32, major: int, minor: int)
    | MakeDir(path: string)
    | MakeLink(node: string, link: string)
    | RemoveLink(node: string, link: string)
    | Unlink(path: string)
    | Probe(alias: string, args: string)

  /** A ueventd.rc permission line; sysfs rules carry an attribute. */
  datatype PermRule = PermRule(name: string, attr: Option<string>, perm: bv32, uid: nat, gid: nat, wildcard: bool)

  datatype NodePerm = NodePerm(perm: bv32, uid: nat, gid: nat)

  datatype PlatformNode = PlatformNode(path: string, name: string)

  datatype ModArgs = ModArgs(name: string, args: string)

  /** s + n, or the empty string when s is shorter than n. */
  function Drop(s: string, n: nat): string
  {
    if |s| >= n then s[n..] else ""
  }

  function AttrOf(r: PermRule): string
  {
    if r.attr.Some? then r.attr.value else ""
  }

  /** A device rule names the /dev path itself. */
  predicate DevRuleMatches(r: PermRule, path: string)
  {
    if r.wildcard then Glob(r.name, path) else path == r.name
  }

  /** A sysfs rule names "/sys" + the event path; the first 4 characters are dropped. */
  predicate SysRuleMatches(r: PermRule, upath: string)
  {
    if r.wildcard then Glob(Drop(r.name, 4), upath) else upath == Drop(r.name, 4)
  }

  function SysPath(upath: string, attr: string): string
  {
    "/sys" + upath + "/" + attr
  }

  /** "/sys" + upath + "/" + attr and its NUL do not fit in 512 bytes. */
  predicate Overflows(upath: string, attr: string)
  {
    |upath| + |attr| + 6 > SYSFS_BUF
  }

  /** What fixup_sys_perms does for the rules, in rule order. */
  function SysFixups(rules: seq<PermRule>, upath: string): (e: seq<Effect>)
    ensures |e| <= 2 * |rules| && |e| % 2 == 0
    ensures forall i :: 0 <= i < |e| ==>
      (e[i].Chown? || e[i].Chmod?) && StartsWith(e[i].path, "/sys" + upath + "/") && |e[i].path| < SYSFS_BUF
    decreases |rules|
  {
    if rules == [] then []
    else
      var r := rules[0];
      if !SysRuleMatches(r, upath) then SysFixups(rules[1..], upath)
      else if Overflows(upath, AttrOf(r)) then []
      else
        var p := SysPath(upath, AttrOf(r));
        [Chown(p, r.uid, r.gid), Chmod(p, r.perm)] + SysFixups(rules[1..], upath)
  }

  /** Rules that fit are applied one after the other. */
  lemma {:induction false} SysFixupsConcat(a: seq<PermRule>, b: seq<PermRule>, upath: string)
    requires forall i :: 0 <= i < |a| && SysRuleMatches(a[i], upath) ==> !Overflows(upath, AttrOf(a[i]))
    ensures SysFixups(a + b, upath) == SysFixups(a, upath) + SysFixups(b, upath)
    decreases |a|
  {
    if a != [] {
      assert (a + b)[1..] == a[1..] + b;
      SysFixupsConcat(a[1..], b, upath);
    } else {
      assert a + b == b;
    }
  }

  /** A matching rule that does not fit ends the whole scan: no later rule is applied. */
  lemma {:induction false} SysFixupsStop(rules: seq<PermRule>, k: nat, upath: string)
    requires k < |rules| && SysRuleMatches(rules[k], upath) && Overflows(upath, AttrOf(rules[k]))
    ensures SysFixups(rules, upath) == SysFixups(rules[..k], upath)
    decreases k
  {
    if k > 0 {
      assert rules[1..][k - 1] == rules[k];
      SysFixupsStop(rules[1..], k - 1, upath);
      assert rules[..k][1..] == rules[1..][..k - 1];
    }
  }

  /** get_device_perm: the last matching device rule, or 0600 root:root. */
  function DevicePerm(rules: seq<PermRule>, path: string): (r: NodePerm)
    ensures (forall j :: 0 <= j < |rules| ==> !DevRuleMatches(rules[j], path)) ==> r == NodePerm(DEFAULT_PERM, 0, 0)
    ensures forall k :: (0 <= k < |rules| && DevRuleMatches(rules[k], path) &&
      (forall j :: k < j < |rules| ==> !DevRuleMatches(rules[j], path))) ==>
      r == NodePerm(rules[k].perm, rules[k].uid, rules[k].gid)
  {
    if rules == [] then NodePerm(DEFAULT_PERM, 0, 0)
    else
      var last := rules[|rules| - 1];
      if DevRuleMatches(last, path) then NodePerm(last.perm, last.uid, last.gid)
      else
        var init := rules[..|rules| - 1];
        assert forall j :: 0 <= j < |init| ==> init[j] == rules[j];
        DevicePerm(init, path)
  }

  /** The bus path is a strict prefix of path followed by '/'. */
  predicate IsParentOf(bus: string, path: string)
  {
    |bus| < |path| && path[|bus|] == '/' && StartsWith(path, bus)
  }

  /** The short name of a platform device: "/devices/" and then "platform/" dropped. */
  function ShortName(path: string): (name: string)
    ensures EndsWith(path, name)
    ensures StartsWith(path, "/devices/platform/") ==> "/devices/platform/" + name == path
    ensures StartsWith(path, "/devices/") && !StartsWith(path[9..], "platform/") ==> "/devices/" + name == path
    ensures !StartsWith(path, "/devices/") ==> name == path
  {
    if StartsWith(path, "/devices/") then
      var rest := path[9..];
      assert path == "/devices/" + rest;
      assert StartsWith(path, "/devices/platform/") ==> StartsWith(rest, "platform/") by {
        if StartsWith(path, "/devices/platform/") {
          assert rest[..9] == path[..18][9..];
        }
      }
      if StartsWith(rest, "platform/") then
        assert rest == "platform/" + rest[9..];
        rest[9..]
      else rest
    else path
  }

  /** find_platform_device: the most recently added entry that is a parent of path. */
  function FindPlatform(nodes: seq<PlatformNode>, path: string): (k: Option<nat>)
    ensures k.Some? ==> k.value < |nodes| && IsParentOf(nodes[k.value].path, path)
    ensures k.Some? ==> forall j :: k.value < j < |nodes| ==> !IsParentOf(nodes[j].path, path)
    ensures k.None? ==> forall j :: 0 <= j < |nodes| ==> !IsParentOf(nodes[j].path, path)
  {
    if nodes == [] then None
    else if IsParentOf(nodes[|nodes| - 1].path, path) then Some(|nodes| - 1)
    else FindPlatform(nodes[..|nodes| - 1], path)
  }

  /** The most recently added entry with exactly this path. */
  function LastExact(nodes: seq<PlatformNode>, path: string): (k: Option<nat>)
    ensures k.Some? ==> k.value < |nodes| && nodes[k.value].path == path
    ensures k.Some? ==> forall j :: k.value < j < |nodes| ==> nodes[j].path != path
    ensures k.None? ==> forall j :: 0 <= j < |nodes| ==> nodes[j].path != path
  {
    if nodes == [] then None
    else if nodes[|nodes| - 1].path == path then Some(|nodes| - 1)
    else LastExact(nodes[..|nodes| - 1], path)
  }

  /** The registry after add_platform_device(path). */
  function Registered(nodes: seq<PlatformNode>, path: string): (r: seq<PlatformNode>)
    ensures nodes <= r && |r| <= |nodes| + 1
    ensures |r| == |nodes| + 1 ==> r[|nodes|].path == path && EndsWith(path, r[|nodes|].name)
  {
    if FindPlatform(nodes, path).Some? then nodes else nodes + [PlatformNode(path, ShortName(path))]
  }

  /** The registry after remove_platform_device(path). */
  function Unregistered(nodes: seq<PlatformNode>, path: string): (r: seq<PlatformNode>)
    ensures |r| <= |nodes| <= |r| + 1
    ensures forall n :: n in r ==> n in nodes
  {
    match LastExact(nodes, path)
    case None => nodes
    case Some(k) => nodes[..k] + nodes[k + 1..]
  }

  /** A sub-device of a registered bus is never registered itself. */
  lemma SubdeviceNotRegistered(nodes: seq<PlatformNode>, k: nat, rest: string)
    requires k < |nodes|
    ensures Registered(nodes, nodes[k].path + "/" + rest) == nodes
  {
    var p := nodes[k].path + "/" + rest;
    assert p[..|nodes[k].path|] == nodes[k].path;
    assert IsParentOf(nodes[k].path, p);
  }

  /** Removing a path right after registering it restores the registry. */
  lemma RegisterThenUnregister(nodes: seq<PlatformNode>, path: string)
    requires FindPlatform(nodes, path).None?
    ensures Unregistered(Registered(nodes, path), path) == nodes
    ensures |Registered(nodes, path)| == |nodes| + 1
  {
    var ns := nodes + [PlatformNode(path, ShortName(path))];
    assert LastExact(ns, path) == Some(|nodes|);
    assert ns[..|nodes|] == nodes;
  }

  /** Lookup finds a freshly registered bus for every path below it. */
  lemma RegisteredIsFound(nodes: seq<PlatformNode>, path: string, rest: string)
    requires FindPlatform(nodes, path).None?
    ensures FindPlatform(Registered(nodes, path), path + "/" + rest) == Some(|nodes|)
  {
    var p := path + "/" + rest;
    assert p[..|path|] == path;
    assert IsParentOf(path, p);
  }

  // ---------------------------------------------------------------------
  // /dev path synthesis

  /** parse_device_name: the text after the last '/' of the path, for a device with numbers. */
  function DeviceName(ev: Uevent): (name: Option<string>)
    ensures name.None? <==>
      ev.major < 0 || ev.minor < 0 || LastIndexOf(ev.path, '/').None? ||
      |ev.path| - LastIndexOf(ev.path, '/').value - 1 > MAX_NAME
    ensures name.Some? ==> |name.value| <= MAX_NAME && EndsWith(ev.path, "/" + name.value)
    ensures name.Some? ==> forall i :: 0 <= i < |name.value| ==> name.value[i] != '/'
  {
    if ev.major < 0 || ev.minor < 0 then None
    else match LastIndexOf(ev.path, '/')
      case None => None
      case Some(k) =>
        var n := ev.path[k + 1..];
        assert ev.path[k..] == [ev.path[k]] + n;
        if |n| > MAX_NAME then None else Some(n)
  }

  /** The text after the last '/', or the whole path when there is none. */
  function Basename(path: string): (b: string)
    ensures EndsWith(path, b) && '/' !in b
  {
    match LastIndexOf(path, '/')
    case None => path
    case Some(k) => path[k + 1..]
  }

  /** parse_platform_block_device: by-name, by-num, then the device's own name. */
  function BlockLinks(nodes: seq<PlatformNode>, ev: Uevent, sanitize: string -> string): (links: seq<string>)
    ensures FindPlatform(nodes, ev.path).None? <==> links == []
    ensures |links| <= 3
  {
    match FindPlatform(nodes, ev.path)
    case None => []
    case Some(k) =>
      var linkPath := Take("/dev/block/platform/" + nodes[k].name, LINK_PATH_MAX);
      (if ev.partitionName.Some? then [linkPath + "/by-name/" + sanitize(ev.partitionName.value)] else [])
      + (if ev.partitionNum >= 0 then [linkPath + "/by-num/p" + NatToDec(ev.partitionNum)] else [])
      + [linkPath + "/" + Basename(ev.path)]
  }

  lemma BlockLinksShape(nodes: seq<PlatformNode>, ev: Uevent, sanitize: string -> string)
    requires FindPlatform(nodes, ev.path).Some?
    ensures var links := BlockLinks(nodes, ev, sanitize);
      var linkPath := Take("/dev/block/platform/" + nodes[FindPlatform(nodes, ev.path).value].name, LINK_PATH_MAX);
      |links| == 1 + (if ev.partitionName.Some? then 1 else 0) + (if ev.partitionNum >= 0 then 1 else 0) &&
      (forall i :: 0 <= i < |links| ==> StartsWith(links[i], linkPath + "/")) &&
      links[|links| - 1] == linkPath + "/" + Basename(ev.path)
  {
    var links := BlockLinks(nodes, ev, sanitize);
    var linkPath := Take("/dev/block/platform/" + nodes[FindPlatform(nodes, ev.path).value].name, LINK_PATH_MAX);
    forall i | 0 <= i < |links| ensures StartsWith(links[i], linkPath + "/") {
      assert links[i][..|linkPath| + 1] == linkPath + "/";
    }
  }

  /** The first index after p that holds '/' or is the end of s. */
  function NextSlash(s: string, p: nat): (j: nat)
    requires p < |s|
    ensures p < j <= |s| && (j < |s| ==> s[j] == '/')
    ensures forall i :: p < i < j ==> s[i] != '/'
    decreases |s| - p
  {
    if p + 1 == |s| || s[p + 1] == '/' then p + 1 else NextSlash(s, p + 1)
  }

  /**
   * get_character_device_symlinks: for a device under a registered bus whose
   * remaining path starts with "/usb", one link named after the interface
   * (the third component after the bus).
   */
  function CharLinks(nodes: seq<PlatformNode>, ev: Uevent): (links: seq<string>)
    ensures |links| <= 1
    ensures links != [] ==> FindPlatform(nodes, ev.path).Some? && StartsWith(links[0], "/dev/usb/" + ev.subsystem)
  {
    match FindPlatform(nodes, ev.path)
    case None => []
    case Some(k) =>
      var s := ev.path[|nodes[k].path|..];
      if !StartsWith(s, "/usb") then []
      else
        var p1 := NextSlash(s, 0);
        if p1 == |s| then []
        else
          var p2 := NextSlash(s, p1);
          if p2 == |s| then []
          else
            var q := p2 + 1;
            match IndexOf(s[q..], '/')
            case None => []
            case Some(w) =>
              if w == 0 then []
              else
                var l := "/dev/usb/" + ev.subsystem + s[q..q + w];
                assert l[..|"/dev/usb/" + ev.subsystem|] == "/dev/usb/" + ev.subsystem;
                [l]
  }

  /** The directories make_dir creates for each '/' of devpath at an index in 5..p-1. */
  function DirsUpTo(devpath: string, p: nat): (dirs: seq<string>)
    requires p <= |devpath|
    ensures |dirs| <= p
  {
    if p <= 5 then []
    else DirsUpTo(devpath, p - 1) + (if devpath[p - 1] == '/' then [devpath[..p - 1]] else [])
  }

  /** d is a proper prefix of devpath shorter than p, of at least four characters and ended there by a '/'. */
  predicate DirBefore(devpath: string, d: string, p: nat)
  {
    4 <= |d| < p && |d| < |devpath| && d == devpath[..|d|] && devpath[|d|] == '/'
  }

  /** Every directory made is a proper prefix of the path of at least four characters, ended there by a '/'. */
  lemma {:induction false} DirsUpToPrefixes(devpath: string, p: nat)
    requires p <= |devpath|
    ensures forall d :: d in DirsUpTo(devpath, p) ==> DirBefore(devpath, d, p)
  {
    if p > 5 {
      DirsUpToPrefixes(devpath, p - 1);
      var before := DirsUpTo(devpath, p - 1);
      var added := if devpath[p - 1] == '/' then [devpath[..p - 1]] else [];
      assert DirsUpTo(devpath, p) == before + added;
      forall d | d in before + added
        ensures DirBefore(devpath, d, p)
      {
        if d in before {
          assert DirBefore(devpath, d, p - 1);
        }
      }
    }
  }

  /** The subsystem→directory table of handle_generic_device_event, for subsystems other than usb. */
  function BaseDir(subsystem: string, name: string): (r: (string, string))
    ensures StartsWith(r.0, "/dev/") && EndsWith(r.0, "/")
    ensures r.1 == name || (r.0 == "/dev/log/" && StartsWith(name, "log_") && r.1 == name[4..])
    ensures (StartsWith(subsystem, "misc") && StartsWith(name, "log_") &&
      !StartsWith(subsystem, "graphics") && !StartsWith(subsystem, "drm") &&
      !StartsWith(subsystem, "oncrpc") && !StartsWith(subsystem, "adsp") &&
      !StartsWith(subsystem, "msm_camera") && !StartsWith(subsystem, "input") &&
      !StartsWith(subsystem, "mtd") && !StartsWith(subsystem, "sound")) ==> r == ("/dev/log/", name[4..])
  {
    if StartsWith(subsystem, "graphics") then ("/dev/graphics/", name)
    else if StartsWith(subsystem, "drm") then ("/dev/dri/", name)
    else if StartsWith(subsystem, "oncrpc") then ("/dev/oncrpc/", name)
    else if StartsWith(subsystem, "adsp") then ("/dev/adsp/", name)
    else if StartsWith(subsystem, "msm_camera") then ("/dev/msm_camera/", name)
    else if StartsWith(subsystem, "input") then ("/dev/input/", name)
    else if StartsWith(subsystem, "mtd") then ("/dev/mtd/", name)
    else if StartsWith(subsystem, "sound") then ("/dev/snd/", name)
    else if StartsWith(subsystem, "misc") && StartsWith(name, "log_") then ("/dev/log/", name[4..])
    else ("/dev/", name)
  }

  /** Where handle_generic_device_event puts a character device. */
  datatype CharNode = Ignored | Node(dirs: seq<string>, devpath: string)

  function CharNodeOf(ev: Uevent, name: string): (n: CharNode)
    requires ev.minor >= 0
    ensures n.Ignored? <==> StartsWith(ev.subsystem, "usb") && ev.subsystem != "usb"
    ensures n.Node? ==> |n.devpath| <= DEVPATH_MAX && StartsWith(n.devpath, "/dev/")
  {
    if StartsWith(ev.subsystem, "usb") then
      if ev.subsystem != "usb" then Ignored
      else if ev.deviceName.Some? then
        DevPrefixKept("/dev/", ev.deviceName.value);
        var dp := Take("/dev/" + ev.deviceName.value, DEVPATH_MAX);
        Node(DirsUpTo(dp, |dp|), dp)
      else
        var busDir := "/dev/bus/usb/" + PadDec(ev.minor / 128 + 1, 3);
        DevPrefixOf("/dev/bus/usb/", PadDec(ev.minor / 128 + 1, 3));
        DevPrefixOf(busDir, "/");
        DevPrefixKept(busDir + "/", PadDec(ev.minor % 128 + 1, 3));
        Node(["/dev/bus", "/dev/bus/usb", busDir], Take(busDir + "/" + PadDec(ev.minor % 128 + 1, 3), DEVPATH_MAX))
    else
      var (base, n) := BaseDir(ev.subsystem, name);
      DevPrefixKept(base, n);
      Node(if base == "/dev/" then [] else [base], Take(base + n, DEVPATH_MAX))
  }

  /** A path under /dev/ stays under /dev/ when more is appended. */
  lemma DevPrefixOf(a: string, b: string)
    requires StartsWith(a, "/dev/")
    ensures StartsWith(a + b, "/dev/")
  {
    assert (a + b)[..5] == a[..5];
  }

  /** ... and when the result is cut to the size of the path buffer. */
  lemma DevPrefixKept(a: string, b: string)
    requires StartsWith(a, "/dev/")
    ensures StartsWith(Take(a + b, DEVPATH_MAX), "/dev/")
  {
    DevPrefixOf(a, b);
    assert Take(a + b, DEVPATH_MAX)[..5] == (a + b)[..5];
  }

  /**
   * A usb device without DEVNAME goes to /dev/bus/usb/BBB/DDD, three digits
   * each, from which the minor number can be recovered: DDD runs over 1..128.
   */
  lemma UsbBusNumbering(ev: Uevent, name: string)
    requires ev.subsystem == "usb" && ev.deviceName.None? && 0 <= ev.minor < 998 * 128
    ensures var b, d := PadDec(ev.minor / 128 + 1, 3), PadDec(ev.minor % 128 + 1, 3);
      |b| == 3 && |d| == 3 &&
      CharNodeOf(ev, name) == Node(["/dev/bus", "/dev/bus/usb", "/dev/bus/usb/" + b], "/dev/bus/usb/" + b + "/" + d) &&
      1 <= DecValue(d) <= 128 && (DecValue(b) - 1) * 128 + (DecValue(d) - 1) == ev.minor
  {
    UsbBusDigits(ev.minor);
  }

  lemma UsbBusDigits(minor: int)
    requires 0 <= minor < 998 * 128
    ensures var b, d := PadDec(minor / 128 + 1, 3), PadDec(minor % 128 + 1, 3);
      |b| == 3 && |d| == 3 && 1 <= DecValue(d) <= 128 && (DecValue(b) - 1) * 128 + (DecValue(d) - 1) == minor
  {
    var bus, dev := minor / 128 + 1, minor % 128 + 1;
    NatToDecLength(bus);
    NatToDecLength(dev);
    PadDecValue(bus, 3);
    PadDecValue(dev, 3);
  }

  /** usb-prefixed subsystems other than "usb" itself create nothing. */
  lemma OtherUsbIgnored(ev: Uevent, name: string)
    requires StartsWith(ev.subsystem, "usb") && ev.subsystem != "usb" && ev.minor >= 0
    ensures CharNodeOf(ev, name) == Ignored
  {
  }

  /** A misc device named log_X becomes /dev/log/X. */
  lemma MiscLogDevice(ev: Uevent, x: string)
    requires ev.subsystem == "misc" && ev.minor >= 0 && |x| <= 60
    ensures CharNodeOf(ev, "log_" + x) == Node(["/dev/log/"], "/dev/log/" + x)
  {
    var name := "log_" + x;
    assert name[..4] == "log_";
    assert name[4..] == x;
    assert "misc"[0] == 'm' && "misc"[1] == 'i';
    assert !StartsWith("misc", "drm") && !StartsWith("misc", "adsp") && !StartsWith("misc", "mtd");
    assert BaseDir("misc", name) == ("/dev/log/", x);
    assert |"/dev/log/" + x| <= DEVPATH_MAX;
  }

  /** A subsystem outside the table goes straight under /dev/ with no directory made. */
  lemma DefaultDevDirectory(ev: Uevent, name: string)
    requires ev.minor >= 0 && |name| <= MAX_NAME
    requires !StartsWith(ev.subsystem, "usb") && !StartsWith(ev.subsystem, "graphics") &&
      !StartsWith(ev.subsystem, "drm") && !StartsWith(ev.subsystem, "oncrpc") &&
      !StartsWith(ev.subsystem, "adsp") && !StartsWith(ev.subsystem, "msm_camera") &&
      !StartsWith(ev.subsystem, "input") && !StartsWith(ev.subsystem, "mtd") &&
      !StartsWith(ev.subsystem, "sound") && !StartsWith(ev.subsystem, "misc")
    ensures CharNodeOf(ev, name) == Node([], "/dev/" + name)
  {
  }

  // ---------------------------------------------------------------------
  // handle_device

  function LinkEffects(node: string, links: seq<string>, add: bool): (r: seq<Effect>)
    ensures |r| == |links|
  {
    if links == [] then []
    else LinkEffects(node, links[..|links| - 1], add) + [if add then MakeLink(node, links[|links| - 1]) else RemoveLink(node, links[|links| - 1])]
  }

  /** One link made or removed per entry of the list, in its order. */
  lemma {:induction false} LinkEffectsInOrder(node: string, links: seq<string>, add: bool)
    ensures forall i :: 0 <= i < |links| ==>
      LinkEffects(node, links, add)[i] == (if add then MakeLink(node, links[i]) else RemoveLink(node, links[i]))
  {
    if links != [] {
      var init := links[..|links| - 1];
      LinkEffectsInOrder(node, init, add);
      forall i | 0 <= i < |links|
        ensures LinkEffects(node, links, add)[i] == (if add then MakeLink(node, links[i]) else RemoveLink(node, links[i]))
      {
        if i < |init| {
          assert LinkEffects(node, links, add)[i] == LinkEffects(node, init, add)[i];
          assert links[i] == init[i];
        }
      }
    }
  }

  /** make_device: the gid switch around mknod, the owner change, and the mode from the rules. */
  function MakeDeviceEffects(perms: seq<PermRule>, devpath: string, block: bool, major: int, minor: int): (e: seq<Effect>)
    ensures |e| == 4 && e[1].Mknod? && e[1].path == devpath && e[2].Chown? && e[2].path == devpath
    ensures e[0] == SetEgid(DevicePerm(perms, devpath).gid) && e[3] == SetEgid(AID_ROOT)
  {
    var p := DevicePerm(perms, devpath);
    [SetEgid(p.gid), Mknod(devpath, p.perm | (if block then S_IFBLK else S_IFCHR), major, minor),
     Chown(devpath, p.uid, -1), SetEgid(AID_ROOT)]
  }

  function DeviceEffects(perms: seq<PermRule>, action: string, devpath: string, block: bool,
                         major: int, minor: int, links: seq<string>): (e: seq<Effect>)
    ensures action == "add" ==> |e| == 4 + |links|
    ensures action == "remove" ==> |e| == |links| + 1 && e[|links|] == Unlink(devpath)
    ensures action != "add" && action != "remove" ==> e == []
  {
    if action == "add" then MakeDeviceEffects(perms, devpath, block, major, minor) + LinkEffects(devpath, links, true)
    else if action == "remove" then LinkEffects(devpath, links, false) + [Unlink(devpath)]
    else []
  }

  /**
   * On "add" the node is made before every link, links in array order; on
   * "remove" every link goes before the node; any other action does nothing.
   */
  lemma DeviceEffectsOrder(perms: seq<PermRule>, action: string, devpath: string, block: bool,
                           major: int, minor: int, links: seq<string>)
    ensures var e := DeviceEffects(perms, action, devpath, block, major, minor, links);
      (action == "add" ==> (|e| == 4 + |links| && e[1].Mknod? && e[1].path == devpath &&
         (forall i :: 0 <= i < |links| ==> e[4 + i] == MakeLink(devpath, links[i])))) &&
      (action == "remove" ==> (|e| == |links| + 1 && e[|links|] == Unlink(devpath) &&
         (forall i :: 0 <= i < |links| ==> e[i] == RemoveLink(devpath, links[i])))) &&
      (action != "add" && action != "remove" ==> e == [])
  {
    var e := DeviceEffects(perms, action, devpath, block, major, minor, links);
    LinkEffectsInOrder(devpath, links, action == "add");
    if action == "add" {
      var m := MakeDeviceEffects(perms, devpath, block, major, minor);
      var l := LinkEffects(devpath, links, true);
      assert e == m + l && |m| == 4;
      forall i | 0 <= i < |links|
        ensures e[4 + i] == MakeLink(devpath, links[i])
      {
        assert e[4 + i] == l[i];
      }
    } else if action == "remove" {
      var l := LinkEffects(devpath, links, false);
      assert e == l + [Unlink(devpath)];
      forall i | 0 <= i < |links|
        ensures e[i] == RemoveLink(devpath, links[i])
      {
        assert e[i] == l[i];
      }
    }
  }

  /** A block device node gets S_IFBLK and the permission bits of the last matching rule. */
  lemma MakeDeviceMode(perms: seq<PermRule>, devpath: string, major: int, minor: int, k: nat)
    requires k < |perms| && DevRuleMatches(perms[k], devpath)
    requires forall j :: k < j < |perms| ==> !DevRuleMatches(perms[j], devpath)
    ensures MakeDeviceEffects(perms, devpath, true, major, minor)[1] == Mknod(devpath, perms[k].perm | S_IFBLK, major, minor)
  {
  }

  // ---------------------------------------------------------------------
  // Module loading

  /** The result as the unsigned 32-bit pattern the bit tests see. */
  function Unsigned32(x: int): nat
  {
    x % 0x1_0000_0000
  }

  /** The single-bit flag bit is set in x. */
  predicate HasBit(x: int, bit: nat)
    requires bit > 0
  {
    (Unsigned32(x) / bit) % 2 == 1
  }

  /** ret & (MOD_BAD_DEP | MOD_INVALID_CALLER_BLACK | MOD_BAD_ALIAS) */
  predicate KeepsForRetry(ret: int)
  {
    HasBit(ret, ProbeModule.MOD_BAD_DEP) || HasBit(ret, ProbeModule.MOD_INVALID_CALLER_BLACK) ||
    HasBit(ret, ProbeModule.MOD_BAD_ALIAS)
  }

  /** A failed insmod (-1) is retried later; a missing dependency chain or a blacklist hit is not. */
  lemma RetryCodes()
    ensures KeepsForRetry(-1)
    ensures KeepsForRetry(ProbeModule.MOD_BAD_DEP) && KeepsForRetry(ProbeModule.MOD_BAD_ALIAS)
    ensures KeepsForRetry(ProbeModule.MOD_INVALID_CALLER_BLACK)
    ensures !KeepsForRetry(ProbeModule.MOD_NO_ERR) && !KeepsForRetry(ProbeModule.MOD_DEP_NOT_FOUND)
    ensures !KeepsForRetry(ProbeModule.MOD_IN_BLACK) && !KeepsForRetry(ProbeModule.MOD_IN_CALLER_BLACK)
    ensures !KeepsForRetry(ProbeModule.MOD_INVALID_NAME)
  {
  }

  /** get_mod_args: the arguments of the first table entry with that name, or "". */
  function LookupModArgs(table: seq<ModArgs>, name: string): (args: string)
    ensures (forall i :: 0 <= i < |table| ==> table[i].name != name) ==> args == ""
    ensures forall i :: (0 <= i < |table| && table[i].name == name &&
      (forall j :: 0 <= j < i ==> table[j].name != name)) ==> args == table[i].args
  {
    if table == [] then ""
    else if table[0].name == name then table[0].args
    else LookupModArgs(table[1..], name)
  }

  /** What the strlcat loop of add_mod_args would build with unlimited room. */
  function JoinArgs(args: seq<string>): (r: string)
    ensures |r| >= |args| && (args != [] ==> EndsWith(r, " "))
  {
    if args == [] then "" else JoinArgs(args[..|args| - 1]) + args[|args| - 1] + " "
  }

  /** get_mod_args(alias) with the alias resolved to a module name first. */
  function ArgsOf(table: seq<ModArgs>, resolve: string -> string, alias: string): string
  {
    LookupModArgs(table, resolve(alias))
  }

  /** The insmod_by_dep result for a queued alias. */
  function ProbeResult(table: seq<ModArgs>, resolve: string -> string, insmod: (string, string) -> int, alias: string): int
  {
    insmod(alias, ArgsOf(table, resolve, alias))
  }

  /** The queue entries kept for another try, in queue order. */
  function Retained(q: seq<string>, table: seq<ModArgs>, resolve: string -> string, insmod: (string, string) -> int): (r: seq<string>)
    ensures |r| <= |q|
  {
    if q == [] then []
    else
      var x := q[|q| - 1];
      Retained(q[..|q| - 1], table, resolve, insmod) + (if KeepsForRetry(ProbeResult(table, resolve, insmod, x)) then [x] else [])
  }

  /** An entry stays queued exactly when its result asks for a retry. */
  lemma {:induction false} RetainedMembers(q: seq<string>, table: seq<ModArgs>, resolve: string -> string,
                                           insmod: (string, string) -> int, x: string)
    ensures x in Retained(q, table, resolve, insmod) <==> x in q && KeepsForRetry(ProbeResult(table, resolve, insmod, x))
    decreases |q|
  {
    if q != [] {
      var init := q[..|q| - 1];
      RetainedMembers(init, table, resolve, insmod, x);
      assert q == init + [q[|q| - 1]];
    }
  }

  /** One probe per queue entry, in queue order. */
  function RetryProbes(q: seq<string>, table: seq<ModArgs>, resolve: string -> string): (r: seq<Effect>)
    ensures |r| == |q|
  {
    if q == [] then []
    else RetryProbes(q[..|q| - 1], table, resolve) + [Probe(q[|q| - 1], ArgsOf(table, resolve, q[|q| - 1]))]
  }

  /** Every queued alias is probed once, in queue order, with the arguments the table gives it. */
  lemma {:induction false} RetryProbesInOrder(q: seq<string>, table: seq<ModArgs>, resolve: string -> string)
    ensures forall i :: 0 <= i < |q| ==> RetryProbes(q, table, resolve)[i] == Probe(q[i], ArgsOf(table, resolve, q[i]))
  {
    if q != [] {
      var init := q[..|q| - 1];
      RetryProbesInOrder(init, table, resolve);
      forall i | 0 <= i < |q|
        ensures RetryProbes(q, table, resolve)[i] == Probe(q[i], ArgsOf(table, resolve, q[i]))
      {
        if i < |init| {
          assert RetryProbes(q, table, resolve)[i] == RetryProbes(init, table, resolve)[i];
          assert q[i] == init[i];
        }
      }
    }
  }

  /** One more queue entry retried. */
  lemma QueueStep(q: seq<string>, i: nat, table: seq<ModArgs>, resolve: string -> string, insmod: (string, string) -> int)
    requires i < |q|
    ensures RetryProbes(q[..i + 1], table, resolve) == RetryProbes(q[..i], table, resolve) + [Probe(q[i], ArgsOf(table, resolve, q[i]))]
    ensures Retained(q[..i + 1], table, resolve, insmod) ==
      Retained(q[..i], table, resolve, insmod) + (if KeepsForRetry(ProbeResult(table, resolve, insmod, q[i])) then [q[i]] else [])
  {
    assert q[..i + 1][..i] == q[..i];
  }

  // ---------------------------------------------------------------------
  // handle_device_event as a whole

  /** The events handed to the module loader: an add that carries a modalias. */
  predicate LoadsModule(ev: Uevent)
  {
    ev.action == "add" && ev.modalias.Some?
  }

  /** The deferred queue after an event: the retry pass and the new alias for an add with one, else unchanged. */
  function QueueAfter(q: seq<string>, table: seq<ModArgs>, resolve: string -> string, insmod: (string, string) -> int, ev: Uevent): seq<string>
  {
    if LoadsModule(ev) then
      var m := ev.modalias.value;
      Retained(q, table, resolve, insmod) + (if KeepsForRetry(ProbeResult(table, resolve, insmod, m)) then [m] else [])
    else q
  }

  /** The probes of an event: the queued modules, then the event's own alias, for an add with one. */
  function ModuleEffects(q: seq<string>, table: seq<ModArgs>, resolve: string -> string, ev: Uevent): seq<Effect>
  {
    if LoadsModule(ev) then
      var m := ev.modalias.value;
      RetryProbes(q, table, resolve) + [Probe(m, ArgsOf(table, resolve, m))]
    else []
  }

  /** The sysfs fix-ups of an event: those of its path on add and change, none otherwise. */
  function FixupEffects(rules: seq<PermRule>, ev: Uevent): seq<Effect>
  {
    if ev.action == "add" || ev.action == "change" then SysFixups(rules, ev.path) else []
  }

  /** The actions of a block event: /dev/block/ and the node with its platform links, once it has a name. */
  function BlockEffects(nodes: seq<PlatformNode>, perms: seq<PermRule>, ev: Uevent, sanitize: string -> string): seq<Effect>
  {
    if DeviceName(ev).None? then []
    else
      var devpath := Take("/dev/block/" + DeviceName(ev).value, DEVPATH_MAX);
      var links := if StartsWith(ev.path, "/devices/") then BlockLinks(nodes, ev, sanitize) else [];
      [MakeDir("/dev/block/")] + DeviceEffects(perms, ev.action, devpath, true, ev.major, ev.minor, links)
  }

  /** The actions of any other event: its directories, /dev/usb for a link, and the node with its links, once it has a name and a node. */
  function GenericEffects(nodes: seq<PlatformNode>, perms: seq<PermRule>, ev: Uevent): seq<Effect>
  {
    if DeviceName(ev).None? || CharNodeOf(ev, DeviceName(ev).value).Ignored? then []
    else
      var node := CharNodeOf(ev, DeviceName(ev).value);
      var links := CharLinks(nodes, ev);
      DirEffects(node.dirs) + (if links != [] then [MakeDir("/dev/usb")] else [])
        + DeviceEffects(perms, ev.action, node.devpath, false, ev.major, ev.minor, links)
  }

  /** The node, link and directory actions of an event, by its subsystem; a platform event has none. */
  function NodeEffects(nodes: seq<PlatformNode>, perms: seq<PermRule>, ev: Uevent, sanitize: string -> string): seq<Effect>
  {
    if StartsWith(ev.subsystem, "block") then BlockEffects(nodes, perms, ev, sanitize)
    else if StartsWith(ev.subsystem, "platform") then []
    else GenericEffects(nodes, perms, ev)
  }

  /** The platform registry after an event: only platform events change it, add registering and remove unregistering. */
  function PlatformsAfter(nodes: seq<PlatformNode>, ev: Uevent): seq<PlatformNode>
  {
    if StartsWith(ev.subsystem, "block") || !StartsWith(ev.subsystem, "platform") then nodes
    else if ev.action == "add" then Registered(nodes, ev.path)
    else if ev.action == "remove" then Unregistered(nodes, ev.path)
    else nodes
  }

  /** Module effects are probes, and only of an add with an alias. */
  lemma ModuleEffectsProbe(q: seq<string>, table: seq<ModArgs>, resolve: string -> string, ev: Uevent)
    ensures forall i :: 0 <= i < |ModuleEffects(q, table, resolve, ev)| ==> ModuleEffects(q, table, resolve, ev)[i].Probe? && LoadsModule(ev)
  {
    if LoadsModule(ev) {
      RetryProbesInOrder(q, table, resolve);
      var m := ev.modalias.value;
      var r := RetryProbes(q, table, resolve);
      var e := r + [Probe(m, ArgsOf(table, resolve, m))];
      assert ModuleEffects(q, table, resolve, ev) == e && |r| == |q|;
      forall i | 0 <= i < |e|
        ensures e[i].Probe?
      {
        if i < |q| {
          assert e[i] == r[i] == Probe(q[i], ArgsOf(table, resolve, q[i]));
        }
      }
    }
  }

  /**
   * A platform event makes no node, link or directory: it only probes
   * modules, and that only on an add with an alias, and fixes up sysfs,
   * and that only on add and change.
   */
  lemma PlatformEventEffects(q: seq<string>, table: seq<ModArgs>, resolve: string -> string,
                             rules: seq<PermRule>, nodes: seq<PlatformNode>, perms: seq<PermRule>, ev: Uevent, sanitize: string -> string)
    requires !StartsWith(ev.subsystem, "block") && StartsWith(ev.subsystem, "platform")
    ensures var e := ModuleEffects(q, table, resolve, ev) + FixupEffects(rules, ev) + NodeEffects(nodes, perms, ev, sanitize);
      forall i :: 0 <= i < |e| ==>
        (e[i].Probe? && LoadsModule(ev)) || ((e[i].Chown? || e[i].Chmod?) && (ev.action == "add" || ev.action == "change"))
  {
    var mods, fix := ModuleEffects(q, table, resolve, ev), FixupEffects(rules, ev);
    ModuleEffectsProbe(q, table, resolve, ev);
    assert NodeEffects(nodes, perms, ev, sanitize) == [];
    var e := mods + fix + [];
    forall i | 0 <= i < |e|
      ensures (e[i].Probe? && LoadsModule(ev)) || ((e[i].Chown? || e[i].Chmod?) && (ev.action == "add" || ev.action == "change"))
    {
      if i < |mods| {
        assert e[i] == mods[i];
      } else {
        assert e[i] == fix[i - |mods|];
        assert ev.action == "add" || ev.action == "change";
      }
    }
  }

  // ---------------------------------------------------------------------
  // The device manager's state

  class DeviceManager {
    var sysPerms: seq<PermRule>
    var devPerms: seq<PermRule>
    var platforms: seq<PlatformNode>
    var modArgs: seq<ModArgs>
    var deferred: seq<string>
    var log: seq<Effect>

    /** Rules with an attribute are sysfs rules; the others are device rules. */
    ghost predicate Valid()
      reads this
    {
      (forall i :: 0 <= i < |sysPerms| ==> sysPerms[i].attr.Some?) &&
      (forall i :: 0 <= i < |devPerms| ==> devPerms[i].attr.None?)
    }

    constructor ()
      ensures Valid()
      ensures sysPerms == [] && devPerms == [] && platforms == [] && modArgs == [] && deferred == [] && log == []
    {
      sysPerms, devPerms, platforms, modArgs, deferred, log := [], [], [], [], [], [];
    }

    method AddDevPerms(name: string, attr: Option<string>, perm: bv32, uid: nat, gid: nat, wildcard: bool)
      returns (ret: int)
      requires Valid()
      modifies this`sysPerms, this`devPerms
      ensures Valid() && ret == 0
      ensures attr.Some? ==> sysPerms == old(sysPerms) + [PermRule(name, attr, perm, uid, gid, wildcard)] && devPerms == old(devPerms)
      ensures attr.None? ==> devPerms == old(devPerms) + [PermRule(name, attr, perm, uid, gid, wildcard)] && sysPerms == old(sysPerms)
    {
      var rule := PermRule(name, attr, perm, uid, gid, wildcard);
      if attr.Some? {
        sysPerms := sysPerms + [rule];
      } else {
        devPerms := devPerms + [rule];
      }
      ret := 0;
    }

    /** add_mod_args: args[1..] each followed by a space, cut to what fits in 1024 bytes. */
    method AddModArgs(modName: string, args: seq<string>) returns (ret: int)
      modifies this`modArgs
      ensures ret == 0
      ensures |args| >= 1 ==> modArgs == old(modArgs) + [ModArgs(modName, Take(JoinArgs(args[1..]), MOD_ARGS_MAX))]
      ensures |args| == 0 ==> modArgs == old(modArgs) + [ModArgs(modName, "")]
    {
      var tmp := "";
      var i := 1;
      while i < |args|
        invariant 1 <= i <= |args| || (|args| == 0 && i == 1)
        invariant |args| >= 1 ==> tmp == Take(JoinArgs(args[1..i]), MOD_ARGS_MAX)
        invariant |args| == 0 ==> tmp == ""
        invariant modArgs == old(modArgs)
      {
        ghost var before := JoinArgs(args[1..i]);
        assert args[1..i + 1][..i - 1] == args[1..i];
        assert JoinArgs(args[1..i + 1]) == before + args[i] + " ";
        TakeConcat(before, args[i], MOD_ARGS_MAX);
        tmp := Take(tmp + args[i], MOD_ARGS_MAX);
        TakeConcat(before + args[i], " ", MOD_ARGS_MAX);
        tmp := Take(tmp + " ", MOD_ARGS_MAX);
        i := i + 1;
      }
      if |args| >= 1 {
        assert args[1..i] == args[1..];
      }
      modArgs := modArgs + [ModArgs(modName, tmp)];
      ret := 0;
    }

    /** fixup_sys_perms: forward over the sysfs rules, stopping at the first one that does not fit. */
    method FixupSysPerms(upath: string)
      modifies this`log
      ensures log == old(log) + SysFixups(sysPerms, upath)
    {
      var i := 0;
      while i < |sysPerms|
        invariant i <= |sysPerms|
        invariant log + SysFixups(sysPerms[i..], upath) == old(log) + SysFixups(sysPerms, upath)
      {
        var dp := sysPerms[i];
        assert sysPerms[i..][1..] == sysPerms[i + 1..];
        if SysRuleMatches(dp, upath) {
          if |upath| + |AttrOf(dp)| + 6 > SYSFS_BUF {
            return;
          }
          var buf := SysPath(upath, AttrOf(dp));
          log := log + [Chown(buf, dp.uid, dp.gid), Chmod(buf, dp.perm)];
        }
        i := i + 1;
      }
    }

    method AddPlatformDevice(path: string)
      modifies this`platforms
      ensures platforms == Registered(old(platforms), path)
    {
      if FindPlatform(platforms, path).None? {
        platforms := platforms + [PlatformNode(path, ShortName(path))];
      }
    }

    method RemovePlatformDevice(path: string)
      modifies this`platforms
      ensures platforms == Unregistered(old(platforms), path)
    {
      var k := LastExact(platforms, path);
      if k.Some? {
        platforms := platforms[..k.value] + platforms[k.value + 1..];
      }
    }

    /** handle_device: the node and its links for "add", the reverse for "remove". */
    method HandleDevice(action: string, devpath: string, block: bool, major: int, minor: int, links: seq<string>)
      modifies this`log
      ensures log == old(log) + DeviceEffects(devPerms, action, devpath, block, major, minor, links)
    {
      if action == "add" {
        var made := MakeDeviceEffects(devPerms, devpath, block, major, minor);
        log := log + made;
        LogLinks(devpath, links, true);
        Assoc(old(log), made, LinkEffects(devpath, links, true));
      }
      if action == "remove" {
        LogLinks(devpath, links, false);
        log := log + [Unlink(devpath)];
        Assoc(old(log), LinkEffects(devpath, links, false), [Unlink(devpath)]);
      }
    }

    /** The loop over the links of handle_device, making them on "add" and removing them on "remove". */
    method LogLinks(devpath: string, links: seq<string>, add: bool)
      modifies this`log
      ensures log == old(log) + LinkEffects(devpath, links, add)
    {
      var i := 0;
      while i < |links|
        invariant i <= |links|
        invariant log == old(log) + LinkEffects(devpath, links[..i], add)
      {
        assert links[..i + 1][..i] == links[..i];
        log := log + [if add then MakeLink(devpath, links[i]) else RemoveLink(devpath, links[i])];
        i := i + 1;
      }
      TakeAll(links);
    }

    method HandlePlatformDeviceEvent(ev: Uevent)
      modifies this`platforms
      ensures ev.action == "add" ==> platforms == Registered(old(platforms), ev.path)
      ensures ev.action == "remove" ==> platforms == Unregistered(old(platforms), ev.path)
      ensures ev.action != "add" && ev.action != "remove" ==> platforms == old(platforms)
    {
      if ev.action == "add" {
        AddPlatformDevice(ev.path);
      } else if ev.action == "remove" {
        RemovePlatformDevice(ev.path);
      }
    }

    /** handle_block_device_event */
    method HandleBlockDeviceEvent(ev: Uevent, sanitize: string -> string)
      modifies this`log
      ensures DeviceName(ev).None? ==> log == old(log)
      ensures DeviceName(ev).Some? ==>
        var devpath := Take("/dev/block/" + DeviceName(ev).value, DEVPATH_MAX);
        var links := if StartsWith(ev.path, "/devices/") then BlockLinks(platforms, ev, sanitize) else [];
        log == old(log) + [MakeDir("/dev/block/")] + DeviceEffects(devPerms, ev.action, devpath, true, ev.major, ev.minor, links)
    {
      var name := DeviceName(ev);
      if name.None? {
        return;
      }
      var devpath := Take("/dev/block/" + name.value, DEVPATH_MAX);
      log := log + [MakeDir("/dev/block/")];
      var links := [];
      if StartsWith(ev.path, "/devices/") {
        links := BlockLinks(platforms, ev, sanitize);
      }
      HandleDevice(ev.action, devpath, true, ev.major, ev.minor, links);
    }

    /** The make_dir loop over every '/' of a /dev path after "/dev/". */
    method MakeDirsAlong(devpath: string)
      modifies this`log
      ensures log == old(log) + DirEffects(DirsUpTo(devpath, |devpath|))
    {
      var p := 5;
      while p < |devpath|
        invariant log == old(log) + DirEffects(DirsUpTo(devpath, if p <= |devpath| then p else |devpath|))
        decreases |devpath| - p
      {
        ghost var before := DirsUpTo(devpath, p);
        if devpath[p] == '/' {
          assert DirsUpTo(devpath, p + 1) == before + [devpath[..p]];
          DirEffectsSnoc(before, devpath[..p]);
          Assoc(old(log), DirEffects(before), [MakeDir(devpath[..p])]);
          log := log + [MakeDir(devpath[..p])];
        } else {
          assert DirsUpTo(devpath, p + 1) == before + [];
          assert before + [] == before;
        }
        p := p + 1;
      }
    }

    /** handle_generic_device_event */
    method HandleGenericDeviceEvent(ev: Uevent)
      modifies this`log
      ensures DeviceName(ev).None? ==> log == old(log)
      ensures DeviceName(ev).Some? && CharNodeOf(ev, DeviceName(ev).value).Ignored? ==> log == old(log)
      ensures DeviceName(ev).Some? && CharNodeOf(ev, DeviceName(ev).value).Node? ==>
        var node := CharNodeOf(ev, DeviceName(ev).value);
        var links := CharLinks(platforms, ev);
        log == old(log) + DirEffects(node.dirs) + (if links != [] then [MakeDir("/dev/usb")] else [])
          + DeviceEffects(devPerms, ev.action, node.devpath, false, ev.major, ev.minor, links)
    {
      var name := DeviceName(ev);
      if name.None? {
        return;
      }
      var node := CharNodeOf(ev, name.value);
      if node.Ignored? {
        return;
      }
      ghost var l0 := log;
      if ev.subsystem == "usb" && ev.deviceName.Some? {
        MakeDirsAlong(node.devpath);
        assert node.dirs == DirsUpTo(node.devpath, |node.devpath|);
      } else {
        log := log + DirEffects(node.dirs);
      }
      assert log == l0 + DirEffects(node.dirs);
      var links := CharLinks(platforms, ev);
      if links != [] {
        log := log + [MakeDir("/dev/usb")];
      }
      assert log == l0 + DirEffects(node.dirs) + (if links != [] then [MakeDir("/dev/usb")] else []);
      HandleDevice(ev.action, node.devpath, false, ev.major, ev.minor, links);
    }

    /** handle_deferred_module_loading: retry every queued alias, keeping those asking for a retry. */
    method HandleDeferredModuleLoading(insmod: (string, string) -> int, resolve: string -> string)
      modifies this`deferred, this`log
      ensures log == old(log) + RetryProbes(old(deferred), modArgs, resolve)
      ensures deferred == Retained(old(deferred), modArgs, resolve, insmod)
    {
      var q := deferred;
      var kept := [];
      var i := 0;
      while i < |q|
        invariant i <= |q|
        invariant kept == Retained(q[..i], modArgs, resolve, insmod)
        invariant log == old(log) + RetryProbes(q[..i], modArgs, resolve)
      {
        QueueStep(q, i, modArgs, resolve, insmod);
        var pattern := q[i];
        var args := LookupModArgs(modArgs, resolve(pattern));
        var ret := insmod(pattern, args);
        Assoc(old(log), RetryProbes(q[..i], modArgs, resolve), [Probe(pattern, args)]);
        log := log + [Probe(pattern, args)];
        if KeepsForRetry(ret) {
          kept := kept + [pattern];
        }
        i := i + 1;
      }
      TakeAll(q);
      deferred := kept;
    }

    /** handle_module_loading: the queue is retried first, then the new alias is probed. */
    method HandleModuleLoading(modalias: Option<string>, insmod: (string, string) -> int, resolve: string -> string)
      modifies this`deferred, this`log
      ensures modalias.None? ==> log == old(log) && deferred == old(deferred)
      ensures modalias.Some? ==>
        var m := modalias.value;
        log == old(log) + RetryProbes(old(deferred), modArgs, resolve) + [Probe(m, ArgsOf(modArgs, resolve, m))] &&
        deferred == Retained(old(deferred), modArgs, resolve, insmod) +
          (if KeepsForRetry(ProbeResult(modArgs, resolve, insmod, m)) then [m] else [])
    {
      if modalias.None? {
        return;
      }
      HandleDeferredModuleLoading(insmod, resolve);
      var m := modalias.value;
      var args := LookupModArgs(modArgs, resolve(m));
      var ret := insmod(m, args);
      log := log + [Probe(m, args)];
      if KeepsForRetry(ret) {
        deferred := deferred + [m];
      }
    }

    /** handle_device_event: modules, then sysfs fix-ups, then the node by subsystem. */
    method HandleDeviceEvent(ev: Uevent, sanitize: string -> string, insmod: (string, string) -> int, resolve: string -> string)
      modifies this`deferred, this`log, this`platforms
      ensures sysPerms == old(sysPerms) && devPerms == old(devPerms) && modArgs == old(modArgs)
      ensures ev.action != "add" || ev.modalias.None? ==> deferred == old(deferred)
      ensures !StartsWith(ev.subsystem, "block") && StartsWith(ev.subsystem, "platform") ==>
        (ev.action == "add" ==> platforms == Registered(old(platforms), ev.path)) &&
        (ev.action == "remove" ==> platforms == Unregistered(old(platforms), ev.path))
      ensures StartsWith(ev.subsystem, "block") || !StartsWith(ev.subsystem, "platform") ==> platforms == old(platforms)
      ensures (ev.action != "add" && ev.action != "change" && !StartsWith(ev.subsystem, "block") &&
        StartsWith(ev.subsystem, "platform")) ==> log == old(log)
      ensures deferred == QueueAfter(old(deferred), modArgs, resolve, insmod, ev)
      ensures platforms == PlatformsAfter(old(platforms), ev)
      ensures log == old(log) + ModuleEffects(old(deferred), modArgs, resolve, ev) + FixupEffects(sysPerms, ev)
        + NodeEffects(old(platforms), devPerms, ev, sanitize)
    {
      LoadModulesFor(ev, insmod, resolve);
      FixupFor(ev);
      HandleBySubsystem(ev, sanitize);
    }

    /** The module loading at the start of handle_device_event: only an add with an alias loads. */
    method LoadModulesFor(ev: Uevent, insmod: (string, string) -> int, resolve: string -> string)
      modifies this`deferred, this`log
      ensures deferred == QueueAfter(old(deferred), modArgs, resolve, insmod, ev)
      ensures log == old(log) + ModuleEffects(old(deferred), modArgs, resolve, ev)
    {
      if ev.action == "add" && ev.modalias.Some? {
        var m := ev.modalias.value;
        HandleModuleLoading(ev.modalias, insmod, resolve);
        Assoc(old(log), RetryProbes(old(deferred), modArgs, resolve), [Probe(m, ArgsOf(modArgs, resolve, m))]);
      }
    }

    /** The sysfs fix-up of handle_device_event: only add and change fix up. */
    method FixupFor(ev: Uevent)
      modifies this`log
      ensures log == old(log) + FixupEffects(sysPerms, ev)
    {
      if ev.action == "add" || ev.action == "change" {
        FixupSysPerms(ev.path);
      }
    }

    /** The subsystem dispatch at the end of handle_device_event. */
    method HandleBySubsystem(ev: Uevent, sanitize: string -> string)
      modifies this`log, this`platforms
      ensures log == old(log) + NodeEffects(old(platforms), devPerms, ev, sanitize)
      ensures platforms == PlatformsAfter(old(platforms), ev)
    {
      ghost var log0 := log;
      if StartsWith(ev.subsystem, "block") {
        HandleBlockDeviceEvent(ev, sanitize);
        if DeviceName(ev).Some? {
          var devpath := Take("/dev/block/" + DeviceName(ev).value, DEVPATH_MAX);
          var links := if StartsWith(ev.path, "/devices/") then BlockLinks(platforms, ev, sanitize) else [];
          Assoc(log0, [MakeDir("/dev/block/")], DeviceEffects(devPerms, ev.action, devpath, true, ev.major, ev.minor, links));
        }
      } else if StartsWith(ev.subsystem, "platform") {
        HandlePlatformDeviceEvent(ev);
      } else {
        HandleGenericDeviceEvent(ev);
        if DeviceName(ev).Some? && CharNodeOf(ev, DeviceName(ev).value).Node? {
          var node := CharNodeOf(ev, DeviceName(ev).value);
          var links := CharLinks(platforms, ev);
          var dirs, usb := DirEffects(node.dirs), if links != [] then [MakeDir("/dev/usb")] else [];
          Assoc(log0, dirs, usb);
          Assoc(log0, dirs + usb, DeviceEffects(devPerms, ev.action, node.devpath, false, ev.major, ev.minor, links));
        }
      }
    }

    /** handle_events_fd for one datagram: a datagram filling the buffer is dropped unparsed. */
    method HandleDatagram(d: seq<char>, sanitize: string -> string, insmod: (string, string) -> int, resolve: string -> string)
      modifies this`deferred, this`log, this`platforms
      ensures !Accepted(d) ==> log == old(log) && deferred == old(deferred) && platforms == old(platforms)
      ensures Accepted(d) ==>
        var ev := EventOf(FieldsFrom(Received(d), 0));
        deferred == QueueAfter(old(deferred), modArgs, resolve, insmod, ev) &&
        platforms == PlatformsAfter(old(platforms), ev) &&
        log == old(log) + ModuleEffects(old(deferred), modArgs, resolve, ev) + FixupEffects(sysPerms, ev)
          + NodeEffects(old(platforms), devPerms, ev, sanitize)
    {
      if !Accepted(d) {
        return;
      }
      var ev := ParseEvent(Received(d));
      HandleDeviceEvent(ev, sanitize, insmod, resolve);
    }
  }

  function DirEffects(dirs: seq<string>): (r: seq<Effect>)
    ensures |r| == |dirs|
  {
    if dirs == [] then [] else DirEffects(dirs[..|dirs| - 1]) + [MakeDir(dirs[|dirs| - 1])]
  }

  /** One make_dir per directory, in order. */
  lemma {:induction false} DirEffectsInOrder(dirs: seq<string>)
    ensures forall i :: 0 <= i < |dirs| ==> DirEffects(dirs)[i] == MakeDir(dirs[i])
  {
    if dirs != [] {
      var init := dirs[..|dirs| - 1];
      DirEffectsInOrder(init);
      forall i | 0 <= i < |dirs|
        ensures DirEffects(dirs)[i] == MakeDir(dirs[i])
      {
        if i < |init| {
          assert DirEffects(dirs)[i] == DirEffects(init)[i];
          assert dirs[i] == init[i];
        }
      }
    }
  }

  lemma DirEffectsSnoc(dirs: seq<string>, d: string)
    ensures DirEffects(dirs + [d]) == DirEffects(dirs) + [MakeDir(d)]
  {
    assert (dirs + [d])[..|dirs|] == dirs;
  }
}
