// charger/charger.c: the off-mode charging daemon. It follows the power
// supplies through kernel uevents, keeps a list of them with a count of the
// online charge sources, animates the battery level, debounces the power key
// and decides when to reboot into the main system or to power off.
//
// The sysfs files the daemon reads are a parameter (a map from path to file
// contents); the current time is a parameter `now`. Effects on the world
// (screen blanking, drawing, suspend requests, reboot and power-off) are
// recorded in an ordered log.

module Charger {
  import opened CStrings
  import opened UeventWire

  const BATTERY_UNKNOWN_TIME: int := 2000      // 2 * MSEC_PER_SEC
  const POWER_ON_KEY_TIME: int := 2000
  const UNPLUGGED_SHUTDOWN_TIME: int := 10000
  const THERMAL_POLL_TIME: int := 5000
  const BATTERY_FULL_THRESH: int := 95
  const BOOT_BATT_MIN_CAP_THRS: int := 3
  const LAST_KMSG_MAX_SZ: nat := 32 * 1024
  const MAX_KLOG_WRITE_BUF_SZ: nat := 256
  const KEY_MAX: nat := 0x2ff                  // linux/input.h
  const EV_KEY := 1                            // linux/input.h
  const KEY_POWER: nat := 116
  const INT64_MAX: int := 0x7fff_ffff_ffff_ffff
  const NAME_MAX: nat := 255                   // char name[256]
  const TYPE_MAX: nat := 31                    // char type[32], char ps_type[32]
  const PATH_MAX: nat := 4096

  /** The sysfs tree: the contents of each file that exists. */
  type Sysfs = string -> Option<string>

  // ---------------------------------------------------------------------
  // parse_uevent

  datatype PsUevent = PsUevent(
    action: string, path: string, subsystem: string,
    psName: string, psType: string, psOnline: string)

  /** Every field points at the empty string before the message is read. */
  const NoPsEvent := PsUevent("", "", "", "", "", "")

  datatype Key = KeyAction | KeyDevPath | KeySubsystem | KeyName | KeyOnline | KeyType

  function KeyText(k: Key): string
  {
    match k
    case KeyAction => "ACTION="
    case KeyDevPath => "DEVPATH="
    case KeySubsystem => "SUBSYSTEM="
    case KeyName => "POWER_SUPPLY_NAME="
    case KeyOnline => "POWER_SUPPLY_ONLINE="
    case KeyType => "POWER_SUPPLY_TYPE="
  }

  /** The keys in the order parse_uevent's if-chain tries them. */
  const KEY_ORDER: seq<Key> := [KeyAction, KeyDevPath, KeySubsystem, KeyName, KeyOnline, KeyType]

  function KeyOf(f: string): Option<Key>
  {
    FirstKey(f, KEY_ORDER, KeyText)
  }

  function SetField(ev: PsUevent, k: Key, v: string): PsUevent
  {
    match k
    case KeyAction => ev.(action := v)
    case KeyDevPath => ev.(path := v)
    case KeySubsystem => ev.(subsystem := v)
    case KeyName => ev.(psName := v)
    case KeyOnline => ev.(psOnline := v)
    case KeyType => ev.(psType := v)
  }

  /** One step of parse_uevent: a known key points its field at the rest of the string. */
  function ApplyField(ev: PsUevent, f: string): PsUevent
  {
    match KeyOf(f)
    case None => ev
    case Some(k) => SetField(ev, k, f[|KeyText(k)|..])
  }

  /** The strings applied in message order. */
  function Decode(ev: PsUevent, fs: seq<string>): PsUevent
  {
    FoldFields(ApplyField, ev, fs)
  }

  /** The value carried by the last string of the message with key k, or "" when there is none. */
  function LastValue(fs: seq<string>, k: Key): string
  {
    if fs == [] then ""
    else if KeyOf(fs[|fs| - 1]) == Some(k) then fs[|fs| - 1][|KeyText(k)|..]
    else LastValue(fs[..|fs| - 1], k)
  }

  /** The reference reading of a message: each field holds the value of the last string carrying its key. */
  function EventOf(fs: seq<string>): PsUevent
  {
    PsUevent(LastValue(fs, KeyAction), LastValue(fs, KeyDevPath), LastValue(fs, KeySubsystem),
             LastValue(fs, KeyName), LastValue(fs, KeyType), LastValue(fs, KeyOnline))
  }

  lemma LastValueSnoc(fs: seq<string>, f: string, k: Key)
    ensures LastValue(fs + [f], k) == if KeyOf(f) == Some(k) then f[|KeyText(k)|..] else LastValue(fs, k)
  {
    var gs := fs + [f];
    assert gs[..|gs| - 1] == fs;
    assert gs[|gs| - 1] == f;
  }

  lemma EventOfSnoc(fs: seq<string>, f: string)
    ensures EventOf(fs + [f]) == ApplyField(EventOf(fs), f)
  {
    LastValueSnoc(fs, f, KeyAction);
    LastValueSnoc(fs, f, KeyDevPath);
    LastValueSnoc(fs, f, KeySubsystem);
    LastValueSnoc(fs, f, KeyName);
    LastValueSnoc(fs, f, KeyOnline);
    LastValueSnoc(fs, f, KeyType);
    match KeyOf(f)
    case None =>
    case Some(k) =>
      match k
      case KeyAction =>
      case KeyDevPath =>
      case KeySubsystem =>
      case KeyName =>
      case KeyOnline =>
      case KeyType =>
  }

  /** Applying the strings in order keeps the last value of each key and "" otherwise. */
  lemma {:induction false} DecodeIsLastValue(fs: seq<string>)
    ensures Decode(NoPsEvent, fs) == EventOf(fs)
    decreases |fs|
  {
    if fs != [] {
      var init := fs[..|fs| - 1];
      var f := fs[|fs| - 1];
      assert fs == init + [f];
      DecodeIsLastValue(init);
      FoldSnoc(ApplyField, NoPsEvent, init, f);
      EventOfSnoc(init, f);
    }
  }

  /** parse_uevent: walk the message string by string until the empty string. */
  method ParseUevent(buf: seq<char>) returns (ev: PsUevent)
    requires Terminated(buf)
    ensures ev == EventOf(FieldsFrom(buf, 0))
  {
    ev := NoPsEvent;
    var i := 0;
    while buf[i] != NUL
      invariant i < |buf|
      invariant Decode(ev, FieldsFrom(buf, i)) == Decode(NoPsEvent, FieldsFrom(buf, 0))
      decreases |buf| - i
    {
      var j := ScanToNul(buf, i);
      FieldsFromFirst(buf, i);
      FoldFirst(ApplyField, ev, FieldsFrom(buf, i));
      ev := ApplyField(ev, buf[i..j]);
      i := j + 1;
    }
    DecodeIsLastValue(FieldsFrom(buf, 0));
  }

  /** The event a received datagram decodes to. */
  function EventOfDatagram(d: seq<char>): PsUevent
  {
    EventOf(FieldsFrom(Received(d), 0))
  }

  // ---------------------------------------------------------------------
  // read_file, read_file_int and the battery readings

  /**
   * read_file(path, buf, sz): at most sz - 1 bytes, one trailing newline
   * dropped, read back as a C string; None when the file is missing or empty.
   */
  function ReadFile(contents: Option<string>, sz: nat): (r: Option<string>)
    requires sz >= 2
    ensures r.None? <==> (contents.None? || contents.value == [])
    ensures r.Some? ==> NoNul(r.value) && |r.value| <= sz - 1
    ensures r.Some? ==> StartsWith(contents.value, r.value)
    ensures r.Some? && NoNul(Take(contents.value, sz - 1)) ==>
      var t := Take(contents.value, sz - 1);
      (r.value == t && t[|t| - 1] != '\n') || r.value + "\n" == t
    ensures r.Some? && |r.value| < |Take(contents.value, sz - 1)| ==>
      Take(contents.value, sz - 1)[|r.value|] in {NUL, '\n'}
  {
    if contents.None? || contents.value == [] then None
    else
      var t := Take(contents.value, sz - 1);
      var u := if t[|t| - 1] == '\n' then t[..|t| - 1] else t;
      Some(UpToNul(u))
  }

  predicate IsOctDigit(c: char) { '0' <= c <= '7' }

  predicate AllOct(s: string) { forall i :: 0 <= i < |s| ==> IsOctDigit(s[i]) }

  function OctValue(s: string): nat
    requires AllOct(s)
  {
    if s == [] then 0 else 8 * OctValue(s[..|s| - 1]) + (s[|s| - 1] as int - '0' as int)
  }

  function LeadingOct(s: string): (r: string)
    ensures AllOct(r) && StartsWith(s, r)
    ensures |r| < |s| ==> !IsOctDigit(s[|r|])
  {
    if s == [] || !IsOctDigit(s[0]) then [] else [s[0]] + LeadingOct(s[1..])
  }

  /** The magnitude strtol(s, &end, 0) reads with no sign in front, and what follows it. */
  function UnsignedBase0(b: string): (r: Option<(nat, string)>)
    ensures r.Some? ==> |r.value.1| < |b| && r.value.1 == b[|b| - |r.value.1|..]
  {
    if |b| >= 3 && b[0] == '0' && (b[1] == 'x' || b[1] == 'X') && IsHexDigit(b[2]) then
      var h := LeadingHex(b[2..]);
      Some((HexValue(h), b[2 + |h|..]))
    else if b != [] && b[0] == '0' then
      var o := LeadingOct(b);
      Some((OctValue(o), b[|o|..]))
    else
      var d := LeadingDigits(b);
      if d == [] then None else Some((DecValue(d), b[|d|..]))
  }

  /**
   * strtol(s, &end, 0): white space, an optional sign, then "0x" and hex
   * digits, "0" and octal digits, or decimal digits; None when no digit is read.
   */
  function Strtol0(s: string): (r: Option<(int, string)>)
  {
    var t := SkipSpaces(s);
    var neg := t != [] && t[0] == '-';
    var b := if t != [] && (t[0] == '-' || t[0] == '+') then t[1..] else t;
    match UnsignedBase0(b)
    case None => None
    case Some((v, rest)) => Some((if neg then -(v as int) else v as int, rest))
  }

  /** read_file_int: the number in a file of at most 31 bytes, which may only be followed by a newline. */
  function ReadInt(contents: Option<string>): (r: Option<int>)
  {
    match ReadFile(contents, 32)
    case None => None
    case Some(t) =>
      match Strtol0(t)
      case None => None
      case Some((v, rest)) => if rest == [] || rest[0] == '\n' then Some(v) else None
  }

  // ---------------------------------------------------------------------
  // The power-supply list: find_supply, add_supply, remove_supply

  datatype Supply = Supply(
    name: string, kind: string, online: bool,
    capPath: string, modelPath: string, statusPath: string)

  /** snprintf(buf, PATH_MAX, "/sys/%s<leaf>", path). */
  function SysPath(path: string, leaf: string): (r: string)
    ensures |r| < PATH_MAX
  {
    Take("/sys/" + path + leaf, PATH_MAX - 1)
  }

  /** The record add_supply fills in: name and type are cut to their buffers. */
  function NewSupply(name: string, kind: string, path: string, online: bool): (s: Supply)
    ensures |s.name| <= NAME_MAX && StartsWith(name, s.name)
    ensures |s.kind| <= TYPE_MAX && StartsWith(kind, s.kind)
    ensures s.online == online
  {
    Supply(Take(name, NAME_MAX), Take(kind, TYPE_MAX), online,
           SysPath(path, "/capacity"), SysPath(path, "/model_name"), SysPath(path, "/status"))
  }

  /**
   * find_supply: the first supply whose stored name equals name. A stored
   * name has at most 255 characters, so strncmp over 256 bytes is equality.
   */
  function FirstNamed(list: seq<Supply>, name: string): (k: Option<nat>)
    ensures k.Some? ==> (k.value < |list| && list[k.value].name == name &&
                         (forall j :: 0 <= j < k.value ==> list[j].name != name))
    ensures k.None? ==> forall j :: 0 <= j < |list| ==> list[j].name != name
  {
    if list == [] then None
    else if list[0].name == name then Some(0)
    else
      var r := FirstNamed(list[1..], name);
      assert forall j :: 0 <= j < |list| - 1 ==> list[1..][j] == list[j + 1];
      if r.Some? then Some(r.value + 1) else None
  }

  /** A name longer than the name buffer is stored cut short, so find_supply never finds it. */
  lemma LongNameNeverFound(list: seq<Supply>, name: string)
    requires forall j :: 0 <= j < |list| ==> |list[j].name| <= NAME_MAX
    requires |name| > NAME_MAX
    ensures FirstNamed(list, name).None?
  {
  }

  /** list_remove of the supply at k. */
  function Without(list: seq<Supply>, k: nat): (r: seq<Supply>)
    requires k < |list|
    ensures |r| == |list| - 1
    ensures forall j :: 0 <= j < k ==> r[j] == list[j]
    ensures forall j :: k <= j < |r| ==> r[j] == list[j + 1]
  {
    list[..k] + list[k + 1..]
  }

  // ---------------------------------------------------------------------
  // The online recount of process_ps_uevent

  /** sprintf(path_online, "/sys/class/power_supply/%s/online", name). */
  function OnlinePath(name: string): string
  {
    "/sys/class/power_supply/" + name + "/online"
  }

  /** What the recount reads for one supply: None for a "Battery" or an unreadable online file. */
  function OnlineReading(s: Supply, fs: Sysfs): Option<bool>
  {
    if s.kind == "Battery" then None
    else
      match ReadFile(fs(OnlinePath(s.name)), 3)
      case None => None
      case Some(t) => Some(Atoi(t) != 0)
  }

  /** The supply after the recount has looked at it. */
  function Refreshed(s: Supply, fs: Sysfs): (r: Supply)
    ensures r.name == s.name && r.kind == s.kind && r.capPath == s.capPath
    ensures r.modelPath == s.modelPath && r.statusPath == s.statusPath
    ensures s.kind == "Battery" ==> r == s
  {
    match OnlineReading(s, fs)
    case None => s
    case Some(b) => s.(online := b)
  }

  function RefreshAll(list: seq<Supply>, fs: Sysfs): (r: seq<Supply>)
    ensures |r| == |list| && forall j :: 0 <= j < |list| ==> r[j] == Refreshed(list[j], fs)
  {
    seq(|list|, j requires 0 <= j < |list| => Refreshed(list[j], fs))
  }

  /** The change one online value makes to num_supplies_online. */
  function Transition(was: bool, now: bool): (d: int)
    ensures d == (if now then 1 else 0) - (if was then 1 else 0)
  {
    if was && !now then -1 else if !was && now then 1 else 0
  }

  /** The sum of the recount's changes over the supplies of list, in list order. */
  function Delta(list: seq<Supply>, fs: Sysfs): int
  {
    if list == [] then 0
    else
      var s := list[|list| - 1];
      Delta(list[..|list| - 1], fs) + Transition(s.online, Refreshed(s, fs).online)
  }

  /** Delta over one more supply of the list. */
  lemma DeltaStep(list: seq<Supply>, i: nat, fs: Sysfs)
    requires i < |list|
    ensures Delta(list[..i + 1], fs) == Delta(list[..i], fs) + Transition(list[i].online, Refreshed(list[i], fs).online)
  {
    assert list[..i + 1][..i] == list[..i];
  }

  /** A supply num_supplies_online is meant to count: an online supply that is not a "Battery". */
  function Counted(s: Supply): nat
  {
    if s.kind != "Battery" && s.online then 1 else 0
  }

  function OnlineCount(list: seq<Supply>): nat
  {
    if list == [] then 0 else OnlineCount(list[..|list| - 1]) + Counted(list[|list| - 1])
  }

  lemma {:induction false} OnlineCountConcat(a: seq<Supply>, b: seq<Supply>)
    ensures OnlineCount(a + b) == OnlineCount(a) + OnlineCount(b)
    decreases |b|
  {
    if b == [] {
      assert a + b == a;
    } else {
      var c := a + b;
      var b' := b[..|b| - 1];
      assert c[..|c| - 1] == a + b';
      assert c[|c| - 1] == b[|b| - 1];
      OnlineCountConcat(a, b');
      assert OnlineCount(c) == OnlineCount(a + b') + Counted(b[|b| - 1]);
      assert OnlineCount(b) == OnlineCount(b') + Counted(b[|b| - 1]);
    }
  }

  lemma OnlineCountSnoc(a: seq<Supply>, x: Supply)
    ensures OnlineCount(a + [x]) == OnlineCount(a) + Counted(x)
  {
    assert (a + [x])[..|a|] == a;
  }

  lemma OnlineCountPrefix(list: seq<Supply>, k: nat)
    requires k < |list|
    ensures OnlineCount(list[..k + 1]) == OnlineCount(list[..k]) + Counted(list[k])
  {
    assert list[..k + 1][..k] == list[..k];
  }

  lemma SplitAt<T>(list: seq<T>, k: nat)
    requires k <= |list|
    ensures list == list[..k] + list[k..]
  {
  }

  /** Removing a supply takes its own contribution off the count. */
  lemma OnlineCountWithout(list: seq<Supply>, k: nat)
    requires k < |list|
    ensures OnlineCount(Without(list, k)) == OnlineCount(list) - Counted(list[k])
  {
    SplitAt(list, k + 1);
    OnlineCountPrefix(list, k);
    OnlineCountConcat(list[..k + 1], list[k + 1..]);
    OnlineCountConcat(list[..k], list[k + 1..]);
  }

  /** The recount's +1/-1 steps add up to the change in the number of counted supplies. */
  lemma {:induction false} DeltaIsCountChange(list: seq<Supply>, fs: Sysfs)
    ensures Delta(list, fs) == OnlineCount(RefreshAll(list, fs)) - OnlineCount(list)
    decreases |list|
  {
    if list != [] {
      var init := list[..|list| - 1];
      var s := list[|list| - 1];
      DeltaIsCountChange(init, fs);
      var r := RefreshAll(list, fs);
      assert r[..|r| - 1] == RefreshAll(init, fs);
      assert r[|r| - 1] == Refreshed(s, fs);
    }
  }

  // ---------------------------------------------------------------------
  // process_ps_uevent

  /** The supply list and its bookkeeping: num_supplies, num_supplies_online and the battery. */
  datatype Supplies = Supplies(list: seq<Supply>, count: int, online: int, battery: Option<nat>)

  /**
   * The bookkeeping the charger keeps consistent: num_supplies is the list
   * length, and charger->battery points at a listed supply whose type
   * starts with "Battery".
   */
  predicate Consistent(st: Supplies)
  {
    st.count == |st.list| &&
    (st.battery.Some? ==> st.battery.value < |st.list| && StartsWith(st.list[st.battery.value].kind, "Battery"))
  }

  /** For every supply, the recount reads its online file and updates the count by the transition. */
  function Recount(st: Supplies, fs: Sysfs): (r: Supplies)
    ensures |r.list| == |st.list| && r.count == st.count && r.battery == st.battery
  {
    st.(list := RefreshAll(st.list, fs), online := st.online + Delta(st.list, fs))
  }

  /** The supply type: POWER_SUPPLY_TYPE, or the device's sysfs type file; None when neither is there. */
  function PsType(ev: PsUevent, fs: Sysfs): (r: Option<string>)
    ensures r.Some? ==> |r.value| <= TYPE_MAX
  {
    if ev.psType == [] then
      if ev.path == [] then None else ReadFile(fs("/sys/" + ev.path + "/type"), TYPE_MAX + 1)
    else Some(Take(ev.psType, TYPE_MAX))
  }

  /** The list after an "add" of a new supply, before the recount. */
  function Added(st: Supplies, ev: PsUevent, kind: string): (r: Supplies)
    ensures |r.list| == |st.list| + 1 && r.list[..|st.list|] == st.list && r.count == st.count + 1
    ensures StartsWith(ev.psName, r.list[|st.list|].name) && StartsWith(kind, r.list[|st.list|].kind)
    ensures st.online <= r.online <= st.online + 1
  {
    var battery := StartsWith(kind, "Battery");
    var online := Atoi(ev.psOnline) != 0;
    Supplies(st.list + [NewSupply(ev.psName, kind, ev.path, online)], st.count + 1,
             if !battery && online then st.online + 1 else st.online,
             if battery && st.battery.None? then Some(|st.list|) else st.battery)
  }

  /** Added, field by field, for the type test and online reading already made. */
  lemma AddedFields(st: Supplies, ev: PsUevent, kind: string, isBattery: bool, online: bool)
    requires isBattery == StartsWith(kind, "Battery") && online == (Atoi(ev.psOnline) != 0)
    ensures var r := Added(st, ev, kind);
      r.list == st.list + [NewSupply(ev.psName, kind, ev.path, online)] && r.count == st.count + 1 &&
      r.online == (if !isBattery && online then st.online + 1 else st.online) &&
      r.battery == (if isBattery && st.battery.None? then Some(|st.list|) else st.battery)
  {
  }

  /** The list after a "remove" of the supply at k, before the recount; the online count is kept. */
  function Removed(st: Supplies, k: nat): (r: Supplies)
    requires k < |st.list|
    ensures |r.list| == |st.list| - 1 && r.count == st.count - 1 && r.online == st.online
    ensures r.battery.None? <==> st.battery.None? || st.battery == Some(k)
  {
    Supplies(Without(st.list, k), st.count - 1, st.online,
             if st.battery == Some(k) then None
             else if st.battery.Some? && st.battery.value > k then Some(st.battery.value - 1)
             else st.battery)
  }

  /** process_ps_uevent on the supply list. */
  function PsStep(st: Supplies, ev: PsUevent, fs: Sysfs): Supplies
  {
    match PsType(ev, fs)
    case None => st
    case Some(kind) =>
      var found := FirstNamed(st.list, ev.psName);
      if ev.action == "add" then
        if found.None? then Recount(Added(st, ev, kind), fs) else Recount(st, fs)
      else if ev.action == "remove" then
        if found.Some? then Recount(Removed(st, found.value), fs) else Recount(st, fs)
      else if ev.action == "change" then
        if found.None? then st else Recount(st, fs)
      else st
  }

  /** process_uevent: only the power_supply subsystem is handled. */
  function UeventStep(st: Supplies, ev: PsUevent, fs: Sysfs): Supplies
  {
    if ev.subsystem == "power_supply" then PsStep(st, ev, fs) else st
  }

  /**
   * handle_uevent_fd over the datagrams successive receives return: an
   * empty one ends the loop, one of UEVENT_MSG_LEN bytes or more is dropped.
   */
  function Handle(st: Supplies, ds: seq<seq<char>>, fs: Sysfs): Supplies
    decreases |ds|
  {
    if ds == [] || ds[0] == [] then st
    else if !Accepted(ds[0]) then Handle(st, ds[1..], fs)
    else Handle(UeventStep(st, EventOfDatagram(ds[0]), fs), ds[1..], fs)
  }

  /** A datagram that fills the receive buffer changes nothing. */
  lemma OverflowDropped(st: Supplies, d: seq<char>, ds: seq<seq<char>>, fs: Sysfs)
    requires |d| >= UEVENT_MSG_LEN
    ensures Handle(st, [d] + ds, fs) == Handle(st, ds, fs)
  {
    assert ([d] + ds)[1..] == ds;
  }

  // ---------------------------------------------------------------------
  // Properties of process_ps_uevent

  /** The recount keeps the list's identity and bookkeeping, refreshing only online values. */
  lemma RecountKeeps(st: Supplies, fs: Sysfs)
    ensures |Recount(st, fs).list| == |st.list| && Recount(st, fs).count == st.count
    ensures Recount(st, fs).battery == st.battery
    ensures forall j :: 0 <= j < |st.list| ==>
      Recount(st, fs).list[j].name == st.list[j].name && Recount(st, fs).list[j].kind == st.list[j].kind
    ensures Recount(st, fs).online - st.online ==
      OnlineCount(Recount(st, fs).list) - OnlineCount(st.list)
  {
    DeltaIsCountChange(st.list, fs);
  }

  /** The recount keeps the bookkeeping consistent. */
  lemma RecountConsistent(st: Supplies, fs: Sysfs)
    requires Consistent(st)
    ensures Consistent(Recount(st, fs))
  {
    RecountKeeps(st, fs);
  }

  /** Appending a new supply keeps the bookkeeping consistent. */
  lemma AddedConsistent(st: Supplies, ev: PsUevent, kind: string)
    requires Consistent(st) && |kind| <= TYPE_MAX
    ensures Consistent(Added(st, ev, kind))
  {
    var a := Added(st, ev, kind);
    assert a.list[|st.list|].kind == kind;
    if a.battery.Some? && a.battery == st.battery {
      assert a.list[a.battery.value] == st.list[a.battery.value];
    }
  }

  /** Removing a supply keeps the bookkeeping consistent. */
  lemma RemovedConsistent(st: Supplies, k: nat)
    requires Consistent(st) && k < |st.list|
    ensures Consistent(Removed(st, k))
  {
    var r := Removed(st, k);
    if r.battery.Some? {
      var b := st.battery.value;
      if b > k {
        assert r.list[b - 1] == st.list[b];
      } else {
        assert r.list[b] == st.list[b];
      }
    }
  }

  /** Each event keeps num_supplies and charger->battery consistent with the list. */
  lemma PsStepConsistent(st: Supplies, ev: PsUevent, fs: Sysfs)
    requires Consistent(st)
    ensures Consistent(PsStep(st, ev, fs))
  {
    match PsType(ev, fs)
    case None =>
    case Some(kind) =>
      var found := FirstNamed(st.list, ev.psName);
      if ev.action == "add" && found.None? {
        AddedConsistent(st, ev, kind);
        RecountConsistent(Added(st, ev, kind), fs);
      } else if ev.action == "remove" && found.Some? {
        RemovedConsistent(st, found.value);
        RecountConsistent(Removed(st, found.value), fs);
      } else {
        RecountConsistent(st, fs);
      }
  }

  /** An "add" for a name already in the list adds nothing. */
  lemma AddExistingAddsNothing(st: Supplies, ev: PsUevent, fs: Sysfs)
    requires ev.action == "add" && FirstNamed(st.list, ev.psName).Some? && PsType(ev, fs).Some?
    ensures PsStep(st, ev, fs).list == RefreshAll(st.list, fs)
    ensures PsStep(st, ev, fs).count == st.count && PsStep(st, ev, fs).battery == st.battery
  {
  }

  /** An "add" of a new name appends it at the tail and counts it. */
  lemma AddNewAppends(st: Supplies, ev: PsUevent, fs: Sysfs)
    requires ev.action == "add" && FirstNamed(st.list, ev.psName).None? && PsType(ev, fs).Some?
    ensures var r := PsStep(st, ev, fs);
      |r.list| == |st.list| + 1 && r.count == st.count + 1 &&
      r.list[..|st.list|] == RefreshAll(st.list, fs) &&
      r.list[|st.list|] == Refreshed(NewSupply(ev.psName, PsType(ev, fs).value, ev.path, Atoi(ev.psOnline) != 0), fs)
  {
    var a := Added(st, ev, PsType(ev, fs).value);
    var r := Recount(a, fs);
    assert r.list[..|st.list|] == RefreshAll(st.list, fs);
  }

  /** Only the first battery added becomes charger->battery: a set battery is never replaced by an "add". */
  lemma FirstBatteryKept(st: Supplies, ev: PsUevent, fs: Sysfs)
    requires ev.action == "add" && st.battery.Some?
    ensures PsStep(st, ev, fs).battery == st.battery
  {
  }

  /** A new supply whose type starts with "Battery" becomes charger->battery when none is set. */
  lemma NewBatteryChosen(st: Supplies, ev: PsUevent, fs: Sysfs)
    requires ev.action == "add" && st.battery.None? && FirstNamed(st.list, ev.psName).None?
    requires PsType(ev, fs).Some? && StartsWith(PsType(ev, fs).value, "Battery")
    ensures PsStep(st, ev, fs).battery == Some(|st.list|)
  {
  }

  /** Removing the supply that charger->battery points at clears it. */
  lemma RemoveClearsBattery(st: Supplies, ev: PsUevent, fs: Sysfs)
    requires ev.action == "remove" && PsType(ev, fs).Some?
    requires st.battery.Some? && FirstNamed(st.list, ev.psName) == st.battery
    ensures PsStep(st, ev, fs).battery.None?
  {
  }

  /** A "change" for an unknown name, or any action other than add, remove and change, changes nothing. */
  lemma IgnoredEvents(st: Supplies, ev: PsUevent, fs: Sysfs)
    requires (ev.action == "change" && FirstNamed(st.list, ev.psName).None?) ||
      (ev.action != "add" && ev.action != "remove" && ev.action != "change")
    ensures PsStep(st, ev, fs) == st
  {
  }

  /** num_supplies_online equals the number of online supplies that are not a "Battery". */
  predicate Balanced(st: Supplies)
  {
    st.online == OnlineCount(st.list)
  }

  /** A "change" keeps the online count exact. */
  lemma ChangeKeepsBalance(st: Supplies, ev: PsUevent, fs: Sysfs)
    requires Balanced(st) && ev.action == "change"
    ensures Balanced(PsStep(st, ev, fs))
  {
    RecountKeeps(st, fs);
  }

  /** The recount keeps an exact online count exact. */
  lemma RecountBalanced(st: Supplies, fs: Sysfs)
    requires Balanced(st)
    ensures Balanced(Recount(st, fs))
  {
    RecountKeeps(st, fs);
  }

  /** Appending a supply counts it exactly when its type is "Battery" or does not start with "Battery". */
  lemma AddedBalanced(st: Supplies, ev: PsUevent, kind: string)
    requires Balanced(st) && |kind| <= TYPE_MAX
    requires kind == "Battery" || !StartsWith(kind, "Battery")
    ensures Balanced(Added(st, ev, kind))
  {
    var s := NewSupply(ev.psName, kind, ev.path, Atoi(ev.psOnline) != 0);
    assert s.kind == kind;
    OnlineCountSnoc(st.list, s);
  }

  /**
   * An "add" keeps the online count exact unless the new type starts with
   * "Battery" without being "Battery": the add then treats it as a battery,
   * and the recount does not.
   */
  lemma AddKeepsBalance(st: Supplies, ev: PsUevent, fs: Sysfs)
    requires Balanced(st) && ev.action == "add"
    requires PsType(ev, fs).Some? ==> (PsType(ev, fs).value == "Battery" || !StartsWith(PsType(ev, fs).value, "Battery"))
    ensures Balanced(PsStep(st, ev, fs))
  {
    match PsType(ev, fs)
    case None =>
    case Some(kind) =>
      if FirstNamed(st.list, ev.psName).None? {
        AddedBalanced(st, ev, kind);
        RecountBalanced(Added(st, ev, kind), fs);
      } else {
        RecountBalanced(st, fs);
      }
  }

  /** The kept quirk: removing an online charge source leaves num_supplies_online one too high. */
  lemma RemoveKeepsOnlineCount(st: Supplies, ev: PsUevent, fs: Sysfs)
    requires Balanced(st) && ev.action == "remove" && PsType(ev, fs).Some?
    requires FirstNamed(st.list, ev.psName).Some?
    requires Counted(st.list[FirstNamed(st.list, ev.psName).value]) == 1
    ensures PsStep(st, ev, fs).online == OnlineCount(PsStep(st, ev, fs).list) + 1
  {
    var k := FirstNamed(st.list, ev.psName).value;
    OnlineCountWithout(st.list, k);
    RecountKeeps(Removed(st, k), fs);
  }

  // ---------------------------------------------------------------------
  // get_battery_capacity, is_battery_valid, is_status_charging

  /** The supply charger->battery points at. */
  function BatteryOf(st: Supplies): Option<Supply>
  {
    if st.battery.Some? && st.battery.value < |st.list| then Some(st.list[st.battery.value]) else None
  }

  /**
   * get_battery_capacity: the number in the battery's capacity file; -1 with
   * no battery, no readable number, or a number above 100.
   */
  function BatteryCapacity(battery: Option<Supply>, fs: Sysfs): (cap: int)
    ensures cap <= 100
    ensures battery.None? ==> cap == -1
  {
    if battery.None? then -1
    else
      match ReadInt(fs(battery.value.capPath))
      case None => -1
      case Some(v) => if v > 100 then -1 else v
  }

  /** read_file of a short decimal line gives the digits. */
  lemma ReadDecimalLine(n: nat)
    requires n <= 100
    ensures ReadFile(Some(NatToDec(n) + "\n"), 32) == Some(NatToDec(n))
  {
    var d := NatToDec(n);
    NatToDecLength(n);
    var t := d + "\n";
    assert Take(t, 31) == t;
    assert t[..|t| - 1] == d;
    assert IndexOf(d, NUL).None? by {
      forall j | 0 <= j < |d| ensures d[j] != NUL {
        assert IsDigit(d[j]);
      }
    }
  }

  /** A lone "0" is read as an octal number. */
  lemma UnsignedZero()
    ensures UnsignedBase0("0") == Some((0, []))
  {
    assert LeadingOct("0") == "0" by {
      assert "0"[1..] == [];
    }
    assert OctValue("0") == 0 by {
      assert "0"[..0] == [];
    }
    assert "0"[1..] == [];
  }

  /** Decimal digits without a leading zero are read whole, as decimal. */
  lemma UnsignedDecimal(d: string)
    requires d != [] && AllDigits(d) && d[0] != '0'
    ensures UnsignedBase0(d) == Some((DecValue(d), []))
  {
    LeadingDigitsAll(d, []);
    assert d + [] == d;
    assert d[|d|..] == [];
  }

  /** strtol(.., 0) of a string starting with a digit: no spaces to skip, no sign. */
  lemma StrtolUnsigned(d: string, v: nat, rest: string)
    requires d != [] && IsDigit(d[0]) && UnsignedBase0(d) == Some((v, rest))
    ensures Strtol0(d) == Some((v as int, rest))
  {
    assert SkipSpaces(d) == d;
    assert !(d[0] == '-' || d[0] == '+');
  }

  /** strtol(.., 0) of a digit string that is "0" or has no leading zero reads its decimal value. */
  lemma StrtolOfDigits(d: string)
    requires d != [] && AllDigits(d) && (d == "0" || d[0] != '0')
    ensures Strtol0(d) == Some((DecValue(d) as int, []))
  {
    if d == "0" {
      UnsignedZero();
      assert DecValue("0") == 0 by {
        assert "0"[..0] == [];
      }
    } else {
      UnsignedDecimal(d);
    }
    StrtolUnsigned(d, DecValue(d), []);
  }

  /** strtol(.., 0) reads back what printf("%d") wrote, a lone "0" as octal. */
  lemma StrtolOfNatToDec(n: nat)
    ensures Strtol0(NatToDec(n)) == Some((n as int, []))
  {
    NatToDecLeading(n);
    DecValueOfNatToDec(n);
    if n == 0 {
      assert NatToDec(0) == "0";
    }
    StrtolOfDigits(NatToDec(n));
  }

  /** A capacity the kernel prints as a decimal line is read back as that number. */
  lemma CapacityReadBack(battery: Option<Supply>, fs: Sysfs, n: nat)
    requires battery.Some? && n <= 100 && fs(battery.value.capPath) == Some(NatToDec(n) + "\n")
    ensures BatteryCapacity(battery, fs) == n
  {
    ReadDecimalLine(n);
    StrtolOfNatToDec(n);
  }

  /** is_battery_valid: -1 with no battery or no model file, 0 for a model name starting "UNKNOWN", else 1. */
  function BatteryValid(battery: Option<Supply>, fs: Sysfs): (v: int)
    ensures -1 <= v <= 1
    ensures battery.None? ==> v == -1
  {
    if battery.None? then -1
    else
      match ReadFile(fs(battery.value.modelPath), 32)
      case None => -1
      case Some(m) => if StartsWith(m, "UNKNOWN") then 0 else 1
  }

  /** is_status_charging: the battery's status file starts with "Charging" or "Full". */
  predicate StatusCharging(battery: Option<Supply>, fs: Sysfs)
  {
    battery.Some? &&
    match ReadFile(fs(battery.value.statusPath), 32)
    case None => false
    case Some(t) => StartsWith(t, "Charging") || StartsWith(t, "Full")
  }

  /** The three battery readings one pass of the event loop takes. */
  datatype Readings = Readings(cap: int, valid: int, charging: bool)

  function ReadingsOf(battery: Option<Supply>, fs: Sysfs): (rd: Readings)
    ensures rd.cap <= 100 && -1 <= rd.valid <= 1
    ensures battery.None? ==> rd == Readings(-1, -1, false)
  {
    Readings(BatteryCapacity(battery, fs), BatteryValid(battery, fs), StatusCharging(battery, fs))
  }

  // ---------------------------------------------------------------------
  // The battery animation: update_screen_state

  datatype Frame = Frame(dispTime: int, minCapacity: int, levelOnly: bool)

  /** batt_anim_frames: the critical frame, then pairs of frames per 20% step. */
  function BattAnimFrames(): (fr: seq<Frame>)
    ensures |fr| == 9
  {
    [Frame(750, 0, false), Frame(750, 0, false), Frame(750, 20, false), Frame(750, 20, false),
     Frame(750, 40, false), Frame(750, 40, false), Frame(750, 60, false), Frame(750, 80, false),
     Frame(750, BATTERY_FULL_THRESH, false)]
  }

  datatype Animation = Animation(
    run: bool, curFrame: int, numFrames: nat,
    curCycle: int, numCycles: int, animThresh: int, capacity: int)

  /** The frame indices update_screen_state reads stay inside the frame table. */
  predicate Fits(a: Animation, frames: seq<Frame>)
  {
    a.numFrames <= |frames| && 0 <= a.curFrame < |frames| && 0 <= a.animThresh < |frames|
  }

  datatype Effect =
    | Blank(on: bool)        // gr_fb_blank
    | Clear                  // clear_screen
    | Flip                   // gr_flip
    | ShowUnknown            // draw_unknown
    | ShowFrame(index: int)  // draw_surface_centered of frames[index]
    | Suspend(enable: bool)  // request_suspend
    | MarkForcedShutdown     // system("echo 1 > .../force_shutdown_occured")
    | PowerOff               // android_reboot(ANDROID_RB_POWEROFF)
    | Restart                // android_reboot(ANDROID_RB_RESTART)

  /** reset_animation */
  function Reset(a: Animation): Animation
  {
    a.(curCycle := 0, curFrame := 0, run := false)
  }

  /** redraw_screen: the unknown-battery picture, or the current frame with the critical frame over it. */
  function Redraw(a: Animation, rd: Readings, bootMinCap: int): (e: seq<Effect>)
    ensures |e| >= 3 && e[0] == Clear && e[|e| - 1] == Flip
  {
    [Clear] +
    (if a.capacity < 0 || a.numFrames == 0 || rd.valid == 0 then [ShowUnknown]
     else [ShowFrame(a.curFrame)] + (if rd.cap < bootMinCap then [ShowFrame(0)] else [])) +
    [Flip]
  }

  /** The first index k >= i whose frame needs more capacity than cap, or n when there is none. */
  function FirstAbove(frames: seq<Frame>, n: nat, cap: int, i: nat): (k: nat)
    requires 1 <= i <= n <= |frames|
    ensures i <= k <= n
    ensures forall j :: i <= j < k ==> cap >= frames[j].minCapacity
    ensures k < n ==> cap < frames[k].minCapacity
    decreases n - i
  {
    if i == n || cap < frames[i].minCapacity then i else FirstAbove(frames, n, cap, i + 1)
  }

  /** The first index j >= k that is past the frames in use or not a level-only frame. */
  function NextShown(frames: seq<Frame>, n: nat, k: nat): (j: nat)
    requires n <= |frames|
    ensures k <= j && (j > k ==> j <= n)
    ensures j < n ==> !frames[j].levelOnly
    ensures forall m :: k <= m < j ==> m < n && frames[m].levelOnly
    decreases n - k
  {
    if k >= n || !frames[k].levelOnly then k else NextShown(frames, n, k + 1)
  }

  /** What one call of update_screen_state leaves behind. */
  datatype Step = Step(anim: Animation, next: int, effects: seq<Effect>)

  /** The pass is over: blank, stop at the frame of the level reached, maybe suspend. */
  function AnimationDone(a: Animation, frames: seq<Frame>, rd: Readings, online: int, bootMinCap: int): Step
    requires Fits(a, frames)
  {
    var stop := Reset(a).(curFrame := if rd.cap < frames[a.animThresh].minCapacity then a.animThresh - 1 else a.animThresh);
    Step(Reset(stop), -1,
         [Blank(true)] + Redraw(stop, rd, bootMinCap) +
         (if online > 0 && rd.charging then [Suspend(true), Clear, Flip] else []))
  }

  /** A pass starting at frame 0 picks the frame of the capacity and doubles its display time. */
  function Started(a: Animation, frames: seq<Frame>, cap: int): (r: (Animation, int))
    requires Fits(a, frames)
    ensures Fits(r.0, frames) && r.0.run == a.run && r.0.curCycle == a.curCycle && r.0.numFrames == a.numFrames
  {
    if a.curFrame != 0 then (a, frames[a.curFrame].dispTime)
    else if cap >= 0 && a.numFrames != 0 then
      var i := FirstAbove(frames, a.numFrames, cap, 1);
      var cur := i - 1;
      (a.(curFrame := cur, animThresh := if i == a.numFrames then cur else cur + 1, capacity := cap),
       frames[cur].dispTime * 2)
    else (a.(capacity := cap), frames[a.curFrame].dispTime)
  }

  /** The frame counter after a frame is shown: the next frame to show while charging, else back to 0. */
  function Advance(a: Animation, frames: seq<Frame>, charging: bool): (r: Animation)
    requires Fits(a, frames)
    ensures Fits(r, frames)
  {
    if charging then
      var j := NextShown(frames, a.numFrames, a.curFrame + 1);
      if j > a.animThresh then a.(curCycle := a.curCycle + 1, curFrame := 0) else a.(curFrame := j)
    else a.(curFrame := 0, curCycle := a.curCycle + 1)
  }

  /** One frame of a pass: draw it, then schedule the next transition. */
  function AnimationFrame(a: Animation, frames: seq<Frame>, now: int, rd: Readings, online: int, bootMinCap: int): Step
    requires Fits(a, frames)
  {
    var (b, disp) := Started(a, frames, rd.cap);
    var shown := (if b.curCycle == 0 then [Blank(false)] else []) + Redraw(b, rd, bootMinCap);
    if b.numFrames == 0 || b.capacity < 0 then
      Step(b.(curCycle := b.curCycle + 1), now + BATTERY_UNKNOWN_TIME, shown)
    else
      Step(Advance(b, frames, online != 0 && rd.charging), now + disp, shown)
  }

  /** update_screen_state */
  function ScreenStep(a: Animation, next: int, frames: seq<Frame>, now: int, rd: Readings,
                      online: int, bootMinCap: int): Step
    requires Fits(a, frames)
  {
    if !a.run || now < next then Step(a, next, [])
    else if a.curCycle == a.numCycles then AnimationDone(a, frames, rd, online, bootMinCap)
    else AnimationFrame(a, frames, now, rd, online, bootMinCap)
  }

  /** The frame indices stay inside the table. */
  lemma ScreenStepFits(a: Animation, next: int, frames: seq<Frame>, now: int, rd: Readings, online: int, bootMinCap: int)
    requires Fits(a, frames)
    ensures Fits(ScreenStep(a, next, frames, now, rd, online, bootMinCap).anim, frames)
  {
  }

  /** Nothing happens before the next transition or while the animation is stopped. */
  lemma ScreenIdle(a: Animation, next: int, frames: seq<Frame>, now: int, rd: Readings, online: int, bootMinCap: int)
    requires Fits(a, frames) && (!a.run || now < next)
    ensures ScreenStep(a, next, frames, now, rd, online, bootMinCap) == Step(a, next, [])
  {
  }

  /** At the end of the last cycle the animation stops, blanks the screen and unsets the timer. */
  lemma ScreenDone(a: Animation, next: int, frames: seq<Frame>, now: int, rd: Readings, online: int, bootMinCap: int)
    requires Fits(a, frames) && a.run && now >= next && a.curCycle == a.numCycles
    ensures var r := ScreenStep(a, next, frames, now, rd, online, bootMinCap);
      !r.anim.run && r.anim.curFrame == 0 && r.anim.curCycle == 0 && r.next == -1 &&
      r.effects[0] == Blank(true) &&
      r.anim.animThresh == a.animThresh && r.anim.capacity == a.capacity
  {
  }

  /**
   * At the start of a pass with a known capacity: the frame shown is i - 1,
   * where i is the first frame from 1 on that needs more capacity; the pass
   * runs to i (or stays at the last frame), and that first frame is shown
   * for twice its display time.
   */
  lemma ScreenStart(a: Animation, next: int, frames: seq<Frame>, now: int, rd: Readings, online: int, bootMinCap: int)
    requires Fits(a, frames) && a.run && now >= next && a.curCycle != a.numCycles
    requires a.curFrame == 0 && rd.cap >= 0 && a.numFrames != 0
    ensures var i := FirstAbove(frames, a.numFrames, rd.cap, 1);
      var r := ScreenStep(a, next, frames, now, rd, online, bootMinCap);
      r.anim.animThresh == (if i == a.numFrames then i - 1 else i) &&
      r.anim.capacity == rd.cap &&
      r.next == now + 2 * frames[i - 1].dispTime &&
      (rd.valid != 0 ==> ShowFrame(i - 1) in r.effects)
  {
    var i := FirstAbove(frames, a.numFrames, rd.cap, 1);
    var b := Started(a, frames, rd.cap).0;
    assert b.curFrame == i - 1 && b.capacity == rd.cap;
    var shown := (if b.curCycle == 0 then [Blank(false)] else []) + Redraw(b, rd, bootMinCap);
    if rd.valid != 0 {
      assert Redraw(b, rd, bootMinCap)[1] == ShowFrame(i - 1);
      assert ShowFrame(i - 1) in shown;
    }
  }

  /**
   * While charging, a shown frame moves the counter to the next frame that
   * is not level-only; passing anim_thresh resets it to 0 and counts a cycle.
   */
  lemma AdvanceCharging(a: Animation, frames: seq<Frame>)
    requires Fits(a, frames)
    ensures var r := Advance(a, frames, true);
      var j := NextShown(frames, a.numFrames, a.curFrame + 1);
      (j > a.animThresh ==> r.curFrame == 0 && r.curCycle == a.curCycle + 1) &&
      (j <= a.animThresh ==> r.curFrame == j && r.curCycle == a.curCycle &&
                             (r.curFrame < a.numFrames ==> !frames[r.curFrame].levelOnly)) &&
      (forall m :: a.curFrame < m < j ==> frames[m].levelOnly)
  {
  }

  /** When not charging every shown frame sends the counter back to 0 and counts a cycle. */
  lemma AdvanceNotCharging(a: Animation, frames: seq<Frame>)
    requires Fits(a, frames)
    ensures Advance(a, frames, false) == a.(curFrame := 0, curCycle := a.curCycle + 1)
  {
  }

  /** With a known capacity the pass moves the frame counter with Advance, charging or not. */
  lemma ScreenFrameAdvances(a: Animation, next: int, frames: seq<Frame>, now: int, rd: Readings, online: int, bootMinCap: int)
    requires Fits(a, frames) && a.run && now >= next && a.curCycle != a.numCycles
    requires a.numFrames != 0 && (a.curFrame == 0 ==> rd.cap >= 0) && (a.curFrame != 0 ==> a.capacity >= 0)
    ensures var b := Started(a, frames, rd.cap).0;
      ScreenStep(a, next, frames, now, rd, online, bootMinCap).anim == Advance(b, frames, online != 0 && rd.charging)
  {
  }

  /** Without frames or without a known capacity each call counts a cycle and waits BATTERY_UNKNOWN_TIME. */
  lemma ScreenUnknown(a: Animation, next: int, frames: seq<Frame>, now: int, rd: Readings, online: int, bootMinCap: int)
    requires Fits(a, frames) && a.run && now >= next && a.curCycle != a.numCycles
    requires a.numFrames == 0 || (a.curFrame == 0 && rd.cap < 0)
    ensures var r := ScreenStep(a, next, frames, now, rd, online, bootMinCap);
      r.anim.curCycle == a.curCycle + 1 && r.next == now + BATTERY_UNKNOWN_TIME && ShowUnknown in r.effects
  {
    var b := Started(a, frames, rd.cap).0;
    assert Redraw(b, rd, bootMinCap)[1] == ShowUnknown;
  }

  // ---------------------------------------------------------------------
  // Keys and timers

  datatype KeyState = KeyState(pending: bool, down: bool, timestamp: int)

  /** set_next_key_check's rule for a deadline: -1 means unset, and the earlier deadline wins. */
  function EarlierDeadline(cur: int, deadline: int): (r: int)
    ensures cur == -1 ==> r == deadline
    ensures cur != -1 ==> r == (if deadline < cur then deadline else cur)
  {
    if cur == -1 || deadline < cur then deadline else cur
  }

  /** A deadline wait_next_event considers set: neither -1 nor the INT64_MAX start value. */
  predicate IsSet(x: int)
  {
    x != -1 && x != INT64_MAX
  }

  /** d is one of the three deadlines, set, and no later than any of them that is set. */
  predicate EarliestSet(d: int, screen: int, key: int, pwr: int)
  {
    (d == screen || d == key || d == pwr) && IsSet(d) &&
    (IsSet(screen) ==> d <= screen) && (IsSet(key) ==> d <= key) && (IsSet(pwr) ==> d <= pwr)
  }

  /** wait_next_event's timeout: the time to the earliest set deadline, at least 0, or THERMAL_POLL_TIME. */
  function PollTimeout(screen: int, key: int, pwr: int, now: int): (t: int)
    ensures t >= 0
    ensures screen == -1 && key == -1 && pwr == -1 ==> t == THERMAL_POLL_TIME
  {
    var e1 := if screen != -1 then screen else INT64_MAX;
    var e2 := if key != -1 && key < e1 then key else e1;
    var e3 := if pwr != -1 && pwr < e2 then pwr else e2;
    if e3 != -1 && e3 != INT64_MAX then (if e3 - now > 0 then e3 - now else 0) else THERMAL_POLL_TIME
  }

  /**
   * With 64-bit deadlines the timeout counts down to the earliest deadline
   * that is set, never below 0, and is THERMAL_POLL_TIME when none is set.
   */
  lemma PollTimeoutEarliest(screen: int, key: int, pwr: int, now: int)
    requires screen <= INT64_MAX && key <= INT64_MAX && pwr <= INT64_MAX
    ensures !IsSet(screen) && !IsSet(key) && !IsSet(pwr) ==> PollTimeout(screen, key, pwr, now) == THERMAL_POLL_TIME
    ensures IsSet(screen) || IsSet(key) || IsSet(pwr) ==>
      exists d :: EarliestSet(d, screen, key, pwr) &&
        PollTimeout(screen, key, pwr, now) == (if d - now > 0 then d - now else 0)
  {
    var e1 := if screen != -1 then screen else INT64_MAX;
    var e2 := if key != -1 && key < e1 then key else e1;
    var e3 := if pwr != -1 && pwr < e2 then pwr else e2;
    if IsSet(screen) || IsSet(key) || IsSet(pwr) {
      assert EarliestSet(e3, screen, key, pwr);
    }
  }

  // ---------------------------------------------------------------------
  // handle_power_supply_state

  /** What one call leaves behind: the shutdown deadline, whether the animation is kicked, the effects. */
  datatype PowerStep = PowerStep(next: int, kick: bool, effects: seq<Effect>)

  /** handle_power_supply_state; is_battery_valid counts as invalid only when it returns 0. */
  function PowerCheck(next: int, now: int, online: int, rd: Readings): (r: PowerStep)
    ensures PowerOff in r.effects <==> (online == 0 || !rd.charging || rd.valid == 0) && next != -1 && now >= next
    ensures MarkForcedShutdown in r.effects ==> PowerOff in r.effects && rd.valid == 0
  {
    if online == 0 || !rd.charging || rd.valid == 0 then
      if next == -1 then PowerStep(now + UNPLUGGED_SHUTDOWN_TIME, true, [Suspend(false)])
      else if now >= next then
        PowerStep(next, true, [Suspend(false)] + (if rd.valid == 0 then [MarkForcedShutdown] else []) + [PowerOff])
      else PowerStep(next, true, [Suspend(false)])
    else PowerStep(-1, next != -1, [])
  }

  /** Unplugged, not charging or with an invalid battery: a shutdown is scheduled UNPLUGGED_SHUTDOWN_TIME ahead. */
  lemma PowerUnpluggedSchedules(now: int, online: int, rd: Readings)
    requires online == 0 || !rd.charging || rd.valid == 0
    ensures PowerCheck(-1, now, online, rd) == PowerStep(now + UNPLUGGED_SHUTDOWN_TIME, true, [Suspend(false)])
  {
  }

  /** The device powers off only once a scheduled deadline has passed while unplugged. */
  lemma PowerOffOnlyAtDeadline(next: int, now: int, online: int, rd: Readings)
    ensures PowerOff in PowerCheck(next, now, online, rd).effects <==>
      ((online == 0 || !rd.charging || rd.valid == 0) && next != -1 && now >= next)
  {
  }

  /** A charging source with a valid battery cancels the shutdown and kicks the animation only if one was set. */
  lemma PowerPluggedCancels(next: int, now: int, online: int, rd: Readings)
    requires online != 0 && rd.charging && rd.valid != 0
    ensures PowerCheck(next, now, online, rd) == PowerStep(-1, next != -1, [])
  {
  }

  /** No battery at all reads as a valid battery (-1 is true in C), so it alone never schedules a shutdown. */
  lemma MissingBatteryNotInvalid(fs: Sysfs)
    ensures ReadingsOf(None, fs).valid != 0
  {
  }

  // ---------------------------------------------------------------------
  // dump_last_kmsg

  /** The last LAST_KMSG_MAX_SZ bytes of the loaded file; nothing when it is missing or empty. */
  function KmsgTail(file: Option<seq<char>>): (t: seq<char>)
    ensures file.Some? ==> |t| <= LAST_KMSG_MAX_SZ && |t| <= |file.value| && t == file.value[|file.value| - |t|..]
    ensures file.Some? && |file.value| <= LAST_KMSG_MAX_SZ ==> t == file.value
  {
    if file.None? then []
    else
      var sz := |file.value|;
      var len := if sz < LAST_KMSG_MAX_SZ then sz else LAST_KMSG_MAX_SZ;
      file.value[sz - len..]
  }

  /**
   * The length of the next klog write: up to MAX_KLOG_WRITE_BUF_SZ bytes,
   * cut after the last newline before the window's final byte.
   */
  function ChunkLen(t: seq<char>): (n: nat)
    requires t != []
    ensures 1 <= n <= |t| && n <= MAX_KLOG_WRITE_BUF_SZ
    ensures t[n - 1] == '\n' ||
      (n == (if |t| < MAX_KLOG_WRITE_BUF_SZ then |t| else MAX_KLOG_WRITE_BUF_SZ) &&
       forall j :: 0 <= j < n ==> t[j] != '\n')
  {
    var cnt := if |t| < MAX_KLOG_WRITE_BUF_SZ then |t| else MAX_KLOG_WRITE_BUF_SZ;
    match LastIndexOf(t[..cnt - 1], '\n')
    case Some(k) => k + 1
    case None => cnt
  }

  /** The pieces dump_last_kmsg writes, in order. */
  function KmsgChunks(t: seq<char>): (cs: seq<seq<char>>)
    decreases |t|
  {
    if t == [] then [] else [t[..ChunkLen(t)]] + KmsgChunks(t[ChunkLen(t)..])
  }

  function Flatten(cs: seq<seq<char>>): seq<char>
  {
    if cs == [] then [] else cs[0] + Flatten(cs[1..])
  }

  /** The pieces put back together are the tail of the log, each of 1 to 256 bytes. */
  lemma {:induction false} KmsgChunksCover(t: seq<char>)
    ensures Flatten(KmsgChunks(t)) == t
    ensures forall k :: 0 <= k < |KmsgChunks(t)| ==> 1 <= |KmsgChunks(t)[k]| <= MAX_KLOG_WRITE_BUF_SZ
    decreases |t|
  {
    if t != [] {
      var n := ChunkLen(t);
      KmsgChunksCover(t[n..]);
      var cs := KmsgChunks(t);
      assert cs[1..] == KmsgChunks(t[n..]);
      assert t == t[..n] + t[n..];
    }
  }

  /** Every piece but one cut at the window size ends in a newline and only a full window has none. */
  lemma KmsgChunkShape(t: seq<char>)
    requires t != []
    ensures var c := KmsgChunks(t)[0];
      c[|c| - 1] == '\n' ||
      ((|c| == MAX_KLOG_WRITE_BUF_SZ || c == t) && forall j :: 0 <= j < |c| ==> c[j] != '\n')
  {
  }

  /** dump_last_kmsg: the pieces handed to klog_write, walking the tail of the loaded file. */
  method DumpLastKmsg(file: Option<seq<char>>) returns (chunks: seq<seq<char>>)
    ensures chunks == KmsgChunks(KmsgTail(file))
  {
    chunks := [];
    if file.None? || |file.value| == 0 {
      return;  // "last_kmsg not found. Cold reset?"
    }
    var rest := KmsgTail(file);  // the last LAST_KMSG_MAX_SZ bytes, which ptr walks through
    while rest != []
      invariant chunks + KmsgChunks(rest) == KmsgChunks(KmsgTail(file))
      decreases |rest|
    {
      var cnt := ChunkLen(rest);  // the window, cut after its last newline
      assert KmsgChunks(rest) == [rest[..cnt]] + KmsgChunks(rest[cnt..]);
      chunks := chunks + [rest[..cnt]];
      rest := rest[cnt..];
    }
  }

  /** What the recount and the key handling read of the power key's entry. */
  datatype KeyStep = KeyStep(nextKeyCheck: int, kick: bool, effects: seq<Effect>)

  /**
   * process_key for KEY_POWER: a press held for POWER_ON_KEY_TIME reboots
   * when the battery is above the boot minimum; a shorter press asks for a
   * key check at that time; a release kicks the animation if it is pending.
   */
  function PowerKeyCheck(key: KeyState, now: int, cap: int, bootMinCap: int, nextKeyCheck: int): KeyStep
  {
    if key.down then
      if now >= key.timestamp + POWER_ON_KEY_TIME then
        KeyStep(nextKeyCheck, true, (if cap >= bootMinCap then [Restart] else []) + [Suspend(false)])
      else KeyStep(EarlierDeadline(nextKeyCheck, key.timestamp + POWER_ON_KEY_TIME), true, [Suspend(false)])
    else KeyStep(nextKeyCheck, key.pending, [])
  }

  /** The power key restarts the device exactly when held long enough with enough battery. */
  lemma PowerKeyRestarts(key: KeyState, now: int, cap: int, bootMinCap: int, nextKeyCheck: int)
    ensures Restart in PowerKeyCheck(key, now, cap, bootMinCap, nextKeyCheck).effects <==>
      (key.down && now >= key.timestamp + POWER_ON_KEY_TIME && cap >= bootMinCap)
  {
  }

  /** A press not yet held long enough leaves a key check due no later than its reboot time. */
  lemma PowerKeyWakesUp(key: KeyState, now: int, cap: int, bootMinCap: int, nextKeyCheck: int)
    requires key.down && now < key.timestamp + POWER_ON_KEY_TIME && key.timestamp + POWER_ON_KEY_TIME != -1
    ensures var r := PowerKeyCheck(key, now, cap, bootMinCap, nextKeyCheck).nextKeyCheck;
      r != -1 && r <= key.timestamp + POWER_ON_KEY_TIME && (nextKeyCheck != -1 ==> r <= nextKeyCheck)
  {
  }

  /** The deadlines, animation and effects one event_loop pass leaves. */
  datatype Pass = Pass(nextKeyCheck: int, nextPwrCheck: int, nextScreenTransition: int, anim: Animation,
                       effects: seq<Effect>, timeout: int)

  /**
   * One pass of event_loop on the same battery readings throughout:
   * handle_input_state, then handle_power_supply_state, either of which may
   * start the animation, then update_screen_state on the animation they
   * leave, and the wait_next_event timeout on the deadlines of all three.
   */
  function LoopPass(key: KeyState, now: int, cap: int, rd: Readings, bootMinCap: int, online: int,
                    keyCheck: int, pwrCheck: int, screenNext: int, a: Animation, frames: seq<Frame>): (p: Pass)
    requires Fits(a, frames)
    ensures Fits(p.anim, frames)
    ensures p.timeout == PollTimeout(p.nextScreenTransition, p.nextKeyCheck, p.nextPwrCheck, now)
  {
    var k := PowerKeyCheck(key, now, cap, bootMinCap, keyCheck);
    var a1 := if k.kick then a.(run := true) else a;
    var pw := PowerCheck(pwrCheck, now, online, rd);
    var a2 := if pw.kick then a1.(run := true) else a1;
    ScreenStepFits(a2, screenNext, frames, now, rd, online, bootMinCap);
    var sc := ScreenStep(a2, screenNext, frames, now, rd, online, bootMinCap);
    var keyNext := if k.nextKeyCheck != -1 && now > k.nextKeyCheck then -1 else k.nextKeyCheck;
    Pass(keyNext, pw.next, sc.next, sc.anim, k.effects + pw.effects + sc.effects,
         PollTimeout(sc.next, keyNext, pw.next, now))
  }

  // ---------------------------------------------------------------------
  // The charger state: struct charger together with its struct animation

  class Charger {
    var nextScreenTransition: int
    var nextKeyCheck: int
    var nextPwrCheck: int
    const keys: array<KeyState>
    var supplies: seq<Supply>
    var numSupplies: int
    var numSuppliesOnline: int
    /** charger->battery as the position of the supply it points at. */
    var battery: Option<nat>
    const frames: seq<Frame>
    var anim: Animation
    var bootMinCap: int
    var log: seq<Effect>

    ghost predicate Valid()
      reads this
    {
      keys.Length == KEY_MAX + 1 && Fits(anim, frames) && Consistent(SupplyState())
    }

    function SupplyState(): Supplies
      reads this
    {
      Supplies(supplies, numSupplies, numSuppliesOnline, battery)
    }

    /** The fields the supply-list operations leave alone. */
    function Timers(): (int, int, int, Animation, int, seq<Effect>)
      reads this
    {
      (nextScreenTransition, nextKeyCheck, nextPwrCheck, anim, bootMinCap, log)
    }

    /**
     * charger_state and main's setup: an empty supply list, the frame table
     * (or no frames and one cycle when an image failed to load), a screen
     * transition due at now - 1 (main's now is already one millisecond
     * back), no key or power deadline, a blanked screen and a kicked
     * animation.
     */
    constructor (imagesLoaded: bool, minCap: int, now: int)
      ensures Valid() && fresh(keys)
      ensures SupplyState() == Supplies([], 0, 0, None) && frames == BattAnimFrames()
      ensures anim == Animation(true, 0, if imagesLoaded then 9 else 0, 0, if imagesLoaded then 3 else 1, 0, 0)
      ensures nextScreenTransition == now - 1 && nextKeyCheck == -1 && nextPwrCheck == -1
      ensures bootMinCap == minCap && log == [Blank(true)]
      ensures forall c :: 0 <= c < keys.Length ==> keys[c] == KeyState(false, false, 0)
    {
      nextScreenTransition := now - 1;
      nextKeyCheck := -1;
      nextPwrCheck := -1;
      keys := new KeyState[KEY_MAX + 1](c => KeyState(false, false, 0));
      supplies := [];
      numSupplies := 0;
      numSuppliesOnline := 0;
      battery := None;
      frames := BattAnimFrames();
      anim := Animation(true, 0, if imagesLoaded then 9 else 0, 0, if imagesLoaded then 3 else 1, 0, 0);
      bootMinCap := minCap;
      log := [Blank(true)];
    }

    // -------------------------------------------------------------------
    // The supply list

    /** find_supply */
    method FindSupply(name: string) returns (k: Option<nat>)
      ensures k == FirstNamed(supplies, name)
    {
      var i := 0;
      while i < |supplies|
        invariant 0 <= i <= |supplies|
        invariant forall j :: 0 <= j < i ==> supplies[j].name != name
      {
        if supplies[i].name == name {
          ghost var f := FirstNamed(supplies, name);
          assert f.Some? && f.value == i;
          return Some(i);
        }
        i := i + 1;
      }
      return None;
    }

    /** add_supply: append at the tail, count it. */
    method AddSupply(name: string, kind: string, path: string, online: bool) returns (k: nat)
      modifies this
      ensures supplies == old(supplies) + [NewSupply(name, kind, path, online)] && k == |old(supplies)|
      ensures numSupplies == old(numSupplies) + 1
      ensures numSuppliesOnline == old(numSuppliesOnline) && battery == old(battery) && Timers() == old(Timers())
    {
      k := |supplies|;
      supplies := supplies + [NewSupply(name, kind, path, online)];
      numSupplies := numSupplies + 1;
    }

    /** remove_supply: unlink it, uncount it; charger->battery keeps pointing at the same supply. */
    method RemoveSupply(k: nat)
      requires k < |supplies| && battery != Some(k)
      modifies this
      ensures supplies == Without(old(supplies), k) && numSupplies == old(numSupplies) - 1
      ensures battery == if old(battery).Some? && old(battery).value > k then Some(old(battery).value - 1) else old(battery)
      ensures numSuppliesOnline == old(numSuppliesOnline) && Timers() == old(Timers())
    {
      supplies := supplies[..k] + supplies[k + 1..];
      numSupplies := numSupplies - 1;
      if battery.Some? && battery.value > k {
        battery := Some(battery.value - 1);
      }
    }

    /** One supply of the recount loop: read its online file, update it and the count. */
    method RefreshSupply(i: nat, fs: Sysfs)
      requires i < |supplies|
      modifies this
      ensures supplies == old(supplies)[i := Refreshed(old(supplies)[i], fs)]
      ensures numSuppliesOnline == old(numSuppliesOnline) +
        Transition(old(supplies)[i].online, Refreshed(old(supplies)[i], fs).online)
      ensures numSupplies == old(numSupplies) && battery == old(battery) && Timers() == old(Timers())
    {
      var s := supplies[i];
      ghost var r := Refreshed(s, fs);
      if s.kind != "Battery" {
        var str := ReadFile(fs(OnlinePath(s.name)), 3);
        if str.Some? {
          var online := Atoi(str.value) != 0;
          assert r == s.(online := online);
          supplies := supplies[i := s.(online := online)];
          if s.online && !online {
            numSuppliesOnline := numSuppliesOnline - 1;
          } else if !s.online && online {
            numSuppliesOnline := numSuppliesOnline + 1;
          }
        } else {
          assert r == s;
          assert supplies == supplies[i := r];
        }
      } else {
        assert supplies == supplies[i := r];
      }
    }

    /** The recount loop of process_ps_uevent. */
    method RecountOnline(fs: Sysfs)
      modifies this
      ensures SupplyState() == Recount(old(SupplyState()), fs) && Timers() == old(Timers())
    {
      ghost var l0 := supplies;
      ghost var n0 := numSuppliesOnline;
      var i := 0;
      while i < |supplies|
        invariant 0 <= i <= |supplies| == |l0|
        invariant forall j :: 0 <= j < i ==> supplies[j] == Refreshed(l0[j], fs)
        invariant forall j :: i <= j < |l0| ==> supplies[j] == l0[j]
        invariant numSuppliesOnline == n0 + Delta(l0[..i], fs)
        invariant numSupplies == old(numSupplies) && battery == old(battery) && Timers() == old(Timers())
      {
        DeltaStep(l0, i, fs);
        RefreshSupply(i, fs);
        i := i + 1;
      }
      assert l0[..|l0|] == l0;
      assert supplies == RefreshAll(l0, fs);
    }

    /** The supply type of process_ps_uevent. */
    method SupplyType(ev: PsUevent, fs: Sysfs) returns (kind: Option<string>)
      ensures kind == PsType(ev, fs)
    {
      if ev.psType == [] {
        if ev.path == [] {
          return None;
        }
        kind := ReadFile(fs("/sys/" + ev.path + "/type"), TYPE_MAX + 1);
      } else {
        kind := Some(Take(ev.psType, TYPE_MAX));
      }
    }

    /** The "add" of a supply not yet in the list, before the recount. */
    method AddNew(ev: PsUevent, kind: string)
      modifies this
      ensures SupplyState() == Added(old(SupplyState()), ev, kind) && Timers() == old(Timers())
    {
      ghost var st := SupplyState();
      var isBattery := StartsWith(kind, "Battery");
      var online := Atoi(ev.psOnline) != 0;
      var k := AddSupply(ev.psName, kind, ev.path, online);
      battery := if isBattery && battery.None? then Some(k) else battery;  // only pick up the first battery
      numSuppliesOnline := if !isBattery && online then numSuppliesOnline + 1 else numSuppliesOnline;
      AddedFields(st, ev, kind, isBattery, online);
    }

    /** The "remove" of the supply at k, before the recount. */
    method RemoveAt(k: nat)
      requires k < |supplies|
      modifies this
      ensures SupplyState() == Removed(old(SupplyState()), k) && Timers() == old(Timers())
    {
      if battery == Some(k) {
        battery := None;
      }
      RemoveSupply(k);
    }

    /** process_ps_uevent */
    method ProcessPsUevent(ev: PsUevent, fs: Sysfs)
      modifies this
      ensures SupplyState() == PsStep(old(SupplyState()), ev, fs) && Timers() == old(Timers())
    {
      var kind := SupplyType(ev, fs);
      if kind.None? {
        return;
      }
      var found := FindSupply(ev.psName);
      if ev.action == "add" {
        if found.None? {
          AddNew(ev, kind.value);
        }
      } else if ev.action == "remove" {
        if found.Some? {
          RemoveAt(found.value);
        }
      } else if ev.action == "change" {
        if found.None? {
          return;
        }
      } else {
        return;
      }
      RecountOnline(fs);
    }

    /** process_uevent */
    method ProcessUevent(ev: PsUevent, fs: Sysfs)
      modifies this
      ensures SupplyState() == UeventStep(old(SupplyState()), ev, fs) && Timers() == old(Timers())
    {
      if ev.subsystem == "power_supply" {
        ProcessPsUevent(ev, fs);
      }
    }

    /** handle_uevent_fd over the datagrams successive receives return. */
    method HandleUeventFd(ds: seq<seq<char>>, fs: Sysfs)
      modifies this
      ensures SupplyState() == Handle(old(SupplyState()), ds, fs) && Timers() == old(Timers())
    {
      var i := 0;
      while i < |ds|
        invariant 0 <= i <= |ds|
        invariant Handle(SupplyState(), ds[i..], fs) == Handle(old(SupplyState()), ds, fs)
        invariant Timers() == old(Timers())
      {
        var d := ds[i];
        assert ds[i..][1..] == ds[i + 1..];
        if d == [] {
          break;  // the receive returned 0 or an error
        }
        if !Accepted(d) {
          i := i + 1;  // overflow: discard
          continue;
        }
        var ev := ParseUevent(Received(d));
        ProcessUevent(ev, fs);
        i := i + 1;
      }
    }

    // -------------------------------------------------------------------
    // The animation

    /** The frame search at the start of a pass: the first frame from 1 on that needs more than cap. */
    method FindFirstFrame(cap: int) returns (i: nat)
      requires 1 <= anim.numFrames <= |frames|
      ensures i == FirstAbove(frames, anim.numFrames, cap, 1)
    {
      i := 1;
      while i < anim.numFrames
        invariant 1 <= i <= anim.numFrames
        invariant FirstAbove(frames, anim.numFrames, cap, i) == FirstAbove(frames, anim.numFrames, cap, 1)
      {
        if cap < frames[i].minCapacity {
          break;
        }
        i := i + 1;
      }
    }

    /** The level-only frames the animation skips, from frame k on. */
    method SkipLevelOnly(k: nat) returns (j: nat)
      requires anim.numFrames <= |frames|
      ensures j == NextShown(frames, anim.numFrames, k)
    {
      j := k;
      while j < anim.numFrames && frames[j].levelOnly
        invariant k <= j
        invariant NextShown(frames, anim.numFrames, j) == NextShown(frames, anim.numFrames, k)
        decreases anim.numFrames - j
      {
        j := j + 1;
      }
    }

    /** The end of the last cycle in update_screen_state. */
    method AnimationOver(rd: Readings)
      requires Fits(anim, frames)
      modifies this
      ensures var r := AnimationDone(old(anim), frames, rd, numSuppliesOnline, bootMinCap);
        anim == r.anim && nextScreenTransition == r.next && log == old(log) + r.effects
      ensures SupplyState() == old(SupplyState()) && nextKeyCheck == old(nextKeyCheck)
      ensures nextPwrCheck == old(nextPwrCheck) && bootMinCap == old(bootMinCap)
    {
      ghost var r := AnimationDone(anim, frames, rd, numSuppliesOnline, bootMinCap);
      var thresh := anim.animThresh;
      anim := Reset(anim);
      nextScreenTransition := -1;
      var effects := [Blank(true)];
      if rd.cap < frames[thresh].minCapacity {
        anim := anim.(curFrame := thresh - 1);
      } else {
        anim := anim.(curFrame := thresh);
      }
      effects := effects + Redraw(anim, rd, bootMinCap);
      anim := Reset(anim);
      if numSuppliesOnline > 0 && rd.charging {
        effects := effects + [Suspend(true), Clear, Flip];
      }
      assert effects == r.effects;
      log := log + effects;
    }

    /** The frame counter after a frame is drawn with a known level. */
    method AdvanceFrame(charging: bool)
      requires Fits(anim, frames)
      modifies this
      ensures anim == Advance(old(anim), frames, charging)
      ensures SupplyState() == old(SupplyState()) && nextKeyCheck == old(nextKeyCheck)
      ensures nextScreenTransition == old(nextScreenTransition) && nextPwrCheck == old(nextPwrCheck)
      ensures bootMinCap == old(bootMinCap) && log == old(log)
    {
      if charging {
        var f := SkipLevelOnly(anim.curFrame + 1);
        if f > anim.animThresh {
          anim := anim.(curCycle := anim.curCycle + 1, curFrame := 0);
        } else {
          anim := anim.(curFrame := f);
        }
      } else {
        anim := anim.(curFrame := 0, curCycle := anim.curCycle + 1);
      }
    }

    /** The start of a pass: pick the frame of the capacity. */
    method StartPass(cap: int) returns (dispTime: int)
      requires Fits(anim, frames)
      modifies this
      ensures (anim, dispTime) == Started(old(anim), frames, cap)
      ensures SupplyState() == old(SupplyState()) && nextKeyCheck == old(nextKeyCheck)
      ensures nextScreenTransition == old(nextScreenTransition) && nextPwrCheck == old(nextPwrCheck)
      ensures bootMinCap == old(bootMinCap) && log == old(log)
    {
      dispTime := frames[anim.curFrame].dispTime;
      if anim.curFrame == 0 {
        if cap >= 0 && anim.numFrames != 0 {
          var i := FindFirstFrame(cap);
          anim := anim.(curFrame := i - 1);
          if i == anim.numFrames {
            anim := anim.(animThresh := anim.curFrame);
          } else {
            anim := anim.(animThresh := anim.curFrame + 1);
          }
          dispTime := frames[anim.curFrame].dispTime * 2;  // show the first frame for twice as long
        }
        anim := anim.(capacity := cap);
      }
    }

    /** One frame of a pass in update_screen_state. */
    method ShowFrame(now: int, rd: Readings)
      requires Fits(anim, frames)
      modifies this
      ensures var r := AnimationFrame(old(anim), frames, now, rd, numSuppliesOnline, bootMinCap);
        anim == r.anim && nextScreenTransition == r.next && log == old(log) + r.effects
      ensures SupplyState() == old(SupplyState()) && nextKeyCheck == old(nextKeyCheck)
      ensures nextPwrCheck == old(nextPwrCheck) && bootMinCap == old(bootMinCap)
    {
      ghost var r := AnimationFrame(anim, frames, now, rd, numSuppliesOnline, bootMinCap);
      var dispTime := StartPass(rd.cap);
      var effects := if anim.curCycle == 0 then [Blank(false)] else [];  // unblank the screen on first cycle
      effects := effects + Redraw(anim, rd, bootMinCap);
      assert effects == r.effects;
      log := log + effects;
      if anim.numFrames == 0 || anim.capacity < 0 {
        nextScreenTransition := now + BATTERY_UNKNOWN_TIME;
        anim := anim.(curCycle := anim.curCycle + 1);
        return;
      }
      nextScreenTransition := now + dispTime;
      AdvanceFrame(numSuppliesOnline != 0 && rd.charging);
    }

    /** update_screen_state */
    method UpdateScreenState(now: int, fs: Sysfs)
      requires Valid()
      modifies this
      ensures Valid()
      ensures var r := ScreenStep(old(anim), old(nextScreenTransition), frames, now,
                                  ReadingsOf(BatteryOf(old(SupplyState())), fs), old(numSuppliesOnline), old(bootMinCap));
        anim == r.anim && nextScreenTransition == r.next && log == old(log) + r.effects
      ensures SupplyState() == old(SupplyState()) && nextKeyCheck == old(nextKeyCheck)
      ensures nextPwrCheck == old(nextPwrCheck) && bootMinCap == old(bootMinCap)
    {
      var rd := ReadingsOf(BatteryOf(SupplyState()), fs);
      ScreenStepFits(anim, nextScreenTransition, frames, now, rd, numSuppliesOnline, bootMinCap);
      if !anim.run || now < nextScreenTransition {
        return;
      }
      if anim.curCycle == anim.numCycles {
        AnimationOver(rd);  // animation is over, blank screen and leave
      } else {
        ShowFrame(now, rd);
      }
    }

    // -------------------------------------------------------------------
    // Keys and timers

    /** set_key_callback */
    method SetKeyCallback(code: int, value: int, now: int) returns (r: int)
      requires Valid() && code >= 0
      modifies keys
      ensures r == (if code > KEY_MAX then -1 else 0)
      ensures forall c :: 0 <= c < keys.Length && c != code ==> keys[c] == old(keys[c])
      ensures code <= KEY_MAX && old(keys[code]).down == (value != 0) ==> keys[code] == old(keys[code])
      ensures code <= KEY_MAX && old(keys[code]).down != (value != 0) ==>
        keys[code] == KeyState(true, value != 0, if value != 0 then now else old(keys[code]).timestamp)
    {
      var down := value != 0;
      if code > KEY_MAX {
        return -1;
      }
      if keys[code].down == down {
        return 0;  // ignore events that don't modify our state
      }
      if down {
        keys[code] := keys[code].(timestamp := now);
      }
      keys[code] := keys[code].(down := down, pending := true);
      return 0;
    }

    /** update_input_state: only key events reach set_key_callback. */
    method UpdateInputState(evType: int, code: int, value: int, now: int)
      requires Valid() && code >= 0
      modifies keys
      ensures evType != EV_KEY || code > KEY_MAX ==> forall c :: 0 <= c < keys.Length ==> keys[c] == old(keys[c])
      ensures evType == EV_KEY && code <= KEY_MAX ==>
        (forall c :: 0 <= c < keys.Length && c != code ==> keys[c] == old(keys[c])) &&
        keys[code] == (if old(keys[code]).down == (value != 0) then old(keys[code])
                       else KeyState(true, value != 0, if value != 0 then now else old(keys[code]).timestamp))
    {
      if evType != EV_KEY {
        return;
      }
      var r := SetKeyCallback(code, value, now);
    }

    /** set_next_key_check */
    method SetNextKeyCheck(code: nat, timeout: int)
      requires code < keys.Length
      modifies this
      ensures nextKeyCheck == EarlierDeadline(old(nextKeyCheck), keys[code].timestamp + timeout)
      ensures SupplyState() == old(SupplyState()) && nextScreenTransition == old(nextScreenTransition)
      ensures nextPwrCheck == old(nextPwrCheck) && anim == old(anim) && log == old(log) && bootMinCap == old(bootMinCap)
    {
      var deadline := keys[code].timestamp + timeout;
      if nextKeyCheck == -1 || deadline < nextKeyCheck {
        nextKeyCheck := deadline;
      }
    }

    /** process_key, which the event loop calls for KEY_POWER. */
    method ProcessKey(code: nat, now: int, fs: Sysfs)
      requires Valid() && code < keys.Length
      modifies this, keys
      ensures Valid()
      ensures keys[code] == old(keys[code]).(pending := false)
      ensures forall c :: 0 <= c < keys.Length && c != code ==> keys[c] == old(keys[c])
      ensures code == KEY_POWER ==>
        var r := PowerKeyCheck(old(keys[code]), now, BatteryCapacity(BatteryOf(SupplyState()), fs), bootMinCap, old(nextKeyCheck));
        nextKeyCheck == r.nextKeyCheck && anim == (if r.kick then old(anim).(run := true) else old(anim)) &&
        log == old(log) + r.effects
      ensures code != KEY_POWER ==> nextKeyCheck == old(nextKeyCheck) && anim == old(anim) && log == old(log)
      ensures SupplyState() == old(SupplyState()) && nextScreenTransition == old(nextScreenTransition)
      ensures nextPwrCheck == old(nextPwrCheck) && bootMinCap == old(bootMinCap)
    {
      var key := keys[code];
      if code == KEY_POWER {
        if key.down {
          var rebootTimeout := key.timestamp + POWER_ON_KEY_TIME;
          if now >= rebootTimeout {
            if BatteryCapacity(BatteryOf(SupplyState()), fs) >= bootMinCap {
              log := log + [Restart];
            }
          } else {
            SetNextKeyCheck(code, POWER_ON_KEY_TIME);
          }
          anim := anim.(run := true);
          log := log + [Suspend(false)];
        } else if key.pending {
          anim := anim.(run := true);  // the power key got released: force a screen cycle
        }
      }
      keys[code] := key.(pending := false);
    }

    /** handle_input_state */
    method HandleInputState(now: int, fs: Sysfs)
      requires Valid()
      modifies this, keys
      ensures Valid()
      ensures var r := PowerKeyCheck(old(keys[KEY_POWER]), now, BatteryCapacity(BatteryOf(SupplyState()), fs),
                                     bootMinCap, old(nextKeyCheck));
        nextKeyCheck == (if r.nextKeyCheck != -1 && now > r.nextKeyCheck then -1 else r.nextKeyCheck) &&
        anim == (if r.kick then old(anim).(run := true) else old(anim)) && log == old(log) + r.effects
      ensures keys[KEY_POWER] == old(keys[KEY_POWER]).(pending := false)
      ensures SupplyState() == old(SupplyState()) && nextScreenTransition == old(nextScreenTransition)
      ensures nextPwrCheck == old(nextPwrCheck) && bootMinCap == old(bootMinCap)
    {
      ProcessKey(KEY_POWER, now, fs);
      if nextKeyCheck != -1 && now > nextKeyCheck {
        nextKeyCheck := -1;
      }
    }

    /** handle_power_supply_state on the readings it takes of the battery. */
    method PowerSupplyStep(now: int, rd: Readings)
      requires Fits(anim, frames)
      modifies this
      ensures Fits(anim, frames)
      ensures var r := PowerCheck(old(nextPwrCheck), now, numSuppliesOnline, rd);
        nextPwrCheck == r.next && anim == (if r.kick then old(anim).(run := true) else old(anim)) &&
        log == old(log) + r.effects
      ensures SupplyState() == old(SupplyState()) && nextScreenTransition == old(nextScreenTransition)
      ensures nextKeyCheck == old(nextKeyCheck) && bootMinCap == old(bootMinCap)
    {
      ghost var r := PowerCheck(nextPwrCheck, now, numSuppliesOnline, rd);
      var effects: seq<Effect> := [];
      if numSuppliesOnline == 0 || !rd.charging || rd.valid == 0 {
        anim := anim.(run := true);
        effects := [Suspend(false)];
        if nextPwrCheck == -1 {
          nextPwrCheck := now + UNPLUGGED_SHUTDOWN_TIME;
        } else if now >= nextPwrCheck {
          if rd.valid == 0 {
            effects := effects + [MarkForcedShutdown];
          }
          effects := effects + [PowerOff];
        }
      } else {
        if nextPwrCheck != -1 {
          anim := anim.(run := true);  // device plugged in: shutdown cancelled
        }
        nextPwrCheck := -1;
      }
      assert effects == r.effects;
      log := log + effects;
    }

    /** handle_power_supply_state */
    method HandlePowerSupplyState(now: int, fs: Sysfs)
      requires Valid()
      modifies this
      ensures Valid()
      ensures var r := PowerCheck(old(nextPwrCheck), now, numSuppliesOnline, ReadingsOf(BatteryOf(SupplyState()), fs));
        nextPwrCheck == r.next && anim == (if r.kick then old(anim).(run := true) else old(anim)) &&
        log == old(log) + r.effects
      ensures SupplyState() == old(SupplyState()) && nextScreenTransition == old(nextScreenTransition)
      ensures nextKeyCheck == old(nextKeyCheck) && bootMinCap == old(bootMinCap)
    {
      PowerSupplyStep(now, ReadingsOf(BatteryOf(SupplyState()), fs));
    }

    /** The timeout wait_next_event hands to ev_wait. */
    method WaitNextEvent(now: int) returns (timeout: int)
      ensures timeout == PollTimeout(nextScreenTransition, nextKeyCheck, nextPwrCheck, now)
    {
      var nextEvent := INT64_MAX;
      if nextScreenTransition != -1 {
        nextEvent := nextScreenTransition;
      }
      if nextKeyCheck != -1 && nextKeyCheck < nextEvent {
        nextEvent := nextKeyCheck;
      }
      if nextPwrCheck != -1 && nextPwrCheck < nextEvent {
        nextEvent := nextPwrCheck;
      }
      if nextEvent != -1 && nextEvent != INT64_MAX {
        timeout := if nextEvent - now > 0 then nextEvent - now else 0;
      } else {
        timeout := THERMAL_POLL_TIME;
      }
    }

    /** One pass of event_loop, without the temperature check; returns the poll timeout. */
    method EventLoopPass(now: int, fs: Sysfs) returns (timeout: int)
      requires Valid()
      modifies this, keys
      ensures Valid() && SupplyState() == old(SupplyState())
      ensures timeout == PollTimeout(nextScreenTransition, nextKeyCheck, nextPwrCheck, now)
      ensures var battery := BatteryOf(old(SupplyState()));
        var p := LoopPass(old(keys[KEY_POWER]), now, BatteryCapacity(battery, fs), ReadingsOf(battery, fs),
                          old(bootMinCap), old(numSuppliesOnline), old(nextKeyCheck), old(nextPwrCheck),
                          old(nextScreenTransition), old(anim), frames);
        nextKeyCheck == p.nextKeyCheck && nextPwrCheck == p.nextPwrCheck &&
        nextScreenTransition == p.nextScreenTransition && anim == p.anim &&
        log == old(log) + p.effects && timeout == p.timeout
      ensures keys[KEY_POWER] == old(keys[KEY_POWER]).(pending := false) && bootMinCap == old(bootMinCap)
    {
      ghost var battery := BatteryOf(SupplyState());
      ghost var rd := ReadingsOf(battery, fs);
      ghost var a0, log0, online := anim, log, numSuppliesOnline;
      ghost var k := PowerKeyCheck(keys[KEY_POWER], now, BatteryCapacity(battery, fs), bootMinCap, nextKeyCheck);
      ghost var pwrCheck, screenNext := nextPwrCheck, nextScreenTransition;
      HandleInputState(now, fs);
      ghost var a1 := anim;
      assert a1 == (if k.kick then a0.(run := true) else a0) && log == log0 + k.effects;
      ghost var pw := PowerCheck(pwrCheck, now, online, rd);
      HandlePowerSupplyState(now, fs);
      ghost var a2 := anim;
      assert a2 == (if pw.kick then a1.(run := true) else a1) && log == log0 + k.effects + pw.effects;
      ghost var sc := ScreenStep(a2, screenNext, frames, now, rd, online, bootMinCap);
      UpdateScreenState(now, fs);
      assert anim == sc.anim && nextScreenTransition == sc.next && log == log0 + k.effects + pw.effects + sc.effects;
      Assoc(log0 + k.effects, pw.effects, sc.effects);
      Assoc(log0, k.effects, pw.effects + sc.effects);
      Assoc(k.effects, pw.effects, sc.effects);
      timeout := WaitNextEvent(now);
    }
  }
}
