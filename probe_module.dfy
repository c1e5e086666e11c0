// libcutils/probe_module.c: loading and unloading a kernel module together
// with the modules it depends on, as listed in modules.dep.
//
// Module files, the dependency file and the blacklist files are looked up in
// a map from path to contents; init_module and delete_module are calls on a
// Kernel object that records them and refuses a given set of calls.

module ProbeModule {
  import opened CStrings
  import ModuleParsers

  // Result bits of insmod_by_dep and rmmod_by_dep (include/cutils/probe_module.h).
  const MOD_NO_ERR: int := 0
  const MOD_UNKNOWN: int := 1
  const MOD_IN_BLACK: int := 2
  const MOD_IN_CALLER_BLACK: int := 4
  const MOD_BAD_DEP: int := 8
  const MOD_BAD_ALIAS: int := 16
  const MOD_DEP_NOT_FOUND: int := 32
  const MOD_INVALID_CALLER_BLACK: int := 64
  const MOD_INVALID_NAME: int := 128

  const DEFAULT_DEP_FILE: string := "/lib/modules/modules.dep"
  const DEFAULT_MOD_PATH: string := "/lib/modules/"
  const ALIAS_FILE: string := "/lib/modules/modules.alias"
  const BASE_BLACKLIST: string := "/system/etc/modules.blacklist"
  const INIT_DEP_NUM: nat := 10
  /** The O_NONBLOCK flag rmmod_by_dep hands to delete_module. */
  const O_NONBLOCK: int := 2048
  /** The size of a pointer on the 32-bit target; the 64-bit one only makes the overflow worse. */
  const PTR_BYTES: nat := 4

  const DEP_DELIMS: set<char> := {':', ' '}

  // ---------------------------------------------------------------------
  // Names

  /** Where the basename of s[..i] starts: just after the last '/' below i, 0 when there is none. */
  function BaseStart(s: string, i: nat): (r: nat)
    requires i <= |s|
    ensures r <= i
  {
    if i == 0 || s[i - 1] == '/' then i else BaseStart(s, i - 1)
  }

  /** The part of a path after its last '/': the whole string when it has none. */
  function Basename(s: string): (b: string)
  {
    s[BaseStart(s, |s|)..]
  }

  /** No '/' lies between where the basename starts and i, and one lies just before it. */
  lemma {:induction false} BaseStartBounds(s: string, i: nat)
    requires i <= |s|
    ensures forall j :: BaseStart(s, i) <= j < i ==> s[j] != '/'
    ensures BaseStart(s, i) > 0 ==> s[BaseStart(s, i) - 1] == '/'
    decreases i
  {
    if i > 0 && s[i - 1] != '/' {
      BaseStartBounds(s, i - 1);
    }
  }

  /** The basename is the suffix of the path that holds no '/' and is preceded by one, if anything. */
  lemma BasenameSuffix(s: string)
    ensures var r := Basename(s);
      |r| <= |s| && s[|s| - |r|..] == r &&
      (forall i :: 0 <= i < |r| ==> r[i] != '/') &&
      (|r| < |s| ==> s[|s| - |r| - 1] == '/')
  {
    BaseStartBounds(s, |s|);
  }

  /** strip_path: scans back from the terminator to the last '/'. */
  method StripPath(s: string) returns (r: string)
    ensures r == Basename(s)
  {
    var i := |s|;
    while i > 0 && s[i - 1] != '/'
      invariant 0 <= i <= |s|
      invariant BaseStart(s, i) == BaseStart(s, |s|)
      decreases i
    {
      i := i - 1;
    }
    r := s[i..];
  }

  /** The character a name is compared and removed under: '_' for '-'. */
  function Underscore(c: char): char
  {
    if c == '-' then '_' else c
  }

  /** The name with every '-' turned into '_'. */
  function Underscored(s: string): (u: string)
    ensures |u| == |s| && '-' !in u
    ensures forall i :: 0 <= i < |s| && s[i] != '-' ==> u[i] == s[i]
  {
    seq(|s|, i requires 0 <= i < |s| => Underscore(s[i]))
  }

  /** hyphen_to_underscore, on a copy of the string it rewrites in place. */
  method HyphenToUnderscore(s: string) returns (r: string)
    ensures r == Underscored(s)
  {
    r := s;
    var i := 0;
    while i < |s|
      invariant 0 <= i <= |s| == |r|
      invariant forall j :: 0 <= j < i ==> r[j] == Underscore(s[j])
      invariant forall j :: i <= j < |s| ==> r[j] == s[j]
    {
      if r[i] == '-' {
        r := r[i := '_'];
      }
      i := i + 1;
    }
  }

  /** Every '-' of a name is gone once it is underscored, and underscoring again changes nothing. */
  lemma UnderscoredIdempotent(s: string)
    ensures forall i :: 0 <= i < |s| ==> Underscored(s)[i] != '-'
    ensures Underscored(Underscored(s)) == Underscored(s)
  {
  }

  predicate Dash(c: char)
  {
    c == '_' || c == '-'
  }

  /** The character at i of a C string, its terminator at i == |s|. */
  function CharAt(s: string, i: nat): char
    requires i <= |s|
  {
    if i < |s| then s[i] else NUL
  }

  /** What match_name compares from index i on: its return is 0 exactly when this holds from 0. */
  predicate MatchFrom(s1: string, s2: string, i: nat, size: nat)
    requires NoNul(s1) && NoNul(s2) && i <= |s1| && i <= |s2|
    decreases size - i
  {
    i >= size ||
    if Dash(CharAt(s1, i)) && Dash(CharAt(s2, i)) then MatchFrom(s1, s2, i + 1, size)
    else CharAt(s1, i) == CharAt(s2, i) && (CharAt(s1, i) == NUL || MatchFrom(s1, s2, i + 1, size))
  }

  /** match_name: 0 when the names agree up to size characters or a shared terminator, '_' and '-' alike. */
  method MatchName(s1: string, s2: string, size: nat) returns (r: int)
    requires NoNul(s1) && NoNul(s2)
    ensures r == 0 || r == -1
    ensures r == 0 <==> MatchFrom(s1, s2, 0, size)
  {
    if size == 0 {
      return 0;
    }
    var i := 0;
    while i < size
      invariant i <= |s1| && i <= |s2|
      invariant MatchFrom(s1, s2, 0, size) == MatchFrom(s1, s2, i, size)
      decreases size - i
    {
      var c1, c2 := CharAt(s1, i), CharAt(s2, i);
      if Dash(c1) && Dash(c2) {
        i := i + 1;
      } else if c1 != c2 {
        return -1;
      } else if c1 == NUL {
        return 0;
      } else {
        i := i + 1;
      }
    }
    return 0;
  }

  /** Two characters are the same for module names: equal, or both '_' or '-'. */
  predicate SameChar(a: char, b: char)
  {
    a == b || (Dash(a) && Dash(b))
  }

  lemma {:induction false} MatchFromAll(a: string, b: string, i: nat)
    requires NoNul(a) && NoNul(b) && i <= |a| && i <= |b|
    ensures MatchFrom(a, b, i, |b| + 1) <==> |a| == |b| && forall j :: i <= j < |a| ==> SameChar(a[j], b[j])
    decreases |b| + 1 - i
  {
    if i < |a| && i < |b| {
      MatchFromAll(a, b, i + 1);
    }
  }

  /**
   * A comparison as long as the second name and its terminator, the one
   * is_target_module makes, matches exactly when the names are equal once
   * every '-' is read as '_'.
   */
  lemma NameMatch(a: string, b: string)
    requires NoNul(a) && NoNul(b)
    ensures MatchFrom(a, b, 0, |b| + 1) <==> Underscored(a) == Underscored(b)
  {
    MatchFromAll(a, b, 0);
    if Underscored(a) == Underscored(b) {
      forall j | 0 <= j < |a|
        ensures SameChar(a[j], b[j])
      {
        assert Underscored(a)[j] == Underscored(b)[j];
      }
    }
    if |a| == |b| && forall j :: 0 <= j < |a| ==> SameChar(a[j], b[j]) {
      assert forall j :: 0 <= j < |a| ==> Underscored(a)[j] == Underscored(b)[j];
    }
  }

  // ---------------------------------------------------------------------
  // modules.dep lines

  /** A line of modules.dep is the target's: the basename before its first ':' is target + ".ko", '_' and '-' alike. */
  predicate IsTarget(line: string, target: string)
  {
    match IndexOf(line, ':')
    case None => false
    case Some(c) => Underscored(Basename(line[..c])) == Underscored(target + ".ko")
  }

  /** is_target_module: 1 for the target's line, 0 for any other line, a line with no ':' included. */
  method IsTargetModule(line: string, target: string) returns (ret: int)
    requires NoNul(line) && NoNul(target)
    ensures ret == 0 || ret == 1
    ensures ret == 1 <==> IsTarget(line, target)
  {
    var colon := IndexOf(line, ':');
    if colon.None? {
      return 0;
    }
    var name := target + ".ko";
    var base := StripPath(line[..colon.value]);
    BasenameSuffix(line[..colon.value]);
    var m := MatchName(base, name, |name| + 1);
    NameMatch(base, name);
    ret := if m == 0 then 1 else 0;
  }

  /** The entries of a dependency line: its words between ':' and ' ', in line order. */
  function DepList(line: string): (dep: seq<string>)
    ensures forall e :: e in dep ==> e != [] && ':' !in e && ' ' !in e
  {
    Tokens(line, DEP_DELIMS)
  }

  /** dep_num after n entries are stored: it grows by 10 whenever the next store would take the last slot. */
  function DepNum(n: nat): nat
  {
    INIT_DEP_NUM + INIT_DEP_NUM * (n / INIT_DEP_NUM)
  }

  /** One store more: dep_num grows by INIT_DEP_NUM exactly when the store would take its last slot. */
  lemma DepNumStep(i: nat)
    ensures i < DepNum(i)
    ensures DepNum(i + 1) == if i < DepNum(i) - 1 then DepNum(i) else DepNum(i) + INIT_DEP_NUM
  {
    var q, r := i / INIT_DEP_NUM, i % INIT_DEP_NUM;
    assert i == INIT_DEP_NUM * q + r;
    if r < INIT_DEP_NUM - 1 {
      assert (i + 1) / INIT_DEP_NUM == q;
    } else {
      assert (i + 1) / INIT_DEP_NUM == q + 1;
    }
  }

  /** The bytes of the dep array after n stores as realloc(dep, dep_num) has it: dep_num bytes once it has grown. */
  function DepBytesAsWritten(n: nat): nat
  {
    if n < INIT_DEP_NUM then PTR_BYTES * INIT_DEP_NUM else DepNum(n)
  }

  /** As written, a line of ten or more entries leaves the array too small for its entries and the final NULL. */
  lemma SetupDepOverflows(n: nat)
    requires n >= INIT_DEP_NUM
    ensures DepBytesAsWritten(n) < (n + 1) * PTR_BYTES
  {
  }

  /** A line of nine entries still fits as written. */
  lemma SetupDepNineFit()
    ensures (9 + 1) * PTR_BYTES <= DepBytesAsWritten(9)
  {
  }

  /**
   * setup_dep as written: the loop of the source with the array's size in
   * bytes, realloc asked for dep_num bytes. The bytes it ends with are
   * returned.
   */
  method SetupDepAsWritten(line: string) returns (dep: seq<string>, ghost bytes: nat)
    ensures dep == DepList(line)
    ensures bytes == DepBytesAsWritten(|dep|)
  {
    var toks := Tokens(line, DEP_DELIMS);
    var depNum := INIT_DEP_NUM;
    bytes := PTR_BYTES * depNum;
    dep := [];
    var i := 0;
    while i < |toks|
      invariant i <= |toks| && dep == toks[..i]
      invariant depNum == DepNum(i) && i < depNum
      invariant bytes == DepBytesAsWritten(i)
    {
      DepNumStep(i);
      TakeNext(toks, i);
      if !(i < depNum - 1) {
        depNum := depNum + INIT_DEP_NUM;
        bytes := depNum;
      }
      dep := dep + [toks[i]];
      i := i + 1;
    }
    TakeAll(toks);
  }

  /**
   * setup_dep with realloc asked for dep_num pointers: the entries of the line
   * in order, and every store, the final NULL included, lands inside the array.
   */
  method SetupDep(line: string) returns (dep: seq<string>, ghost bytes: nat)
    ensures dep == DepList(line)
    ensures bytes == PTR_BYTES * DepNum(|dep|) && (|dep| + 1) * PTR_BYTES <= bytes
  {
    var toks := Tokens(line, DEP_DELIMS);
    var depNum := INIT_DEP_NUM;
    bytes := PTR_BYTES * depNum;
    dep := [];
    var i := 0;
    while i < |toks|
      invariant i <= |toks| && dep == toks[..i]
      invariant depNum == DepNum(i) && i < depNum
      invariant bytes == PTR_BYTES * depNum
    {
      DepNumStep(i);
      TakeNext(toks, i);
      if !(i < depNum - 1) {
        depNum := depNum + INIT_DEP_NUM;
        bytes := PTR_BYTES * depNum;
      }
      assert (i + 1) * PTR_BYTES <= bytes;
      dep := dep + [toks[i]];
      i := i + 1;
    }
    TakeAll(toks);
  }

  /** The index of the first line from i on that is the target's. */
  function FirstTarget(lines: seq<string>, target: string, i: nat): (r: Option<nat>)
    requires i <= |lines|
    ensures r.Some? ==> i <= r.value < |lines| && IsTarget(lines[r.value], target)
    ensures r.Some? ==> forall j :: i <= j < r.value ==> !IsTarget(lines[j], target)
    ensures r.None? ==> forall j :: i <= j < |lines| ==> !IsTarget(lines[j], target)
    decreases |lines| - i
  {
    if i == |lines| then None
    else if IsTarget(lines[i], target) then Some(i)
    else FirstTarget(lines, target, i + 1)
  }

  /** The lines of the loaded dependency file, as strtok(..., "\n") hands them out. */
  function DepLines(file: string): (lines: seq<string>)
    ensures forall l :: l in lines ==> NoNul(l)
  {
    TokensNoNul(UpToNul(file), {'\n'});
    Tokens(UpToNul(file), {'\n'})
  }

  /** What look_up_dep finds: the entries of the first line for the module, if a name is given and a line is its. */
  function LookUp(name: Option<string>, file: Option<string>): (dep: Option<seq<string>>)
    ensures dep.Some? ==> name.Some? && name.value != [] && file.Some?
    ensures dep.Some? ==> forall e :: e in dep.value ==> e != [] && ':' !in e && ' ' !in e
  {
    if file.None? || name.None? || name.value == [] then None
    else
      match FirstTarget(DepLines(file.value), name.value, 0)
      case None => None
      case Some(k) => Some(DepList(DepLines(file.value)[k]))
  }

  /** look_up_dep: the lines are tried in file order and the first one for the module is split. */
  method LookUpDep(name: Option<string>, file: Option<string>) returns (dep: Option<seq<string>>)
    requires name.Some? ==> NoNul(name.value)
    ensures dep == LookUp(name, file)
  {
    if file.None? || name.None? || name.value == [] {
      return None;
    }
    var lines := DepLines(file.value);
    var k := 0;
    while k < |lines|
      invariant 0 <= k <= |lines|
      invariant FirstTarget(lines, name.value, 0) == FirstTarget(lines, name.value, k)
    {
      assert lines[k] in lines;
      var hit := IsTargetModule(lines[k], name.value);
      if hit == 1 {
        var d;
        ghost var bytes;
        d, bytes := SetupDep(lines[k]);
        return Some(d);
      }
      k := k + 1;
    }
    return None;
  }

  // ---------------------------------------------------------------------
  // The kernel

  datatype Call = Load(path: string, args: string) | Unload(name: string, flags: int)

  /**
   * The kernel as insmod and rmmod see it: every request is logged, and a
   * request in refused fails (a module file that cannot be read, an
   * init_module error other than EEXIST, a delete_module error).
   */
  class Kernel {
    var log: seq<Call>
    const refused: set<Call>

    constructor (refused: set<Call>)
      ensures log == [] && this.refused == refused
    {
      log := [];
      this.refused := refused;
    }

    /** insmod: 0 when the module is loaded or was already loaded, -1 otherwise. */
    method Insmod(path: string, args: string) returns (r: int)
      modifies this`log
      ensures log == old(log) + [Load(path, args)]
      ensures r == if Load(path, args) in refused then -1 else 0
    {
      log := log + [Load(path, args)];
      r := if Load(path, args) in refused then -1 else 0;
    }

    /** rmmod: delete_module's result, -1 when it fails. */
    method Rmmod(name: string, flags: int) returns (r: int)
      modifies this`log
      ensures log == old(log) + [Unload(name, flags)]
      ensures r == if Unload(name, flags) in refused then -1 else 0
    {
      log := log + [Unload(name, flags)];
      r := if Unload(name, flags) in refused then -1 else 0;
    }
  }

  /** The index of the first refused call, |plan| when there is none. */
  function FirstRefused(plan: seq<Call>, refused: set<Call>): (r: nat)
    ensures r <= |plan|
    ensures forall j :: 0 <= j < r ==> plan[j] !in refused
    ensures r < |plan| ==> plan[r] in refused
  {
    if plan == [] then 0
    else if plan[0] in refused then 0
    else 1 + FirstRefused(plan[1..], refused)
  }

  /** The calls a sequence of requests that stops at the first failure makes. */
  function Attempted(plan: seq<Call>, refused: set<Call>): (r: seq<Call>)
    ensures r <= plan
  {
    var f := FirstRefused(plan, refused);
    if f < |plan| then plan[..f + 1] else plan
  }

  /** None of the calls is refused. */
  predicate AllAccepted(calls: seq<Call>, refused: set<Call>)
  {
    forall j :: 0 <= j < |calls| ==> calls[j] !in refused
  }

  /** None of the first n calls is refused. */
  predicate AcceptedBelow(plan: seq<Call>, n: nat, refused: set<Call>)
    requires n <= |plan|
  {
    forall j :: 0 <= j < n ==> plan[j] !in refused
  }

  /** Requests that all succeed are all made. */
  lemma AttemptedAll(plan: seq<Call>, refused: set<Call>)
    requires AcceptedBelow(plan, |plan|, refused)
    ensures AllAccepted(plan, refused) && Attempted(plan, refused) == plan
  {
  }

  /** Requests stop right after the first refused one. */
  lemma AttemptedStop(plan: seq<Call>, n: nat, refused: set<Call>)
    requires n < |plan| && AcceptedBelow(plan, n, refused) && plan[n] in refused
    ensures !AllAccepted(plan, refused) && Attempted(plan, refused) == plan[..n] + [plan[n]]
  {
    assert plan[..n + 1] == plan[..n] + [plan[n]];
  }

  /** One more accepted request extends the accepted prefix. */
  lemma AcceptedStep(plan: seq<Call>, n: nat, refused: set<Call>)
    requires n < |plan| && AcceptedBelow(plan, n, refused) && plan[n] !in refused
    ensures AcceptedBelow(plan, n + 1, refused) && plan[..n + 1] == plan[..n] + [plan[n]]
  {
    assert plan[..n + 1] == plan[..n] + [plan[n]];
  }

  // ---------------------------------------------------------------------
  // insmod_s and rmmod_s

  /** The module directory: base when given and non-empty, otherwise /lib/modules/. */
  function BaseDir(base: Option<string>): string
  {
    if base.Some? && base.value != [] then base.value else DEFAULT_MOD_PATH
  }

  /** The load request for entry i: only the target, entry 0, gets the caller's arguments. */
  function LoadCall(dep: seq<string>, i: nat, args: string, strip: bool, dir: string): Call
    requires i < |dep|
  {
    Load(dir + (if strip then Basename(dep[i]) else dep[i]), if i == 0 then args else "")
  }

  /** The loads for the entries below cnt, from the last one down to the target. */
  function LoadsFrom(dep: seq<string>, cnt: nat, args: string, strip: bool, dir: string): (plan: seq<Call>)
    requires cnt <= |dep|
    ensures |plan| == cnt
  {
    if cnt == 0 then [] else [LoadCall(dep, cnt - 1, args, strip, dir)] + LoadsFrom(dep, cnt - 1, args, strip, dir)
  }

  /** insmod_s: a load request per entry, from the last entry down to the target, which alone gets the arguments. */
  function LoadPlan(dep: seq<string>, args: string, strip: bool, base: Option<string>): (plan: seq<Call>)
    ensures |plan| == |dep|
  {
    LoadsFrom(dep, |dep|, args, strip, BaseDir(base))
  }

  /** Request j of the loads below cnt is for entry cnt - 1 - j. */
  lemma {:induction false} LoadsFromAt(dep: seq<string>, cnt: nat, args: string, strip: bool, dir: string, j: nat)
    requires cnt <= |dep| && j < cnt
    ensures LoadsFrom(dep, cnt, args, strip, dir)[j] == LoadCall(dep, cnt - 1 - j, args, strip, dir)
    decreases cnt
  {
    if j > 0 {
      LoadsFromAt(dep, cnt - 1, args, strip, dir, j - 1);
    }
  }

  /** The target is loaded last, after every module it depends on, and is the only one given arguments. */
  lemma TargetLoadedLast(dep: seq<string>, args: string, strip: bool, base: Option<string>)
    requires dep != []
    ensures var plan := LoadPlan(dep, args, strip, base);
      plan[|plan| - 1] == Load(BaseDir(base) + (if strip then Basename(dep[0]) else dep[0]), args) &&
      forall j :: 0 <= j < |plan| - 1 ==> plan[j].Load? && plan[j].args == ""
  {
    var dir := BaseDir(base);
    LoadsFromAt(dep, |dep|, args, strip, dir, |dep| - 1);
    forall j | 0 <= j < |dep| - 1
      ensures LoadPlan(dep, args, strip, base)[j].Load? && LoadPlan(dep, args, strip, base)[j].args == ""
    {
      LoadsFromAt(dep, |dep|, args, strip, dir, j);
    }
  }

  /**
   * One pass of insmod_s: entry cnt is loaded, with the caller's arguments
   * only when it is the target; that is request |dep| - 1 - cnt of the plan.
   */
  method LoadEntry(dep: seq<string>, cnt: nat, args: string, strip: bool, dir: string, k: Kernel, ghost plan: seq<Call>)
      returns (ret: int)
    requires cnt < |dep| && plan == LoadsFrom(dep, |dep|, args, strip, dir)
    modifies k`log
    ensures k.log == old(k.log) + [plan[|dep| - 1 - cnt]]
    ensures ret == if plan[|dep| - 1 - cnt] in k.refused then -1 else 0
  {
    LoadsFromAt(dep, |dep|, args, strip, dir, |dep| - 1 - cnt);
    var name := dep[cnt];
    if strip {
      name := StripPath(dep[cnt]);
    }
    if cnt != 0 {
      ret := k.Insmod(dir + name, "");
    } else {
      ret := k.Insmod(dir + name, args);
    }
  }

  /**
   * insmod_s: the entries are loaded from the last to the first, and loading
   * stops at the first failure, whose -1 is returned.
   */
  method InsmodS(dep: seq<string>, args: string, strip: bool, base: Option<string>, k: Kernel) returns (ret: int)
    modifies k`log
    ensures k.log == old(k.log) + Attempted(LoadPlan(dep, args, strip, base), k.refused)
    ensures ret == if AllAccepted(LoadPlan(dep, args, strip, base), k.refused) then 0 else -1
  {
    var dir := BaseDir(base);
    ghost var plan := LoadPlan(dep, args, strip, base);
    var cnt := |dep|;
    ret := 0;
    while cnt > 0
      invariant 0 <= cnt <= |dep| == |plan|
      invariant k.log == old(k.log) + plan[..|dep| - cnt]
      invariant AcceptedBelow(plan, |dep| - cnt, k.refused)
    {
      cnt := cnt - 1;
      Assoc(old(k.log), plan[..|dep| - 1 - cnt], [plan[|dep| - 1 - cnt]]);
      ret := LoadEntry(dep, cnt, args, strip, dir, k, plan);
      if ret != 0 {
        AttemptedStop(plan, |dep| - 1 - cnt, k.refused);
        return;
      }
      AcceptedStep(plan, |dep| - 1 - cnt, k.refused);
    }
    assert plan[..|dep|] == plan;
    AttemptedAll(plan, k.refused);
  }

  /** An entry rmmod_s removes: its basename is longer than ".ko" and ends with it. */
  predicate KoFile(s: string)
  {
    |s| > 3 && s[|s| - 3] == '.' && s[|s| - 2] == 'k' && s[|s| - 1] == 'o'
  }

  /** The kernel's name of a module file: the basename without ".ko", '-' read as '_'. */
  function KernelName(e: string): (n: string)
    requires KoFile(Basename(e))
    ensures |n| == |Basename(e)| - 3 && n != [] && '-' !in n
  {
    var b := Basename(e);
    Underscored(b[..|b| - 3])
  }

  /** The removals for the entries from i on, in list order; entries that are not ".ko" files are passed over. */
  function UnloadsFrom(dep: seq<string>, i: nat, flags: int): (calls: seq<Call>)
    requires i <= |dep|
    ensures |calls| <= |dep| - i
    decreases |dep| - i
  {
    if i == |dep| then []
    else UnloadCalls(dep[i], flags) + UnloadsFrom(dep, i + 1, flags)
  }

  /** Every removal is of a module whose name has no '-'. */
  lemma {:induction false} UnloadNames(dep: seq<string>, i: nat, flags: int)
    requires i <= |dep|
    ensures forall c :: c in UnloadsFrom(dep, i, flags) ==> c.Unload? && c.flags == flags && '-' !in c.name
    decreases |dep| - i
  {
    if i < |dep| {
      UnloadNames(dep, i + 1, flags);
      var cs := UnloadCalls(dep[i], flags);
      assert UnloadsFrom(dep, i, flags) == cs + UnloadsFrom(dep, i + 1, flags);
    }
  }

  /** The removal rmmod_s asks for entry e: none when its basename is not a ".ko" file. */
  function UnloadCalls(e: string, flags: int): (calls: seq<Call>)
    ensures |calls| <= 1
    ensures calls != [] <==> KoFile(Basename(e))
  {
    if KoFile(Basename(e)) then [Unload(KernelName(e), flags)] else []
  }

  /** Whether the kernel refuses the removal rmmod_s asks for entry e. */
  predicate Refuses(e: string, flags: int, refused: set<Call>)
  {
    var cs := UnloadCalls(e, flags);
    cs != [] && cs[0] in refused
  }

  /** The removals rmmod_s makes from entry i on: it stops right after a refused one. */
  function RemovalLog(dep: seq<string>, i: nat, flags: int, refused: set<Call>): (calls: seq<Call>)
    requires i <= |dep|
    ensures |calls| <= |dep| - i
    decreases |dep| - i
  {
    if i == |dep| then []
    else
      var cs := UnloadCalls(dep[i], flags);
      if Refuses(dep[i], flags, refused) then cs else cs + RemovalLog(dep, i + 1, flags, refused)
  }

  /** The removals made are the first of those asked for, and all of them when none is refused. */
  lemma {:induction false} RemovalLogPrefix(dep: seq<string>, i: nat, flags: int, refused: set<Call>)
    requires i <= |dep|
    ensures RemovalLog(dep, i, flags, refused) <= UnloadsFrom(dep, i, flags)
    ensures !RemovalFails(dep, i, flags, refused) ==> RemovalLog(dep, i, flags, refused) == UnloadsFrom(dep, i, flags)
    decreases |dep| - i
  {
    if i < |dep| {
      RemovalLogPrefix(dep, i + 1, flags, refused);
      var cs := UnloadCalls(dep[i], flags);
      assert UnloadsFrom(dep, i, flags) == cs + UnloadsFrom(dep, i + 1, flags);
      if cs != [] && cs[0] in refused {
        assert RemovalLog(dep, i, flags, refused) == cs;
      } else {
        assert RemovalLog(dep, i, flags, refused) == cs + RemovalLog(dep, i + 1, flags, refused);
      }
    }
  }

  /** Some removal from entry i on is refused. */
  predicate RemovalFails(dep: seq<string>, i: nat, flags: int, refused: set<Call>)
    requires i <= |dep|
    decreases |dep| - i
  {
    i < |dep| &&
    (Refuses(dep[i], flags, refused) || RemovalFails(dep, i + 1, flags, refused))
  }

  /** Accepted requests ahead of a plan leave them in front of what is attempted of it. */
  lemma AttemptedAccepted(c: Call, rest: seq<Call>, refused: set<Call>)
    requires c !in refused
    ensures Attempted([c] + rest, refused) == [c] + Attempted(rest, refused)
    ensures AllAccepted([c] + rest, refused) == AllAccepted(rest, refused)
  {
    assert ([c] + rest)[1..] == rest;
    if !AllAccepted(rest, refused) {
      var j :| 0 <= j < |rest| && rest[j] in refused;
      assert ([c] + rest)[j + 1] == rest[j];
    }
    var f := FirstRefused(rest, refused);
    if f < |rest| {
      assert ([c] + rest)[..f + 2] == [c] + rest[..f + 1];
    }
  }

  /** A refused first request is the only one attempted. */
  lemma AttemptedRefused(c: Call, rest: seq<Call>, refused: set<Call>)
    requires c in refused
    ensures Attempted([c] + rest, refused) == [c] && !AllAccepted([c] + rest, refused)
  {
    assert ([c] + rest)[0] == c;
  }

  /** What rmmod_s makes and returns is what stopping the plan at its first refused removal gives. */
  lemma {:induction false} RemovalLogAttempted(dep: seq<string>, i: nat, flags: int, refused: set<Call>)
    requires i <= |dep|
    ensures RemovalLog(dep, i, flags, refused) == Attempted(UnloadsFrom(dep, i, flags), refused)
    ensures RemovalFails(dep, i, flags, refused) == !AllAccepted(UnloadsFrom(dep, i, flags), refused)
    decreases |dep| - i
  {
    if i < |dep| {
      RemovalLogAttempted(dep, i + 1, flags, refused);
      var cs := UnloadCalls(dep[i], flags);
      var rest := UnloadsFrom(dep, i + 1, flags);
      if cs != [] {
        if cs[0] in refused {
          AttemptedRefused(cs[0], rest, refused);
        } else {
          AttemptedAccepted(cs[0], rest, refused);
        }
      } else {
        assert UnloadsFrom(dep, i, flags) == rest;
      }
    }
  }

  /** One pass of rmmod_s: a ".ko" entry is removed under its kernel name. */
  method UnloadEntry(e: string, flags: int, k: Kernel) returns (ret: int)
    modifies k`log
    ensures k.log == old(k.log) + UnloadCalls(e, flags)
    ensures ret == if Refuses(e, flags, k.refused) then -1 else 0
  {
    var modName := StripPath(e);
    var len := |modName|;
    ret := 0;
    if len > 3 && modName[len - 1] == 'o' && modName[len - 2] == 'k' && modName[len - 3] == '.' {
      var name := HyphenToUnderscore(modName[..len - 3]);
      ret := k.Rmmod(name, flags);
    }
  }

  /**
   * One step of rmmod_s's plan from entry i, after a log: a refused removal
   * ends it, any other is followed by the rest.
   */
  lemma RemovalStep(dep: seq<string>, i: nat, flags: int, refused: set<Call>, log: seq<Call>)
    requires i < |dep|
    ensures Refuses(dep[i], flags, refused) ==>
      log + UnloadCalls(dep[i], flags) == log + RemovalLog(dep, i, flags, refused) &&
      RemovalFails(dep, i, flags, refused)
    ensures !Refuses(dep[i], flags, refused) ==>
      (log + UnloadCalls(dep[i], flags)) + RemovalLog(dep, i + 1, flags, refused) == log + RemovalLog(dep, i, flags, refused) &&
      RemovalFails(dep, i, flags, refused) == RemovalFails(dep, i + 1, flags, refused)
  {
    var cs := UnloadCalls(dep[i], flags);
    if !Refuses(dep[i], flags, refused) {
      assert RemovalLog(dep, i, flags, refused) == cs + RemovalLog(dep, i + 1, flags, refused);
      Assoc(log, cs, RemovalLog(dep, i + 1, flags, refused));
    }
  }

  /**
   * rmmod_s: the ".ko" entries are removed in list order, target first, and
   * removal stops at the first failure, whose result is returned.
   */
  method RmmodS(dep: seq<string>, flags: int, k: Kernel) returns (ret: int)
    modifies k`log
    ensures k.log == old(k.log) + RemovalLog(dep, 0, flags, k.refused)
    ensures ret == if RemovalFails(dep, 0, flags, k.refused) then -1 else 0
  {
    ghost var total, fails := old(k.log) + RemovalLog(dep, 0, flags, k.refused), RemovalFails(dep, 0, flags, k.refused);
    ret := 0;
    var i := 0;
    while i < |dep|
      invariant 0 <= i <= |dep| && ret == 0
      invariant k.log + RemovalLog(dep, i, flags, k.refused) == total
      invariant fails == RemovalFails(dep, i, flags, k.refused)
    {
      RemovalStep(dep, i, flags, k.refused, k.log);
      ret := UnloadEntry(dep[i], flags, k);
      if ret != 0 {
        break;
      }
      i := i + 1;
    }
    if ret == 0 {
      assert k.log + [] == k.log;
    }
  }

  // ---------------------------------------------------------------------
  // Blacklist screening

  /** An entry the blacklist names: a ".ko" file whose module name, path and suffix dropped, is listed. */
  predicate Hit(e: string, list: seq<ModuleParsers.ModuleNode>)
  {
    KoFile(e) && ModuleParsers.Listed(Basename(e[..|e| - 3]), list)
  }

  /** is_dep_in_blacklist's answer for the entries from i on. */
  function DepBlacklisted(dep: seq<string>, i: nat, list: seq<ModuleParsers.ModuleNode>): (r: int)
    requires i <= |dep|
    ensures r == -1 || r == 0 || r == 1
    decreases |dep| - i
  {
    if i == |dep| then 0
    else if !KoFile(dep[i]) then -1
    else if Hit(dep[i], list) then 1
    else DepBlacklisted(dep, i + 1, list)
  }

  /** The entries from i up to j are ".ko" files the list does not name. */
  predicate Clean(dep: seq<string>, i: nat, j: nat, list: seq<ModuleParsers.ModuleNode>)
    requires i <= j <= |dep|
  {
    forall m :: i <= m < j ==> KoFile(dep[m]) && !Hit(dep[m], list)
  }

  /**
   * is_dep_in_blacklist: -1 at the first entry that is not a ".ko" file, 1 at
   * the first whose module name is listed, 0 when there is neither.
   */
  method IsDepInBlacklist(dep: seq<string>, list: seq<ModuleParsers.ModuleNode>) returns (ret: int)
    ensures ret == DepBlacklisted(dep, 0, list)
  {
    var i := 0;
    while i < |dep|
      invariant 0 <= i <= |dep|
      invariant DepBlacklisted(dep, 0, list) == DepBlacklisted(dep, i, list)
    {
      var r := CheckEntry(dep[i], list);
      if r != 0 {
        return r;
      }
      i := i + 1;
    }
    return 0;
  }

  /** One pass of is_dep_in_blacklist over entry e. */
  method CheckEntry(e: string, list: seq<ModuleParsers.ModuleNode>) returns (r: int)
    ensures r == if !KoFile(e) then -1 else if Hit(e, list) then 1 else 0
  {
    var len := |e|;
    if !(len > 3 && e[len - 1] == 'o' && e[len - 2] == 'k' && e[len - 3] == '.') {
      assert !KoFile(e);
      return -1;
    }
    var base := StripPath(e[..len - 3]);
    var b := ModuleParsers.IsModuleBlacklisted(Some(base), list);
    r := if b != 0 then 1 else 0;
  }

  /** The answer is 1 exactly for a listed ".ko" entry with only unlisted ".ko" entries before it. */
  lemma {:induction false} DepBlacklistedHit(dep: seq<string>, i: nat, list: seq<ModuleParsers.ModuleNode>)
    requires i <= |dep|
    ensures DepBlacklisted(dep, i, list) == 1 <==> exists j :: i <= j < |dep| && Hit(dep[j], list) && Clean(dep, i, j, list)
    decreases |dep| - i
  {
    if i < |dep| {
      DepBlacklistedHit(dep, i + 1, list);
      if Hit(dep[i], list) {
        assert Clean(dep, i, i, list);
      } else if KoFile(dep[i]) {
        if DepBlacklisted(dep, i + 1, list) == 1 {
          var j :| i + 1 <= j < |dep| && Hit(dep[j], list) && Clean(dep, i + 1, j, list);
          assert Clean(dep, i, j, list);
        }
        if exists j :: i <= j < |dep| && Hit(dep[j], list) && Clean(dep, i, j, list) {
          var j :| i <= j < |dep| && Hit(dep[j], list) && Clean(dep, i, j, list);
          assert j != i;
          assert Clean(dep, i + 1, j, list);
        }
      }
    }
  }

  /** Against an empty list the answer is -1 exactly when some entry is not a ".ko" file. */
  lemma {:induction false} DepBlacklistedEmpty(dep: seq<string>, i: nat)
    requires i <= |dep|
    ensures DepBlacklisted(dep, i, []) == if exists j :: i <= j < |dep| && !KoFile(dep[j]) then -1 else 0
    decreases |dep| - i
  {
    if i < |dep| {
      DepBlacklistedEmpty(dep, i + 1);
    }
  }

  // ---------------------------------------------------------------------
  // insmod_by_dep and rmmod_by_dep

  /** load_file on the file system: the contents of path, if there is such a file. */
  function FileAt(fs: map<string, string>, path: string): Option<string>
  {
    if path in fs then Some(fs[path]) else None
  }

  /** The dependency file load_dep_file reads: the one named, or modules.dep when none or "" is named. */
  function DepFileName(depName: Option<string>): string
  {
    if depName.Some? && depName.value != [] then depName.value else DEFAULT_DEP_FILE
  }

  /** A caller's blacklist is used when a non-empty file name is given. */
  predicate CallerListGiven(blacklist: Option<string>)
  {
    blacklist.Some? && blacklist.value != []
  }

  /** The entries of a blacklist file, none when there is no such file. */
  function ListOf(file: Option<string>): seq<ModuleParsers.ModuleNode>
  {
    if file.Some? then ModuleParsers.ParsedNodes(ModuleParsers.READ_MODULES_BLKLST, file.value) else []
  }

  /** What load_file finds for each file insmod_by_dep reads; caller is the caller's blacklist. */
  datatype LoadFiles = LoadFiles(aliases: Option<string>, base: Option<string>, caller: Option<string>, dep: Option<string>)

  /** The files insmod_by_dep reads from a file system: the caller's blacklist only when one is named. */
  function LoadFilesIn(fs: map<string, string>, depName: Option<string>, blacklist: Option<string>): LoadFiles
  {
    LoadFiles(FileAt(fs, ALIAS_FILE), FileAt(fs, BASE_BLACKLIST),
              if CallerListGiven(blacklist) then FileAt(fs, blacklist.value) else None,
              FileAt(fs, DepFileName(depName)))
  }

  /** Where the checks of insmod_by_dep or rmmod_by_dep end: a result code, or the dependency list to act on. */
  datatype Screening = Reject(code: int) | Proceed(dep: seq<string>)

  /**
   * The checks insmod_by_dep makes before loading anything, in their order;
   * callerGiven says whether the caller named a blacklist. resolved stands
   * for what the alias lookup makes of the name: the call at
   * probe_module.c:500 hands a char** where a list head is expected, so its
   * outcome is an input here.
   */
  function LoadScreening(name: Option<string>, callerGiven: bool, files: LoadFiles, resolved: Option<string>): (r: Screening)
    ensures r.Reject? ==> r.code != MOD_NO_ERR
    ensures r.Proceed? ==> (name.Some? && name.value != [] && files.aliases.Some? && files.dep.Some? &&
                            (callerGiven ==> files.caller.Some?) &&
                            LookUp(if resolved.Some? then resolved else name, files.dep) == Some(r.dep))
  {
    if name.None? || name.value == [] then Reject(MOD_INVALID_NAME)
    else if files.aliases.None? then Reject(MOD_BAD_ALIAS)
    else if callerGiven && files.caller.None? then Reject(MOD_INVALID_CALLER_BLACK)
    else if files.dep.None? then Reject(MOD_BAD_DEP)
    else
      match LookUp(if resolved.Some? then resolved else name, files.dep)
      case None => Reject(MOD_DEP_NOT_FOUND)
      case Some(dep) => ChainScreening(dep, if callerGiven then ListOf(files.caller) else [], ListOf(files.base))
  }

  /** The two blacklist screenings of a dependency chain, the caller's list first. */
  function ChainScreening(dep: seq<string>, caller: seq<ModuleParsers.ModuleNode>,
                          base: seq<ModuleParsers.ModuleNode>): (r: Screening)
    ensures r.Proceed? ==> r.dep == dep
    ensures r == Reject(MOD_IN_BLACK) ==> DepBlacklisted(dep, 0, caller) == 0
  {
    if DepBlacklisted(dep, 0, caller) != 0 then Reject(MOD_IN_CALLER_BLACK)
    else if DepBlacklisted(dep, 0, base) != 0 then Reject(MOD_IN_BLACK)
    else Proceed(dep)
  }

  /** The checks rmmod_by_dep makes before removing anything, given what load_dep_file finds. */
  function RemoveScreening(name: Option<string>, depFile: Option<string>): (r: Screening)
    ensures r.Reject? ==> r.code != MOD_NO_ERR
    ensures r.Proceed? ==> name.Some? && name.value != [] && depFile.Some? && LookUp(name, depFile) == Some(r.dep)
  {
    if name.None? || name.value == [] then Reject(MOD_INVALID_NAME)
    else if depFile.None? then Reject(MOD_BAD_DEP)
    else
      match LookUp(name, depFile)
      case None => Reject(MOD_DEP_NOT_FOUND)
      case Some(dep) => Proceed(dep)
  }

  /** The lists insmod_by_dep parses from the files it found, and the result code when parsing stops it. */
  method ParseLists(blacklist: Option<string>, files: LoadFiles)
      returns (code: int, aliases: ModuleParsers.ModuleList, base: ModuleParsers.ModuleList, extra: ModuleParsers.ModuleList)
    ensures fresh(aliases) && fresh(base) && fresh(extra)
    ensures code == (if files.aliases.None? then MOD_BAD_ALIAS
      else if CallerListGiven(blacklist) && files.caller.None? then MOD_INVALID_CALLER_BLACK
      else 0)
    ensures code == 0 ==> base.nodes == ListOf(files.base)
    ensures code == 0 ==> extra.nodes == if CallerListGiven(blacklist) then ListOf(files.caller) else []
  {
    aliases := new ModuleParsers.ModuleList();
    base := new ModuleParsers.ModuleList();
    extra := new ModuleParsers.ModuleList();
    var r := ModuleParsers.ParseAliasToList(ALIAS_FILE, files.aliases, aliases);
    if r != 0 {
      return MOD_BAD_ALIAS, aliases, base, extra;
    }
    // A missing base blacklist is allowed: the list stays empty.
    r := ModuleParsers.ParseBlacklistToList(BASE_BLACKLIST, files.base, base);
    if CallerListGiven(blacklist) {
      r := ModuleParsers.ParseBlacklistToList(blacklist.value, files.caller, extra);
      if r != 0 {
        return MOD_INVALID_CALLER_BLACK, aliases, base, extra;
      }
    }
    code := 0;
  }

  /**
   * The part of insmod_by_dep up to the blacklist checks: it parses the
   * lists, loads the dependency file, looks the module up and screens its
   * chain, caller's list first, and frees the lists again.
   */
  method CheckLoad(moduleName: Option<string>, depName: Option<string>, blacklist: Option<string>,
                   fs: map<string, string>, resolved: Option<string>) returns (s: Screening)
    requires moduleName.Some? ==> NoNul(moduleName.value)
    requires resolved.Some? ==> NoNul(resolved.value)
    ensures s == LoadScreening(moduleName, CallerListGiven(blacklist), LoadFilesIn(fs, depName, blacklist), resolved)
  {
    if moduleName.None? || moduleName.value == [] {
      return Reject(MOD_INVALID_NAME);
    }
    var files := LoadFilesIn(fs, depName, blacklist);
    var code, aliasList, baseList, extraList := ParseLists(blacklist, files);
    if code != 0 {
      s := Reject(code);
    } else {
      var depFile := files.dep;
      if depFile.None? {
        s := Reject(MOD_BAD_DEP);
      } else {
        var name := moduleName;
        if resolved.Some? {
          name := resolved;
        }
        var dep := LookUpDep(name, depFile);
        if dep.None? {
          s := Reject(MOD_DEP_NOT_FOUND);
        } else {
          var b := IsDepInBlacklist(dep.value, extraList.nodes);
          if b != 0 {
            s := Reject(MOD_IN_CALLER_BLACK);
          } else {
            b := IsDepInBlacklist(dep.value, baseList.nodes);
            s := if b != 0 then Reject(MOD_IN_BLACK) else Proceed(dep.value);
          }
        }
      }
    }
    aliasList.Free();
    baseList.Free();
    extraList.Free();
  }

  /**
   * insmod_by_dep: the checks run in their documented order and the first
   * that fails gives the result with nothing loaded; when all pass, the
   * dependency chain is loaded by insmod_s.
   */
  method InsmodByDep(moduleName: Option<string>, args: string, depName: Option<string>, strip: bool,
                     base: Option<string>, blacklist: Option<string>, fs: map<string, string>,
                     resolved: Option<string>, k: Kernel) returns (ret: int)
    requires moduleName.Some? ==> NoNul(moduleName.value)
    requires resolved.Some? ==> NoNul(resolved.value)
    modifies k`log
    ensures var sc := LoadScreening(moduleName, CallerListGiven(blacklist), LoadFilesIn(fs, depName, blacklist), resolved);
      sc.Reject? ==> ret == sc.code && k.log == old(k.log)
    ensures var sc := LoadScreening(moduleName, CallerListGiven(blacklist), LoadFilesIn(fs, depName, blacklist), resolved);
      sc.Proceed? ==>
      var dep := sc.dep;
      k.log == old(k.log) + Attempted(LoadPlan(dep, args, strip, base), k.refused) &&
      ret == if AllAccepted(LoadPlan(dep, args, strip, base), k.refused) then 0 else -1
  {
    var s := CheckLoad(moduleName, depName, blacklist, fs, resolved);
    if s.Reject? {
      return s.code;
    }
    ret := InsmodS(s.dep, args, strip, base, k);
  }

  /**
   * rmmod_by_dep: a valid name, a loadable dependency file and a line for the
   * module are needed before rmmod_s removes the chain without blocking.
   */
  method RmmodByDep(moduleName: Option<string>, depName: Option<string>, fs: map<string, string>, k: Kernel)
      returns (ret: int)
    requires moduleName.Some? ==> NoNul(moduleName.value)
    modifies k`log
    ensures var sc := RemoveScreening(moduleName, FileAt(fs, DepFileName(depName)));
      sc.Reject? ==> ret == sc.code && k.log == old(k.log)
    ensures var sc := RemoveScreening(moduleName, FileAt(fs, DepFileName(depName)));
      sc.Proceed? ==>
      var dep := sc.dep;
      k.log == old(k.log) + RemovalLog(dep, 0, O_NONBLOCK, k.refused) &&
      ret == if RemovalFails(dep, 0, O_NONBLOCK, k.refused) then -1 else 0
  {
    if moduleName.None? || moduleName.value == [] {
      return MOD_INVALID_NAME;
    }
    var depFile := FileAt(fs, DepFileName(depName));
    if depFile.None? {
      return MOD_BAD_DEP;
    }
    var dep := LookUpDep(moduleName, depFile);
    if dep.None? {
      return MOD_DEP_NOT_FOUND;
    }
    ret := RmmodS(dep.value, O_NONBLOCK, k);
  }


  /** is_dep_in_blacklist answers 0 exactly when every entry is a ".ko" file the list does not name. */
  lemma {:induction false} DepBlacklistedZero(dep: seq<string>, i: nat, list: seq<ModuleParsers.ModuleNode>)
    requires i <= |dep|
    ensures DepBlacklisted(dep, i, list) == 0 <==> Clean(dep, i, |dep|, list)
    decreases |dep| - i
  {
    if i < |dep| {
      DepBlacklistedZero(dep, i + 1, list);
      if KoFile(dep[i]) && !Hit(dep[i], list) && Clean(dep, i + 1, |dep|, list) {
        assert Clean(dep, i, |dep|, list);
      }
    }
  }

  /** The chain insmod_by_dep goes ahead with is the module's line, and every entry of it passed both lists. */
  lemma LoadProceedsClean(name: Option<string>, callerGiven: bool, files: LoadFiles, resolved: Option<string>)
    requires LoadScreening(name, callerGiven, files, resolved).Proceed?
    ensures var dep := LoadScreening(name, callerGiven, files, resolved).dep;
      name.Some? && name.value != [] && files.aliases.Some? && (callerGiven ==> files.caller.Some?) &&
      LookUp(if resolved.Some? then resolved else name, files.dep) == Some(dep) &&
      forall e :: e in dep ==> (KoFile(e) && !Hit(e, ListOf(files.base)) &&
        (callerGiven ==> !Hit(e, ListOf(files.caller))))
  {
    var dep := LoadScreening(name, callerGiven, files, resolved).dep;
    DepBlacklistedZero(dep, 0, if callerGiven then ListOf(files.caller) else []);
    DepBlacklistedZero(dep, 0, ListOf(files.base));
    forall e | e in dep
      ensures KoFile(e) && !Hit(e, ListOf(files.base)) && (callerGiven ==> !Hit(e, ListOf(files.caller)))
    {
      var m :| 0 <= m < |dep| && dep[m] == e;
    }
  }

  /** Conversely, with every file in place, a line for the module and a chain both lists pass, insmod_by_dep goes ahead. */
  lemma LoadProceedsWhenClean(name: Option<string>, callerGiven: bool, files: LoadFiles, resolved: Option<string>,
                              dep: seq<string>)
    requires name.Some? && name.value != [] && files.aliases.Some? && (callerGiven ==> files.caller.Some?)
    requires LookUp(if resolved.Some? then resolved else name, files.dep) == Some(dep)
    requires forall m :: 0 <= m < |dep| ==> (KoFile(dep[m]) && !Hit(dep[m], ListOf(files.base)) &&
      (callerGiven ==> !Hit(dep[m], ListOf(files.caller))))
    ensures LoadScreening(name, callerGiven, files, resolved) == Proceed(dep)
  {
    DepBlacklistedZero(dep, 0, if callerGiven then ListOf(files.caller) else []);
    DepBlacklistedZero(dep, 0, ListOf(files.base));
  }

  /**
   * is_dep_in_blacklist reports -1 for an entry that is not a ".ko" file,
   * and insmod_by_dep takes any nonzero answer from the first screening as
   * a caller's blacklist hit: such a chain is refused with
   * MOD_IN_CALLER_BLACK even when the caller names no blacklist.
   */
  lemma NonKoIsCallerBlack(name: Option<string>, files: LoadFiles, resolved: Option<string>, dep: seq<string>, j: nat)
    requires name.Some? && name.value != [] && files.aliases.Some?
    requires LookUp(if resolved.Some? then resolved else name, files.dep) == Some(dep)
    requires j < |dep| && !KoFile(dep[j])
    ensures LoadScreening(name, false, files, resolved) == Reject(MOD_IN_CALLER_BLACK)
  {
    DepBlacklistedEmpty(dep, 0);
  }

  /** Every refusal of insmod_by_dep is one of its seven result codes, each a single bit. */
  lemma LoadRejectCodes(name: Option<string>, callerGiven: bool, files: LoadFiles, resolved: Option<string>)
    ensures LoadScreening(name, callerGiven, files, resolved).Reject? ==>
      LoadScreening(name, callerGiven, files, resolved).code in
        {MOD_INVALID_NAME, MOD_BAD_ALIAS, MOD_INVALID_CALLER_BLACK, MOD_BAD_DEP,
         MOD_DEP_NOT_FOUND, MOD_IN_CALLER_BLACK, MOD_IN_BLACK}
  {
  }

  /** A name insmod_by_dep would load without alias resolution is one rmmod_by_dep finds the same chain for. */
  lemma RemoveScreensLoadedChain(name: Option<string>, callerGiven: bool, files: LoadFiles)
    requires LoadScreening(name, callerGiven, files, None).Proceed?
    ensures RemoveScreening(name, files.dep) == Proceed(LoadScreening(name, callerGiven, files, None).dep)
  {
  }
}
