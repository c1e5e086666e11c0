// Reboot signalling (libcutils/android_reboot.c). A process asking for a
// reboot tells init which command it means by the signal it sends: the
// signal table maps (command, argument) pairs to signals and back. Before a
// reboot, kill_user_space_tasks collects the user processes from /proc,
// signals them and waits a bounded time for them to exit.

module AndroidReboot {
  import opened CStrings

  // The reboot commands and flags of cutils/android_reboot.h.
  const ANDROID_RB_RESTART: int := 0xDEAD0001
  const ANDROID_RB_POWEROFF: int := 0xDEAD0002
  const ANDROID_RB_RESTART2: int := 0xDEAD0003
  const ANDROID_RB_FLAG_NO_SYNC: int := 1
  const ANDROID_RB_FLAG_NO_REMOUNT_RO: int := 2

  // Linux signal numbers.
  const SIGHUP: int := 1
  const SIGINT: int := 2
  const SIGQUIT: int := 3
  const SIGKILL: int := 9
  const SIGUSR1: int := 10
  const SIGUSR2: int := 12
  const SIGTERM: int := 15
  const SIGTSTP: int := 20

  /** A row of the signal table: the signal that stands for a command and its argument. */
  datatype SignalSet = SignalSet(sig: int, cmd: int, arg: string)

  const SIGNAL_ARRAY: seq<SignalSet> := [
    SignalSet(SIGUSR2, ANDROID_RB_POWEROFF, ""),
    SignalSet(SIGTERM, ANDROID_RB_RESTART, ""),
    SignalSet(SIGHUP, ANDROID_RB_RESTART2, "android"),
    SignalSet(SIGINT, ANDROID_RB_RESTART2, "recovery"),
    SignalSet(SIGQUIT, ANDROID_RB_RESTART2, "bootloader"),
    SignalSet(SIGTSTP, ANDROID_RB_RESTART2, "fastboot")
  ]

  /** A row stands for a command when the command is its own and the argument is absent or its own. */
  predicate RowMatches(ss: SignalSet, cmd: int, arg: Option<string>)
  {
    ss.cmd == cmd && (arg.None? || arg.value == ss.arg)
  }

  /** The signal for a command no row stands for. */
  function DefaultSig(cmd: int): int
  {
    if cmd == ANDROID_RB_RESTART then SIGTERM
    else if cmd == ANDROID_RB_POWEROFF then SIGUSR2
    else if cmd == ANDROID_RB_RESTART2 then SIGHUP
    else SIGUSR2
  }

  /** write_sig's scan of the rows from i on. */
  function WriteSigFrom(cmd: int, arg: Option<string>, i: nat): (sig: int)
    requires i <= |SIGNAL_ARRAY|
    ensures sig == DefaultSig(cmd) ||
      exists j :: i <= j < |SIGNAL_ARRAY| && RowMatches(SIGNAL_ARRAY[j], cmd, arg) && sig == SIGNAL_ARRAY[j].sig
    decreases |SIGNAL_ARRAY| - i
  {
    if i == |SIGNAL_ARRAY| then DefaultSig(cmd)
    else if RowMatches(SIGNAL_ARRAY[i], cmd, arg) then SIGNAL_ARRAY[i].sig
    else WriteSigFrom(cmd, arg, i + 1)
  }

  /** write_sig: the signal init is sent for a reboot command. */
  function WriteSig(cmd: int, arg: Option<string>): (sig: int)
    ensures sig == DefaultSig(cmd) ||
      exists j :: 0 <= j < |SIGNAL_ARRAY| && RowMatches(SIGNAL_ARRAY[j], cmd, arg) && sig == SIGNAL_ARRAY[j].sig
  {
    WriteSigFrom(cmd, arg, 0)
  }

  /** The scan from i gives the signal of the first matching row at or after i, or the default. */
  lemma {:induction false} WriteSigFromFirst(cmd: int, arg: Option<string>, i: nat)
    requires i <= |SIGNAL_ARRAY|
    ensures forall j :: (i <= j < |SIGNAL_ARRAY| && RowMatches(SIGNAL_ARRAY[j], cmd, arg) &&
      (forall m :: i <= m < j ==> !RowMatches(SIGNAL_ARRAY[m], cmd, arg))) ==>
      WriteSigFrom(cmd, arg, i) == SIGNAL_ARRAY[j].sig
    ensures (forall m :: i <= m < |SIGNAL_ARRAY| ==> !RowMatches(SIGNAL_ARRAY[m], cmd, arg)) ==>
      WriteSigFrom(cmd, arg, i) == DefaultSig(cmd)
    decreases |SIGNAL_ARRAY| - i
  {
    if i < |SIGNAL_ARRAY| {
      WriteSigFromFirst(cmd, arg, i + 1);
    }
  }

  /** write_sig gives the signal of the first row that stands for (cmd, arg). */
  lemma WriteSigFirstMatch(cmd: int, arg: Option<string>, j: nat)
    requires j < |SIGNAL_ARRAY| && RowMatches(SIGNAL_ARRAY[j], cmd, arg)
    requires forall m :: 0 <= m < j ==> !RowMatches(SIGNAL_ARRAY[m], cmd, arg)
    ensures WriteSig(cmd, arg) == SIGNAL_ARRAY[j].sig
  {
    WriteSigFromFirst(cmd, arg, 0);
  }

  /** With no row for (cmd, arg), restart is SIGTERM, power-off SIGUSR2, restart with an argument SIGHUP, anything else SIGUSR2. */
  lemma WriteSigNoMatch(cmd: int, arg: Option<string>)
    requires forall m :: 0 <= m < |SIGNAL_ARRAY| ==> !RowMatches(SIGNAL_ARRAY[m], cmd, arg)
    ensures WriteSig(cmd, arg) == DefaultSig(cmd)
  {
    WriteSigFromFirst(cmd, arg, 0);
  }

  /** read_sig's scan of the rows from i on: the command and argument a signal stands for. */
  function ReadSigFrom(sig: int, i: nat): (r: (int, string))
    requires i <= |SIGNAL_ARRAY|
    ensures r == (ANDROID_RB_POWEROFF, "") ||
      exists j :: i <= j < |SIGNAL_ARRAY| && SIGNAL_ARRAY[j].sig == sig && r == (SIGNAL_ARRAY[j].cmd, SIGNAL_ARRAY[j].arg)
    decreases |SIGNAL_ARRAY| - i
  {
    if i == |SIGNAL_ARRAY| then (ANDROID_RB_POWEROFF, "")
    else if SIGNAL_ARRAY[i].sig == sig then (SIGNAL_ARRAY[i].cmd, SIGNAL_ARRAY[i].arg)
    else ReadSigFrom(sig, i + 1)
  }

  /**
   * read_sig: the first row with the signal, or power-off with an empty
   * argument. The table's arguments are shorter than the 64-byte buffer
   * strlcpy copies them into, so none is cut.
   */
  function ReadSig(sig: int): (r: (int, string))
    ensures |r.1| < 64
    ensures r == (ANDROID_RB_POWEROFF, "") ||
      exists j :: 0 <= j < |SIGNAL_ARRAY| && SIGNAL_ARRAY[j].sig == sig && r == (SIGNAL_ARRAY[j].cmd, SIGNAL_ARRAY[j].arg)
  {
    ReadSigFrom(sig, 0)
  }

  /** The signals of the table are distinct, so read_sig finds a signal's own row. */
  lemma {:induction false} ReadSigRow(i: nat)
    requires i < |SIGNAL_ARRAY|
    ensures ReadSig(SIGNAL_ARRAY[i].sig) == (SIGNAL_ARRAY[i].cmd, SIGNAL_ARRAY[i].arg)
  {
    assert ReadSigFrom(SIGNAL_ARRAY[i].sig, i) == (SIGNAL_ARRAY[i].cmd, SIGNAL_ARRAY[i].arg);
    var k := i;
    while k > 0
      invariant 0 <= k <= i
      invariant ReadSigFrom(SIGNAL_ARRAY[i].sig, k) == (SIGNAL_ARRAY[i].cmd, SIGNAL_ARRAY[i].arg)
    {
      k := k - 1;
      assert SIGNAL_ARRAY[k].sig != SIGNAL_ARRAY[i].sig;
    }
  }

  /** Every row's pair maps to a signal that read_sig maps back to that pair. */
  lemma SignalRoundTrip(i: nat)
    requires i < |SIGNAL_ARRAY|
    ensures ReadSig(WriteSig(SIGNAL_ARRAY[i].cmd, Some(SIGNAL_ARRAY[i].arg))) == (SIGNAL_ARRAY[i].cmd, SIGNAL_ARRAY[i].arg)
  {
    var ss := SIGNAL_ARRAY[i];
    forall m | 0 <= m < i
      ensures !RowMatches(SIGNAL_ARRAY[m], ss.cmd, Some(ss.arg))
    {
    }
    WriteSigFirstMatch(ss.cmd, Some(ss.arg), i);
    ReadSigRow(i);
  }

  /**
   * check_user_task: cmdline is what reading /proc/<pid>/cmdline gives
   * (none when it cannot be opened or read). At most 1023 bytes are read,
   * and the text is searched only up to its first NUL, the program name.
   */
  predicate CheckUserTask(pid: int, cmdline: Option<seq<char>>)
    ensures CheckUserTask(pid, cmdline) ==> pid != 1 && cmdline.Some? && cmdline.value != []
  {
    pid != 1 && cmdline.Some? && Take(cmdline.value, 1023) != [] &&
    !Contains(UpToNul(Take(cmdline.value, 1023)), "ia_watchdogd")
  }

  /**
   * A program name that has "ia_watchdogd" within the 1023 bytes read,
   * whatever comes before it in the name and whatever follows, is never a
   * user task.
   */
  lemma {:induction false} WatchdogNeverUserTask(pid: int, p: string, rest: seq<char>)
    requires NoNul(p) && |p| + 12 <= 1023
    ensures !CheckUserTask(pid, Some(p + "ia_watchdogd" + rest))
  {
    var c := p + "ia_watchdogd" + rest;
    var n := |p| + 12;
    var t := Take(c, 1023);
    var r := UpToNul(t);
    assert t[..n] == c[..n] == p + "ia_watchdogd";
    assert forall k :: 0 <= k < n ==> t[k] != NUL by {
      forall k | 0 <= k < n
        ensures t[k] != NUL
      {
        assert t[k] == (p + "ia_watchdogd")[k];
        if k >= |p| {
          assert (p + "ia_watchdogd")[k] == "ia_watchdogd"[k - |p|];
        }
      }
    }
    assert |r| >= n;
    assert r[..n] == t[..n];
    assert r[|p|..n] == "ia_watchdogd";
    assert SubAt(r, "ia_watchdogd", |p|);
  }

  /**
   * Only the program name is searched: a command line whose name is
   * non-empty and has no "ia_watchdogd" is a user task for every pid but
   * init, whatever its arguments after the first NUL hold.
   */
  lemma {:induction false} ArgumentsNotSearched(pid: int, p: string, rest: seq<char>)
    requires p != [] && NoNul(p) && |p| < 1023 && !Contains(p, "ia_watchdogd")
    ensures CheckUserTask(pid, Some(p + [NUL] + rest)) <==> pid != 1
  {
    var c := p + [NUL] + rest;
    var t := Take(c, 1023);
    assert t[..|p| + 1] == c[..|p| + 1] == p + [NUL];
    assert t[|p|] == NUL;
    assert forall k :: 0 <= k < |p| ==> t[k] == p[k];
    var r := UpToNul(t);
    assert r == p;
  }

  /** Neither init, a process without a command line (a kernel thread) nor the watchdog daemon is a user task. */
  lemma UserTaskExclusions(pid: int, cmdline: Option<seq<char>>)
    ensures pid == 1 ==> !CheckUserTask(pid, cmdline)
    ensures cmdline.None? || cmdline == Some([]) ==> !CheckUserTask(pid, cmdline)
    ensures cmdline.Some? && StartsWith(cmdline.value, "/system/bin/ia_watchdogd") ==> !CheckUserTask(pid, cmdline)
  {
    if cmdline.Some? && StartsWith(cmdline.value, "/system/bin/ia_watchdogd") {
      var c := cmdline.value;
      assert c == "/system/bin/" + "ia_watchdogd" + c[24..];
      WatchdogNeverUserTask(pid, "/system/bin/", c[24..]);
    }
  }

  /** The pids that are still running, in the order given. */
  function Running(pids: seq<int>, alive: set<int>): (r: seq<int>)
    ensures |r| <= |pids|
  {
    if pids == [] then []
    else if pids[|pids| - 1] in alive then Running(pids[..|pids| - 1], alive) + [pids[|pids| - 1]]
    else Running(pids[..|pids| - 1], alive)
  }

  /** a is b with some elements left out, the rest in their order (matched from the end). */
  predicate Subsequence(a: seq<int>, b: seq<int>)
    decreases |b|
  {
    if b == [] then a == []
    else if a != [] && a[|a| - 1] == b[|b| - 1] then Subsequence(a[..|a| - 1], b[..|b| - 1])
    else Subsequence(a, b[..|b| - 1])
  }

  /** Leaving the last element of a out keeps it a subsequence of b. */
  lemma {:induction false} SubsequenceDropLast(a: seq<int>, b: seq<int>)
    requires a != [] && Subsequence(a, b)
    ensures Subsequence(a[..|a| - 1], b)
    decreases |b|
  {
    var a' := a[..|a| - 1];
    var b' := b[..|b| - 1];
    if a[|a| - 1] != b[|b| - 1] {
      SubsequenceDropLast(a, b');
    }
    if a' != [] && a'[|a'| - 1] == b[|b| - 1] {
      SubsequenceDropLast(a', b');
    }
  }

  /** The running pids are an in-order subsequence of those checked, each one alive. */
  lemma {:induction false} RunningSubsequence(pids: seq<int>, alive: set<int>)
    ensures Subsequence(Running(pids, alive), pids)
    ensures forall p :: p in Running(pids, alive) ==> p in pids && p in alive
    decreases |pids|
  {
    if pids != [] {
      var init := pids[..|pids| - 1];
      var x := pids[|pids| - 1];
      RunningSubsequence(init, alive);
      var r := Running(init, alive);
      if x in alive {
        assert (r + [x])[..|r|] == r;
      } else if r != [] && r[|r| - 1] == x {
        SubsequenceDropLast(r, init);
      }
      forall p | p in Running(pids, alive)
        ensures p in pids && p in alive
      {
        if p in r {
          assert p in init;
        }
      }
    }
  }

  /**
   * check_process_running: the pids of pid_array[..pid_count] that are
   * still running go to the front of pid_running, in order; alive stands
   * for the pids whose /proc directory opens.
   */
  method CheckProcessRunning(pidArray: array<int>, pidCount: int, pidRunning: array<int>, alive: set<int>)
      returns (running: int)
    requires 0 <= pidCount <= pidArray.Length && pidCount <= pidRunning.Length
    requires pidArray != pidRunning
    modifies pidRunning
    ensures 0 <= running <= pidCount
    ensures pidRunning[..running] == Running(pidArray[..pidCount], alive)
    ensures pidRunning[running..] == old(pidRunning[running..])
  {
    running := 0;
    var i := 0;
    while i < pidCount
      invariant 0 <= i <= pidCount && 0 <= running <= i
      invariant pidRunning[..running] == Running(pidArray[..i], alive)
      invariant pidRunning[running..] == old(pidRunning[running..])
    {
      assert pidArray[..i + 1][..i] == pidArray[..i];
      if pidArray[i] in alive {
        pidRunning[running] := pidArray[i];
        assert pidRunning[..running + 1] == pidRunning[..running] + [pidArray[i]];
        running := running + 1;
      }
      i := i + 1;
    }
    assert pidArray[..pidCount] == pidArray[..i];
  }

  // ---------------------------------------------------------------------
  // kill_user_space_tasks, remount_ro, really_reboot, android_reboot

  const MAX_PIDS: nat := 2048
  const MAX_REMOUNT_POLLS: nat := 50
  const MAX_WAIT_SECONDS: nat := 5

  /** What the reboot path does to other processes and the kernel, in order. */
  datatype Action = Kill(pid: int, sig: int) | Sync | SysrqRemount | Sleep(micros: int)

  /** The /proc/<pid>/cmdline contents of a pid, none when it cannot be read. */
  function CmdlineOf(cmdlines: map<int, seq<char>>, pid: int): Option<seq<char>>
  {
    if pid in cmdlines then Some(cmdlines[pid]) else None
  }

  /** A /proc entry names a process when it starts with a digit; atoi gives the pid. */
  predicate UserTaskEntry(e: string, cmdlines: map<int, seq<char>>)
  {
    e != [] && IsDigit(e[0]) && CheckUserTask(Atoi(e), CmdlineOf(cmdlines, Atoi(e)))
  }

  /** The pids of the user tasks among the /proc entries, in directory order. */
  function UserTasks(entries: seq<string>, cmdlines: map<int, seq<char>>): (pids: seq<int>)
    ensures |pids| <= |entries|
  {
    if entries == [] then []
    else
      var e := entries[|entries| - 1];
      var rest := UserTasks(entries[..|entries| - 1], cmdlines);
      if UserTaskEntry(e, cmdlines) then rest + [Atoi(e)] else rest
  }

  /**
   * The pids kill_user_space_tasks signals. Its counter wraps modulo 2048,
   * so of more than 2048 user tasks only the last |tasks| % 2048 found are
   * signalled.
   */
  function Signalled(tasks: seq<int>): (r: seq<int>)
    ensures |r| == |tasks| % MAX_PIDS && r == tasks[|tasks| - |r|..]
  {
    tasks[|tasks| - |tasks| % MAX_PIDS..]
  }

  /** With fewer than 2048 user tasks every one is signalled. */
  lemma SignalledAll(tasks: seq<int>)
    requires |tasks| < MAX_PIDS
    ensures Signalled(tasks) == tasks
  {
  }

  /** Exactly 2048 user tasks make the counter wrap to 0: none is signalled. */
  lemma SignalledWrap(tasks: seq<int>)
    requires |tasks| == MAX_PIDS
    ensures Signalled(tasks) == []
  {
  }

  /** The four signals each pid is sent, in order. */
  function KillsOf(pids: seq<int>): (log: seq<Action>)
    ensures |log| == 4 * |pids|
  {
    if pids == [] then []
    else
      var p := pids[|pids| - 1];
      KillsOf(pids[..|pids| - 1]) + [Kill(p, SIGUSR1), Kill(p, SIGUSR2), Kill(p, SIGTERM), Kill(p, SIGKILL)]
  }

  /** n sleeps of the given length. */
  function Sleeps(n: nat, micros: int): (log: seq<Action>)
    ensures |log| == n
  {
    seq(n, _ => Sleep(micros))
  }

  /** One more sleep. */
  lemma SleepsStep(n: nat, micros: int)
    ensures Sleeps(n + 1, micros) == Sleeps(n, micros) + [Sleep(micros)]
  {
  }

  /** The number of one-second waits for the signalled processes: at most five, and none once none is running. */
  function WaitRounds(pids: seq<int>, alive: nat -> set<int>, round: nat, running: nat): (r: nat)
    ensures round <= MAX_WAIT_SECONDS ==> round <= r <= MAX_WAIT_SECONDS
    decreases MAX_WAIT_SECONDS - round
  {
    if running > 0 && round < MAX_WAIT_SECONDS
    then WaitRounds(pids, alive, round + 1, |Running(pids, alive(round))|)
    else round
  }

  /** The wait ends after five rounds, or earlier only on a round that found every process gone. */
  lemma {:induction false} WaitRoundsBound(pids: seq<int>, alive: nat -> set<int>, round: nat, running: nat)
    requires round <= MAX_WAIT_SECONDS
    ensures round <= WaitRounds(pids, alive, round, running) <= MAX_WAIT_SECONDS
    ensures WaitRounds(pids, alive, round, running) == round <==> running == 0 || round == MAX_WAIT_SECONDS
    ensures round < WaitRounds(pids, alive, round, running) < MAX_WAIT_SECONDS ==>
      Running(pids, alive(WaitRounds(pids, alive, round, running) - 1)) == []
    decreases MAX_WAIT_SECONDS - round
  {
    if running > 0 && round < MAX_WAIT_SECONDS {
      WaitRoundsBound(pids, alive, round + 1, |Running(pids, alive(round))|);
    }
  }

  /** One more task found: the counter steps modulo 2048, and wrapping to 0 leaves none to signal. */
  lemma SignalledStep(tasks: seq<int>, pid: int)
    ensures |tasks + [pid]| % MAX_PIDS == (|tasks| % MAX_PIDS + 1) % MAX_PIDS
    ensures Signalled(tasks + [pid]) ==
      if |tasks| % MAX_PIDS + 1 < MAX_PIDS then Signalled(tasks) + [pid] else []
  {
    var t := tasks + [pid];
    if |tasks| % MAX_PIDS + 1 < MAX_PIDS {
      assert |t| % MAX_PIDS == |tasks| % MAX_PIDS + 1;
      assert t[|t| - |t| % MAX_PIDS..] == tasks[|tasks| - |tasks| % MAX_PIDS..] + [pid];
    } else {
      assert |t| % MAX_PIDS == 0;
    }
  }

  /** The user tasks among one more entry. */
  lemma UserTasksStep(entries: seq<string>, i: nat, cmdlines: map<int, seq<char>>)
    requires i < |entries|
    ensures UserTasks(entries[..i + 1], cmdlines) ==
      if UserTaskEntry(entries[i], cmdlines) then UserTasks(entries[..i], cmdlines) + [Atoi(entries[i])]
      else UserTasks(entries[..i], cmdlines)
  {
    assert entries[..i + 1][..i] == entries[..i];
  }

  /** The user-task scan of kill_user_space_tasks: pids[..count] holds the pids it will signal. */
  method CollectUserTasks(entries: seq<string>, cmdlines: map<int, seq<char>>, pids: array<int>) returns (count: int)
    requires pids.Length == MAX_PIDS
    modifies pids
    ensures 0 <= count < MAX_PIDS
    ensures pids[..count] == Signalled(UserTasks(entries, cmdlines))
  {
    count := 0;
    var i := 0;
    ghost var found: seq<int> := [];
    while i < |entries|
      invariant 0 <= i <= |entries|
      invariant found == UserTasks(entries[..i], cmdlines)
      invariant count == |found| % MAX_PIDS
      invariant pids[..count] == Signalled(found)
    {
      count, found := ScanEntry(entries, i, cmdlines, pids, count, found);
      i := i + 1;
    }
    TakeAll(entries);
    assert found == UserTasks(entries, cmdlines);
  }

  /** One /proc entry of the scan: a user task is recorded, anything else is passed over. */
  method ScanEntry(entries: seq<string>, i: nat, cmdlines: map<int, seq<char>>, pids: array<int>,
                   count: int, ghost found: seq<int>) returns (count': int, ghost found': seq<int>)
    requires i < |entries| && pids.Length == MAX_PIDS
    requires found == UserTasks(entries[..i], cmdlines)
    requires count == |found| % MAX_PIDS && pids[..count] == Signalled(found)
    modifies pids
    ensures found' == UserTasks(entries[..i + 1], cmdlines)
    ensures count' == |found'| % MAX_PIDS && pids[..count'] == Signalled(found')
  {
    UserTasksStep(entries, i, cmdlines);
    count', found' := count, found;
    if UserTaskEntry(entries[i], cmdlines) {
      var pid := Atoi(entries[i]);
      count' := Record(pids, count, found, pid);
      found' := found + [pid];
    }
  }

  /** pids[count] := pid; count = (count + 1) % 2048, for the found tasks extended by pid. */
  method Record(pids: array<int>, count: int, ghost found: seq<int>, pid: int) returns (count': int)
    requires pids.Length == MAX_PIDS
    requires count == |found| % MAX_PIDS && pids[..count] == Signalled(found)
    modifies pids
    ensures count' == |found + [pid]| % MAX_PIDS && pids[..count'] == Signalled(found + [pid])
  {
    SignalledStep(found, pid);
    pids[count] := pid;
    assert pids[..count + 1] == pids[..count] + [pid];
    count' := (count + 1) % MAX_PIDS;
  }

  /** Sends the four signals to pids[..count] in order. */
  method KillAll(pids: array<int>, count: int) returns (log: seq<Action>)
    requires 0 <= count <= pids.Length
    ensures log == KillsOf(pids[..count])
  {
    log := [];
    var i := 0;
    while i < count
      invariant 0 <= i <= count
      invariant log == KillsOf(pids[..i])
    {
      assert pids[..i + 1][..i] == pids[..i];
      var p := pids[i];
      log := log + [Kill(p, SIGUSR1), Kill(p, SIGUSR2), Kill(p, SIGTERM), Kill(p, SIGKILL)];
      i := i + 1;
    }
  }

  /**
   * kill_user_space_tasks: entries is the listing of /proc (none when it
   * cannot be opened); alive(n) is the set of pids still running at the
   * n-th check. The user tasks found are signalled, then waited for.
   */
  method KillUserSpaceTasks(entries: Option<seq<string>>, cmdlines: map<int, seq<char>>, alive: nat -> set<int>)
      returns (log: seq<Action>)
    ensures entries.None? ==> log == []
    ensures entries.Some? ==>
      var victims := Signalled(UserTasks(entries.value, cmdlines));
      log == KillsOf(victims) + Sleeps(WaitRounds(victims, alive, 0, |victims|), 1000000)
  {
    if entries.None? {
      return [];
    }
    var pids := new int[MAX_PIDS];
    var pidRunning := new int[MAX_PIDS];
    var count := CollectUserTasks(entries.value, cmdlines, pids);
    ghost var victims := pids[..count];
    log := KillAll(pids, count);
    ghost var kills := log;
    var running := count;
    var sleepCount := 0;
    while running > 0 && sleepCount < MAX_WAIT_SECONDS
      invariant 0 <= sleepCount <= MAX_WAIT_SECONDS && 0 <= running
      invariant pids[..count] == victims
      invariant WaitRounds(victims, alive, 0, |victims|) == WaitRounds(victims, alive, sleepCount, running)
      invariant log == kills + Sleeps(sleepCount, 1000000)
      decreases MAX_WAIT_SECONDS - sleepCount
    {
      running := CheckProcessRunning(pids, count, pidRunning, alive(sleepCount));
      SleepsStep(sleepCount, 1000000);
      sleepCount := sleepCount + 1;
      log := log + [Sleep(1000000)];
    }
  }

  /** How many times remount_ro sleeps: done(n) is the n-th answer of remount_ro_done; at most 50 polls. */
  function Polls(done: nat -> bool, cnt: nat): (n: nat)
    ensures cnt <= MAX_REMOUNT_POLLS ==> cnt <= n <= MAX_REMOUNT_POLLS
    decreases MAX_REMOUNT_POLLS - cnt
  {
    if !done(cnt) && cnt < MAX_REMOUNT_POLLS then Polls(done, cnt + 1) else cnt
  }

  /** The poll stops at the first answer that says done, and after 50 sleeps at the latest. */
  lemma {:induction false} PollsBound(done: nat -> bool, cnt: nat)
    requires cnt <= MAX_REMOUNT_POLLS
    ensures cnt <= Polls(done, cnt) <= MAX_REMOUNT_POLLS
    ensures forall j :: cnt <= j < Polls(done, cnt) ==> !done(j)
    ensures Polls(done, cnt) < MAX_REMOUNT_POLLS ==> done(Polls(done, cnt))
    decreases MAX_REMOUNT_POLLS - cnt
  {
    if !done(cnt) && cnt < MAX_REMOUNT_POLLS {
      PollsBound(done, cnt + 1);
    }
  }

  /** remount_ro's effects: the emergency read-only remount, then 100 ms sleeps until it is done. */
  function RemountRoLog(sysrqOpens: bool, done: nat -> bool): (log: seq<Action>)
    ensures log != [] <==> sysrqOpens
    ensures log != [] ==> log[0] == SysrqRemount && |log| <= 1 + MAX_REMOUNT_POLLS
    ensures forall k :: 1 <= k < |log| ==> log[k] == Sleep(100000)
  {
    if sysrqOpens then [SysrqRemount] + Sleeps(Polls(done, 0), 100000) else []
  }

  /** remount_ro: sysrqOpens says whether /proc/sysrq-trigger opens. */
  method RemountRo(sysrqOpens: bool, done: nat -> bool) returns (log: seq<Action>)
    ensures log == RemountRoLog(sysrqOpens, done)
  {
    if !sysrqOpens {
      return [];
    }
    log := [SysrqRemount];
    var cnt := 0;
    while !done(cnt) && cnt < MAX_REMOUNT_POLLS
      invariant 0 <= cnt <= MAX_REMOUNT_POLLS
      invariant Polls(done, 0) == Polls(done, cnt)
      invariant log == [SysrqRemount] + Sleeps(cnt, 100000)
      decreases MAX_REMOUNT_POLLS - cnt
    {
      SleepsStep(cnt, 100000);
      log := log + [Sleep(100000)];
      cnt := cnt + 1;
    }
  }

  /** The reboot system calls really_reboot makes. */
  datatype RebootCall = Autoboot | PowerOff | Restart2(arg: Option<string>)

  /** really_reboot: the call for one of the three commands, with what it returns; -1 and no call for any other command. */
  function ReallyReboot(cmd: int, arg: Option<string>, sysRet: int): (r: (Option<RebootCall>, int))
    ensures r.0.None? <==> cmd != ANDROID_RB_RESTART && cmd != ANDROID_RB_POWEROFF && cmd != ANDROID_RB_RESTART2
    ensures r.1 == if r.0.None? then -1 else sysRet
    ensures r.0 == Some(Restart2(arg)) <==> cmd == ANDROID_RB_RESTART2
  {
    if cmd == ANDROID_RB_RESTART then (Some(Autoboot), sysRet)
    else if cmd == ANDROID_RB_POWEROFF then (Some(PowerOff), sysRet)
    else if cmd == ANDROID_RB_RESTART2 then (Some(Restart2(arg)), sysRet)
    else (None, -1)
  }

  /** A flag bit of the reboot request, as C's & on a two's-complement int tests it. */
  predicate FlagSet(flags: int, bit: int)
    requires bit == ANDROID_RB_FLAG_NO_SYNC || bit == ANDROID_RB_FLAG_NO_REMOUNT_RO
  {
    (flags / bit) % 2 == 1
  }

  /**
   * android_reboot: tell init a reboot is coming, sync and remount
   * read-only unless the flags say not to, then send init the signal for
   * the command.
   */
  function AndroidRebootLog(cmd: int, flags: int, arg: Option<string>, sysrqOpens: bool, done: nat -> bool): (log: seq<Action>)
    ensures 2 <= |log| <= 4 + MAX_REMOUNT_POLLS
    ensures forall k :: 0 <= k < |log| && log[k].Kill? ==> log[k].pid == 1
  {
    [Kill(1, SIGUSR1)]
    + (if FlagSet(flags, ANDROID_RB_FLAG_NO_SYNC) then [] else [Sync])
    + (if FlagSet(flags, ANDROID_RB_FLAG_NO_REMOUNT_RO) then [] else RemountRoLog(sysrqOpens, done))
    + [Kill(1, WriteSig(cmd, arg))]
  }

  /** Init is always told first and signalled last, with the signal write_sig gives; sync happens exactly without NO_SYNC. */
  lemma AndroidRebootOrder(cmd: int, flags: int, arg: Option<string>, sysrqOpens: bool, done: nat -> bool)
    ensures var log := AndroidRebootLog(cmd, flags, arg, sysrqOpens, done);
      |log| >= 2 && log[0] == Kill(1, SIGUSR1) && log[|log| - 1] == Kill(1, WriteSig(cmd, arg)) &&
      (Sync in log <==> !FlagSet(flags, ANDROID_RB_FLAG_NO_SYNC)) &&
      (SysrqRemount in log <==> !FlagSet(flags, ANDROID_RB_FLAG_NO_REMOUNT_RO) && sysrqOpens)
  {
    var log := AndroidRebootLog(cmd, flags, arg, sysrqOpens, done);
    var sync := if FlagSet(flags, ANDROID_RB_FLAG_NO_SYNC) then [] else [Sync];
    var remount := if FlagSet(flags, ANDROID_RB_FLAG_NO_REMOUNT_RO) then [] else RemountRoLog(sysrqOpens, done);
    assert log == [Kill(1, SIGUSR1)] + sync + remount + [Kill(1, WriteSig(cmd, arg))];
    assert Sync !in remount && SysrqRemount !in sync;
    if sysrqOpens && !FlagSet(flags, ANDROID_RB_FLAG_NO_REMOUNT_RO) {
      assert remount[0] == SysrqRemount;
    }
  }
}
