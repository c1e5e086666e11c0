# Android system core (baytrail, KitKat): a Dafny model

This project models the string, record and state handling at the core of an
Android system-core tree, and proves properties of that model. It is written
in Dafny 4.11. Each C source file becomes one module:

- `devices.dfy` (`Devices`): ueventd's device manager, `init/devices.c`. It decodes uevents, keeps the permission rule tables, the platform-bus registry, the module-argument table and the deferred module-loading queue, and turns an event into nodes and links under `/dev`.
- `uevent.dfy` (`UeventWire`): the NUL-separated `KEY=VALUE` datagram. ueventd and the charger receive it the same way.
- `charger.dfy` (`Charger`): the off-mode charger daemon, `charger/charger.c`. It keeps a power-supply list with an online count, selects battery-animation frames, debounces the power key and runs the timers that decide reboot and power-off.
- `probe_module.dfy` (`ProbeModule`): loading and unloading a module with its `modules.dep` dependencies, `libcutils/probe_module.c`. Includes the blacklist screening and the error-code ladder of `insmod_by_dep`.
- `module_parsers.dfy` (`ModuleParsers`): the in-place tokenizer and line rules for `modules.alias` and `modules.blacklist`, `libcutils/module_parsers.c`.
- `autodetect.dfy` (`Autodetect`): EDID helpers, density snapping and the DMI property sanitisers of `init/autodetect.c`. The sanitisers follow section 3.2.2 of the Android Compatibility Definition Document 4.4.
- `roots.dfy` (`Roots`): the recovery volume table, `libvolumeutils/roots.c`.
- `efivars.dfy` (`EfiVars`): EFI variables, `init/efivars.c`. Covers:
  - the GUID byte packing of the UEFI Specification, Appendix A;
  - the GUID text form of RFC 4122, section 3;
  - UCS-2 string conversion;
  - the record that `set_efi_variable` writes.
- `android_reboot.dfy` (`AndroidReboot`): the reboot signal table and the user-task bookkeeping, `libcutils/android_reboot.c`.
- `protocol.dfy` (`Protocol`): the fastboot host protocol, `fastboot/protocol.c`. Covers the reply loop, command sequencing and the 512-byte sparse staging buffer.
- `tcp_windows.dfy` (`TcpWindows`): the 128-slot Win32 descriptor table, `fastboot/tcp_windows.c`.
- `cstrings.dfy` (`CStrings`): the C library string behaviour the modules share. That is `strncmp`, `strstr`/`strcasestr`, `strtok`, `fgets`, `atoi`/`strtoul`, `printf` number formatting, and a simplified `fnmatch`.

## Modelling conventions

- Code that mutates state is modelled as a class. This covers the rule lists, registries, supply list, key array, volume array, cached properties, staging buffer and slot table. Each method is proved against a specification function of the old state.
- Code that rewrites buffers in place works on an `array<char>` or `array<Byte>`. This covers `next_token`, `CDD_clean_string`, `CDD_clean_serialno` and the record build.
- Effects on the operating system go into an ordered log of datatype values. Examples: mknod, chown, symlinks, mkdir, module probing, init_module/delete_module, kill, sync, transport writes and EFI writes.
- Everything read from outside is a parameter:
  - file contents, sysfs and DMI files;
  - the clock `now`;
  - what the transport returns;
  - which mounts and discards succeed.
- C integers are unbounded unless their width matters. Where it does, the width is written out:
  - 8-bit checksums;
  - the 32-bit result of `strtoul`;
  - the int returned by `check_response`;
  - the modulo-2048 pid index.
- `char` is taken to be signed and memory little-endian, as on x86.

Some behaviour of the code is kept as written, because the model must do what the source does:

- The charger never decrements the online count when a supply is removed (`Charger.RemoveKeepsOnlineCount`).
- When adding a supply, the charger tests the type for the prefix `Battery`. The recount tests for equality.
- A missing battery reads as capacity -1, and -1 counts as a valid battery.
- In `is_dep_in_blacklist`, a dependency entry that is not a `.ko` file gives `MOD_IN_CALLER_BLACK` even without a caller blacklist (`ProbeModule.NonKoIsCallerBlack`).
- `push_resolution` compares against a `current_rank` that never changes, so a later mode wins over a better-ranked earlier one (`Autodetect.PushLaterWins`).
- Alias lines with three or more words are accepted.
- The alias resolution at `libcutils/probe_module.c:500` and `init/devices.c:235` passes a `char**` where a list head is expected. It is kept abstract, as a function parameter.

The doc comments of `include/cutils/probe_module.h` (lines 46, 60 and 96) give `/system/lib/modules/modules.dep` as the default dependency file. `libcutils/probe_module.c:32` uses `/lib/modules/modules.dep`, and the model follows the code.

## Model

| member | source | states |
|---|---|---|
| CStrings.StrEnd | init/devices.c:425-426 | the next NUL at or after the start: every character before it is non-NUL |
| CStrings.ScanToNul | charger/charger.c:498-499 | the byte-by-byte scan stops at that NUL |
| CStrings.CStr | init/devices.c:391 | the C string at an offset is the NUL-free run up to the next NUL |
| CStrings.Take | charger/charger.c:424-425 | strlcpy into n+1 bytes keeps a prefix of at most n characters, the whole string when it fits and exactly n characters when it does not |
| CStrings.TakeConcat | init/devices.c:149-152 | cutting, appending and cutting again is cutting once, as repeated strlcat into one buffer does |
| CStrings.FindSub | init/autodetect.c:47-54 | strstr finds the first occurrence, and none exactly when the pattern does not occur |
| CStrings.LowerStr | init/autodetect.c:476-478 | tolower maps each letter A-Z to lower case and leaves every other character alone, position by position |
| CStrings.LastIndexOf | init/devices.c:590 | strrchr finds the last occurrence, or none when the character does not occur |
| CStrings.IndexOf | init/devices.c:454 | strchr finds the first occurrence, or none |
| CStrings.Tokens | libvolumeutils/roots.c:100-104 | strtok's tokens are non-empty and hold no delimiter |
| CStrings.TokensNoNul | libvolumeutils/roots.c:100-104 | tokens of a NUL-free line are NUL-free |
| CStrings.Fgets | libvolumeutils/roots.c:95 | fgets fails exactly at end of file, and otherwise reads a non-empty prefix of the rest of at most size-1 characters |
| CStrings.SkipSpaces | libvolumeutils/roots.c:96 | skipping white space leaves a suffix that is empty or starts with a non-space |
| CStrings.LeadingDigits | charger/charger.c:538 | atoi reads the longest run of leading digits |
| CStrings.DecValueOfNatToDec | init/devices.c:665-667 | printing a number in decimal and reading it back gives the number |
| CStrings.AtoiOfNatToDec | charger/charger.c:591 | atoi of a printed number followed by a non-digit gives the number |
| CStrings.PadDecValue | init/devices.c:665-667 | %0*d printing reads back as the same number and is at least as wide as asked |
| CStrings.HexFixedValue | fastboot/protocol.c:212 | %08x printing of a number below 16^8 reads back as the number |
| CStrings.HexToNatOfHexFixed | fastboot/protocol.c:92 | strtoul base 16 of an %08x-printed number gives the number back |
| CStrings.HexToNatPlus | fastboot/protocol.c:92 | strtoul reads one sign after the white space: either sign leaves the magnitude of the digits after it unchanged, and only a minus counts as a minus |
| CStrings.GlobLiteral | init/devices.c:207-213 | fnmatch with a pattern free of wildcards matches exactly the equal string |
| CStrings.GlobStarSuffix | init/devices.c:207-209 | a literal pattern followed by * matches every string extending it |
| CStrings.StarMatchesAll | init/devices.c:207-209 | the pattern * matches every string |
| AndroidReboot.WriteSig | libcutils/android_reboot.c:218-237 | the signal sent is the default for the command or the signal of a row standing for the command and argument |
| AndroidReboot.WriteSigFrom | libcutils/android_reboot.c:221-232 | the scan from a row on gives the default or the signal of a matching row at or after it |
| AndroidReboot.WriteSigFromFirst | libcutils/android_reboot.c:218-237 | the scan of signal_array from row i returns the signal of the first matching row at or after i, and the fallback signal when no row from i on matches |
| AndroidReboot.WriteSigFirstMatch | libcutils/android_reboot.c:218-230 | write_sig returns the signal of the first row whose command equals cmd and whose argument is absent or equal |
| AndroidReboot.WriteSigNoMatch | libcutils/android_reboot.c:231-236 | with no matching row: restart gives SIGTERM, power-off SIGUSR2, restart with an argument SIGHUP, any other command SIGUSR2 |
| AndroidReboot.ReadSig | libcutils/android_reboot.c:239-252 | the command and argument are power-off with an empty argument, or those of a row carrying the signal; the argument fits the 64-byte buffer uncut |
| AndroidReboot.ReadSigFrom | libcutils/android_reboot.c:242-251 | the scan from a row on gives power-off or the command and argument of a row at or after it carrying the signal |
| AndroidReboot.ReadSigRow | libcutils/android_reboot.c:239-252 | read_sig of a row's signal returns that row's command and argument (the six signals are distinct) |
| AndroidReboot.SignalRoundTrip | libcutils/android_reboot.c:32-39 | for every row, read_sig(write_sig(cmd, arg)) gives back (cmd, arg) |
| AndroidReboot.CheckUserTask | libcutils/android_reboot.c:117-141 | a user task is never init and always has a readable, non-empty command line |
| AndroidReboot.UserTaskExclusions | libcutils/android_reboot.c:117-141 | pid 1, a process whose cmdline is missing or empty, and a command line starting with /system/bin/ia_watchdogd are never user tasks |
| AndroidReboot.WatchdogNeverUserTask | libcutils/android_reboot.c:130-140 | a program name holding "ia_watchdogd" within the 1023 bytes read, after any NUL-free text and before anything, is never a user task |
| AndroidReboot.ArgumentsNotSearched | libcutils/android_reboot.c:130-140 | only the program name up to the first NUL is searched: a non-empty name without "ia_watchdogd" makes a user task of every pid but 1, whatever the arguments hold |
| AndroidReboot.Running | libcutils/android_reboot.c:143-160 | the running pids are no more than the pids checked |
| AndroidReboot.RunningSubsequence | libcutils/android_reboot.c:143-160 | the running pids are an in-order subsequence of pid_array, each of them alive |
| AndroidReboot.CheckProcessRunning | libcutils/android_reboot.c:143-160 | returns running <= pid_count; pid_running[..running] holds the alive pids in order and the rest of pid_running is unchanged |
| AndroidReboot.UserTasks | libcutils/android_reboot.c:185-192 | the user tasks found are at most one per /proc entry |
| AndroidReboot.Signalled | libcutils/android_reboot.c:188-190 | with pidcount wrapping modulo 2048, the pids signalled are the last (number found mod 2048) user tasks found |
| AndroidReboot.SignalledAll | libcutils/android_reboot.c:188-190 | fewer than 2048 user tasks are all signalled |
| AndroidReboot.SignalledWrap | libcutils/android_reboot.c:188-190 | exactly 2048 user tasks wrap the counter to 0 and none is signalled |
| AndroidReboot.SignalledStep | libcutils/android_reboot.c:188-190 | one more task steps the counter modulo 2048; a wrap to 0 leaves none to signal |
| AndroidReboot.UserTasksStep | libcutils/android_reboot.c:185-192 | one more /proc entry adds its pid exactly when it is a numeric entry of a user task |
| AndroidReboot.KillsOf | libcutils/android_reboot.c:196-201 | four kills per pid |
| AndroidReboot.Sleeps | libcutils/android_reboot.c:205-209 | n sleeps |
| AndroidReboot.SleepsStep | libcutils/android_reboot.c:205-209 | one more round adds one sleep at the end |
| AndroidReboot.WaitRounds | libcutils/android_reboot.c:204-209 | the number of one-second waits lies between the rounds already waited and five |
| AndroidReboot.WaitRoundsBound | libcutils/android_reboot.c:204-209 | the wait ends after at most five rounds, immediately only when nothing runs or five rounds have passed, and early only after a round that found every process gone |
| AndroidReboot.CollectUserTasks | libcutils/android_reboot.c:182-193 | pids[..pidcount] is exactly the list the wrapping counter leaves of the user tasks, in /proc order, and pidcount < 2048 |
| AndroidReboot.ScanEntry | libcutils/android_reboot.c:185-192 | one directory entry keeps pids[..pidcount] equal to the signalled part of the user tasks found so far |
| AndroidReboot.Record | libcutils/android_reboot.c:189-190 | storing a pid and stepping the counter modulo 2048 keeps pids[..pidcount] equal to the signalled tasks |
| AndroidReboot.KillAll | libcutils/android_reboot.c:196-201 | SIGUSR1, SIGUSR2, SIGTERM and SIGKILL to each of pids[..pidcount], in that order |
| AndroidReboot.KillUserSpaceTasks | libcutils/android_reboot.c:166-216 | nothing when /proc cannot be opened; otherwise the four kills of every signalled user task, then one one-second sleep per wait round |
| AndroidReboot.Polls | libcutils/android_reboot.c:105-113 | remount_ro polls between its start count and 50 times |
| AndroidReboot.PollsBound | libcutils/android_reboot.c:109-112 | the poll of /proc/mounts stops at the first round that reports done, and after 50 sleeps at the latest |
| AndroidReboot.RemountRoLog | libcutils/android_reboot.c:93-115 | remount_ro does something exactly when sysrq-trigger opens: the emergency remount first, then at most 50 sleeps of 100 ms |
| AndroidReboot.RemountRo | libcutils/android_reboot.c:93-115 | the effects of remount_ro: nothing when sysrq-trigger does not open, else the "u" write and the polls |
| AndroidReboot.ReallyReboot | libcutils/android_reboot.c:277-299 | a reboot call exactly for the three commands, RESTART2 passing the argument; the call's result, or -1 and no call for any other command |
| AndroidReboot.AndroidRebootLog | libcutils/android_reboot.c:301-316 | the reboot path takes at least the two signals to init and at most 54 actions, and every signal it sends goes to init |
| AndroidReboot.AndroidRebootOrder | libcutils/android_reboot.c:301-316 | init gets SIGUSR1 first and write_sig's signal last; sync happens exactly without NO_SYNC, the sysrq remount exactly without NO_REMOUNT_RO when sysrq-trigger opens |
| TcpWindows.FirstFree | fastboot/tcp_windows.c:93-98 | the slot the fallback scan finds is free |
| TcpWindows.FirstFreeLowest | fastboot/tcp_windows.c:93-98 | the scan finds the lowest free slot, and none exactly when every slot is in use |
| TcpWindows.HandleTable.constructor | fastboot/tcp_windows.c:46-47 | the static table starts with no slot handed out and every record zeroed |
| TcpWindows.HandleTable.FromInt | fastboot/tcp_windows.c:49-71 | a descriptor maps to a slot exactly when fd - 100 is below the count of slots handed out and that slot is in use |
| TcpWindows.HandleTable.ToInt | fastboot/tcp_windows.c:72-79 | a used slot inside the table maps to its index + 100, anything else to -1 |
| TcpWindows.HandleTable.FromToInt | fastboot/tcp_windows.c:49-79 | a used slot round-trips through its descriptor |
| TcpWindows.HandleTable.ToFromInt | fastboot/tcp_windows.c:49-79 | a valid descriptor round-trips through its slot |
| TcpWindows.HandleTable.Alloc | fastboot/tcp_windows.c:81-106 | while fewer than 128 slots have been handed out, the next one; after that, the lowest free slot or none; the slot gets the class and eof 0 and nothing else changes |
| TcpWindows.HandleTable.Close | fastboot/tcp_windows.c:108-117 | a used slot is cleared, a free one left alone; returns 0 |
| TcpWindows.HandleTable.ClosedNotFound | fastboot/tcp_windows.c:49-79 | a closed slot's descriptor no longer resolves, and the slot maps to -1 |
| UeventWire.Received | charger/charger.c:631-632 | the receive buffer is the datagram followed by two NULs |
| UeventWire.FieldsFrom | charger/charger.c:473-500 | the strings walked are non-empty and NUL-free |
| UeventWire.FieldsFromFirst | init/devices.c:388-427 | a message not starting with NUL starts with the string up to its first NUL, and the parse resumes after that NUL |
| UeventWire.FirstKey | init/devices.c:389-422 | a string is claimed by the first key of the parser's if-chain that prefixes it, and by none when no key prefixes it (the same chain shape as charger/charger.c:477-495) |
| UeventWire.FoldFirst | init/devices.c:388-427 | parsing a message is applying its first string, then parsing the rest |
| UeventWire.FoldSnoc | init/devices.c:388-427 | parsing one more string is applying that string to the result of parsing the earlier ones |
| UeventWire.FieldsOfJoin | init/devices.c:1009-1016 | writing non-empty NUL-free strings each followed by NUL, plus the two appended NULs, and walking them back gives the same strings |
| Devices.LastValueSnoc | init/devices.c:389-422 | a later field with a key overrides every earlier one with the same key, and leaves the other keys alone |
| Devices.EventOfSnoc | init/devices.c:388-427 | the last-value reading of an event grows by one field the way the parser does |
| Devices.DecodeIsLastValue | init/devices.c:375-427 | the parsed event holds, for every key, the value of the last field carrying it, and the defaults (empty strings, -1, no name) for keys never seen |
| Devices.ParseEvent | init/devices.c:373-433 | walking the NUL-separated buffer yields the last-value event of its fields |
| Devices.SysFixups | init/devices.c:164-191 | the fix-ups come in chown/chmod pairs, at most one pair per rule, each on a path that starts with `/sys`, the event path and `/` and fits the 512-byte buffer |
| Devices.SysFixupsConcat | init/devices.c:164-191 | while no matching rule overflows the path buffer, the fix-ups of two rule lists are the fix-ups of each in order |
| Devices.SysFixupsStop | init/devices.c:183-184 | the first matching rule whose path would overflow the 512-byte buffer ends the walk: only the rules before it take effect |
| Devices.DevicePerm | init/devices.c:193-222 | the last matching device rule decides mode and owner (so later files override earlier ones); with no match, 0600 owned by root |
| Devices.ShortName | init/devices.c:290-296 | the platform name is the path with "/devices/platform/" stripped, else with "/devices/" stripped, else the whole path |
| Devices.FindPlatform | init/devices.c:321-336 | the most recently registered node that is a proper parent directory of the path, or none when no node is |
| Devices.LastExact | init/devices.c:343-352 | the most recently registered node with exactly this path, or none |
| Devices.Registered | init/devices.c:285-314 | registering keeps every node already there and adds at most one, for the path itself and named by a tail of it |
| Devices.Unregistered | init/devices.c:338-353 | unregistering removes at most one node and adds none |
| Devices.SubdeviceNotRegistered | init/devices.c:298-305 | a path below a registered platform device is ignored and the registry is unchanged |
| Devices.RegisterThenUnregister | init/devices.c:285-353 | registering a new top-level platform device grows the registry by one, and removing it again restores the registry |
| Devices.RegisteredIsFound | init/devices.c:285-336 | after registering a platform device, every path below it is found under the new node |
| Devices.DeviceName | init/devices.c:581-600 | no name exactly when major or minor is negative, the path has no slash, or the last component is longer than 64; otherwise the slash-free last component |
| Devices.Basename | init/devices.c:534-535 | the device name of a link is a tail of the path with no `/` in it |
| Devices.BlockLinks | init/devices.c:488-541 | a block device gets no links exactly when it sits under no registered platform device, and at most three links otherwise |
| Devices.BlockLinksShape | init/devices.c:488-541 | a platform block device gets a by-name link when it has a partition name, a by-num link when it has a partition number, and always a last link named after the path's last component, all under /dev/block/platform/<name> |
| Devices.NextSlash | init/devices.c:460-465 | the scan stops at the next slash after the start, or at the end of the string |
| Devices.CharLinks | init/devices.c:435-486 | a character device gets at most one link, only below a registered platform device, and that link starts with /dev/usb/<subsystem> |
| Devices.BaseDir | init/devices.c:673-703 | every non-usb node lands in a directory under /dev/ and keeps its name, except that a misc device log_X (no earlier prefix matching) goes to /dev/log/X |
| Devices.UsbBusNumbering | init/devices.c:655-668 | a usb device without a kernel name goes to /dev/bus/usb/BBB/DDD with three-digit bus and device numbers, device in 1..128, from which the minor is recovered |
| Devices.UsbBusDigits | init/devices.c:660-667 | the three-digit bus and device strings decode back to the minor split into groups of 128 |
| Devices.OtherUsbIgnored | init/devices.c:669-672 | events of subsystems starting with usb other than usb itself make no node |
| Devices.MiscLogDevice | init/devices.c:697-701 | misc devices whose name starts with log_ get /dev/log/ with the prefix dropped |
| Devices.DefaultDevDirectory | init/devices.c:702-707 | a subsystem matching none of the listed prefixes gets its node directly under /dev/ |
| Devices.DirsUpTo | init/devices.c:641-653 | at most one directory is made per character of the path |
| Devices.DirsUpToPrefixes | init/devices.c:641-653 | each directory made is a proper prefix of the device path, at least four characters long, at which the path continues with a slash |
| Devices.CharNodeOf | init/devices.c:623-711 | a character event is ignored exactly for a subsystem that starts with usb without being usb; any node goes under `/dev/` and fits the 96-byte path buffer |
| Devices.LinkEffects | init/devices.c:550-560 | one link action per link |
| Devices.LinkEffectsInOrder | init/devices.c:550-560 | link actions follow the array order, make on add and remove on remove |
| Devices.DeviceEffects | init/devices.c:543-569 | an add makes four node actions and one action per link; a remove takes one action per link and then unlinks the node; any other action does nothing |
| Devices.DeviceEffectsOrder | init/devices.c:543-569 | on add the node is made before its links, links in order; on remove every link is removed before the node is unlinked; any other action touches nothing |
| Devices.MakeDeviceEffects | init/devices.c:251-283 | make_device switches the egid to the rule group, makes the node, changes its owner, and switches the egid back to root |
| Devices.MakeDeviceMode | init/devices.c:251-283 | a block node is created with S_IFBLK and the permission bits of the last matching rule |
| Devices.RetryCodes | init/devices.c:729-733 | a load is retried later exactly when its result has the bad-dependency, bad-alias or invalid-caller-blacklist bit, -1 included |
| Devices.LookupModArgs | init/devices.c:238-248 | the arguments of the first entry with the module's name, or the empty string |
| Devices.JoinArgs | init/devices.c:149-152 | the joined arguments end in a space and hold at least one character per argument |
| Devices.Retained | init/devices.c:720-735 | the retry pass never grows the queue |
| Devices.RetainedMembers | init/devices.c:720-735 | a module stays queued exactly when it was queued and its retried load asks to be kept |
| Devices.RetryProbes | init/devices.c:720-735 | every queued module is probed once |
| Devices.RetryProbesInOrder | init/devices.c:720-735 | the queued modules are probed in queue order, each with its looked-up arguments |
| Devices.QueueStep | init/devices.c:720-735 | one step of the retry pass probes one more module and keeps it or drops it by its result |
| Devices.DeviceManager.constructor | init/devices.c:98-103 | every list starts empty |
| Devices.DeviceManager.AddDevPerms | init/devices.c:105-133 | a rule with an attribute is appended to the sysfs list, one without to the device list, the other list unchanged; returns 0 |
| Devices.DeviceManager.AddModArgs | init/devices.c:135-162 | appends the module with its arguments after the first, each followed by a space, cut to the 1024-byte buffer; returns 0 |
| Devices.DeviceManager.FixupSysPerms | init/devices.c:164-191 | logs the chown/chmod pairs of the matching sysfs rules, stopping at the first that would overflow |
| Devices.DeviceManager.AddPlatformDevice | init/devices.c:285-314 | the registry becomes the registration of the path |
| Devices.DeviceManager.RemovePlatformDevice | init/devices.c:338-353 | removes the most recent node with exactly this path, if any |
| Devices.DeviceManager.HandleDevice | init/devices.c:543-569 | logs the node and link actions in the order the add and remove branches take |
| Devices.DeviceManager.LogLinks | init/devices.c:550-560 | logs one link action per link in array order |
| Devices.DeviceManager.HandlePlatformDeviceEvent | init/devices.c:571-579 | add registers, remove unregisters, any other action leaves the registry alone |
| Devices.DeviceManager.HandleBlockDeviceEvent | init/devices.c:602-621 | no name: nothing; otherwise /dev/block/ is made and the node /dev/block/<name> (cut to 96 bytes) is handled with the platform links for /devices/ paths |
| Devices.DeviceManager.MakeDirsAlong | init/devices.c:641-653 | makes every directory prefix of the kernel-named device path, shortest first |
| Devices.DeviceManager.HandleGenericDeviceEvent | init/devices.c:623-711 | no name or an ignored usb event: nothing; otherwise the node's directories, /dev/usb when there is a link, then the node and link actions |
| Devices.DeviceManager.HandleDeferredModuleLoading | init/devices.c:713-736 | probes every queued module in order and keeps exactly those whose result asks for a retry |
| Devices.DeviceManager.HandleModuleLoading | init/devices.c:743-770 | no alias: nothing; otherwise the retry pass, then a probe of this alias, which is queued when its result asks for a retry |
| Devices.DeviceManager.HandleDeviceEvent | init/devices.c:772-790 | the rule lists never change; the queue after an add with an alias is the retry pass's kept entries followed by the alias when its probe asks for a retry, and otherwise unchanged; the registry changes only for platform add and remove; the log is the probes of an add with an alias, then the sysfs chown/chmod pairs of an add or change, then the node, link and directory actions of a block or other event |
| Devices.DeviceManager.LoadModulesFor | init/devices.c:774-778 | only an add carrying a modalias loads modules: the queue and the log then change as handle_module_loading specifies, otherwise neither changes |
| Devices.DeviceManager.FixupFor | init/devices.c:780-781 | only add and change events log the sysfs fix-ups of the event's path |
| Devices.DeviceManager.HandleBySubsystem | init/devices.c:783-789 | a block subsystem goes to the block handler, else a platform one to the platform registry, else to the generic handler; the log grows by that handler's actions and only the platform branch changes the registry |
| Devices.ModuleEffectsProbe | init/devices.c:774-778 | the module effects of an event are all probes, and there are some only for an add carrying a modalias |
| Devices.PlatformEventEffects | init/devices.c:772-790 | a platform event makes no node, link or directory: its actions are probes, only for an add with an alias, and chown/chmod fix-ups, only for add and change |
| Devices.DeviceManager.HandleDatagram | init/devices.c:1009-1019 | a datagram of 1024 bytes or more is dropped with no effect; any other is parsed into the last-value event of its fields, and the queue, registry and log change exactly as handling that event specifies |
| Charger.LastValueSnoc | charger/charger.c:477-495 | a later field with a key overrides every earlier one with the same key and leaves the other keys alone |
| Charger.EventOfSnoc | charger/charger.c:473-500 | the last-value reading of an event grows by one field the way the parser does |
| Charger.DecodeIsLastValue | charger/charger.c:465-500 | the parsed event holds, for each of the six keys, the value of the last field carrying it, and the empty string for keys never seen |
| Charger.ParseUevent | charger/charger.c:463-505 | walking the NUL-separated buffer yields the last-value event of its fields |
| Charger.ReadFile | charger/charger.c:297-322 | fails exactly when the file is missing or empty; otherwise a NUL-free prefix of the file of at most sz-1 bytes: the first sz-1 bytes with one trailing newline dropped, cut short only at a NUL |
| Charger.LeadingOct | charger/charger.c:335 | the longest run of octal digits at the start |
| Charger.UnsignedBase0 | charger/charger.c:335 | what strtol with base 0 leaves unread is a proper suffix of its input |
| Charger.SysPath | charger/charger.c:585 | the /sys/class/power_supply path of a supply fits in PATH_MAX |
| Charger.NewSupply | charger/charger.c:424-432 | the name is cut to 255 characters and the type to 31, both prefixes of the given strings; online is taken as given |
| Charger.FirstNamed | charger/charger.c:400-412 | the first supply with the name, or none when no supply has it |
| Charger.LongNameNeverFound | charger/charger.c:408 | a name longer than the 256-byte field is never found, since stored names are cut |
| Charger.Without | charger/charger.c:439-446 | removal keeps the supplies before and after the removed one, in order |
| Charger.Refreshed | charger/charger.c:582-599 | a refresh changes only the online flag, and never that of a supply of type Battery |
| Charger.RefreshAll | charger/charger.c:582-600 | every supply is refreshed, in place |
| Charger.Transition | charger/charger.c:594-598 | the counter moves by +1 on off-to-on, -1 on on-to-off, 0 otherwise |
| Charger.DeltaStep | charger/charger.c:582-600 | one step of the recount loop adds that supply's transition |
| Charger.OnlineCountConcat | charger/charger.c:582-600 | the count of online non-battery supplies adds over concatenation |
| Charger.OnlineCountWithout | charger/charger.c:439-446 | removing a supply lowers the count of online non-battery supplies by that supply's share |
| Charger.DeltaIsCountChange | charger/charger.c:582-600 | the counter change made by the recount equals the change in the number of online non-battery supplies |
| Charger.Recount | charger/charger.c:582-600 | the recount keeps the list length, the supply count and the battery index |
| Charger.PsType | charger/charger.c:518-533 | the type, from the event or read from /sys/<path>/type, is at most 31 characters |
| Charger.Added | charger/charger.c:541-558 | an added supply is appended after the unchanged list with its name and type truncated from the event's, the supply count grows by one and the online count by at most one |
| Charger.Removed | charger/charger.c:562-568 | a removal shortens the list and the supply count by one and keeps the online count; the battery is cleared exactly when there was none or it was the removed supply |
| Charger.OverflowDropped | charger/charger.c:628-629 | a datagram of 1024 bytes or more changes nothing |
| Charger.RecountKeeps | charger/charger.c:582-600 | the recount changes no name, type, list length, supply count or battery, and moves the counter by the change in online supplies |
| Charger.RecountConsistent | charger/charger.c:582-600 | the recount keeps the supply count equal to the list length, the battery index in range, and stored names and types within their buffers |
| Charger.AddedConsistent | charger/charger.c:541-558 | adding a supply keeps that consistency |
| Charger.RemovedConsistent | charger/charger.c:562-568 | removing a supply keeps that consistency, moving the battery index down past the removed one |
| Charger.PsStepConsistent | charger/charger.c:507-605 | every power-supply event keeps the supply state consistent |
| Charger.AddExistingAddsNothing | charger/charger.c:559-561 | adding a supply that already exists only runs the recount |
| Charger.AddNewAppends | charger/charger.c:541-558 | adding a new supply appends it (then refreshed) and counts it |
| Charger.FirstBatteryKept | charger/charger.c:551-553 | once a battery is chosen, later adds never replace it |
| Charger.NewBatteryChosen | charger/charger.c:551-553 | the first added supply whose type starts with Battery becomes the battery |
| Charger.RemoveClearsBattery | charger/charger.c:564-565 | removing the battery forgets it |
| Charger.IgnoredEvents | charger/charger.c:569-577 | a change for an unknown supply, or an action other than add, remove and change, leaves the state unchanged |
| Charger.ChangeKeepsBalance | charger/charger.c:569-600 | a change event keeps the counter equal to the number of online non-battery supplies |
| Charger.RecountBalanced | charger/charger.c:582-600 | the recount keeps that balance |
| Charger.AddedBalanced | charger/charger.c:555-557 | adding keeps the balance when the type is either exactly Battery or does not start with Battery |
| Charger.AddKeepsBalance | charger/charger.c:535-557 | an add event keeps the balance under that same condition on the type |
| Charger.RemoveKeepsOnlineCount | charger/charger.c:562-568 | removing an online charge source leaves the counter one above the number of online supplies |
| Charger.BatteryCapacity | charger/charger.c:347-361 | at most 100, and -1 without a battery |
| Charger.ReadDecimalLine | charger/charger.c:306-313 | a file holding a number and a newline reads back as the number's digits |
| Charger.UnsignedZero | charger/charger.c:335 | strtol reads "0" as 0 with nothing left |
| Charger.UnsignedDecimal | charger/charger.c:335 | strtol reads a digit string without a leading zero as its decimal value, with nothing left |
| Charger.StrtolUnsigned | charger/charger.c:335 | a string starting with a digit has no sign, so strtol gives the unsigned reading |
| Charger.StrtolOfDigits | charger/charger.c:335 | strtol reads "0" or a zero-free-leading digit string as its decimal value |
| Charger.StrtolOfNatToDec | charger/charger.c:335 | strtol reads a printed number back as that number |
| Charger.CapacityReadBack | charger/charger.c:324-361 | a capacity file holding n and a newline, n at most 100, gives capacity n |
| Charger.BatteryValid | charger/charger.c:363-379 | -1, 0 or 1, and -1 without a battery |
| Charger.ReadingsOf | charger/charger.c:347-398 | the capacity is at most 100 and the validity in -1..1; without a battery the readings are capacity -1, validity -1, not charging |
| Charger.BattAnimFrames | charger/charger.c:175-221 | the animation has nine frames |
| Charger.Redraw | charger/charger.c:779-792 | a redraw clears first and flips last |
| Charger.FirstAbove | charger/charger.c:853-856 | the first frame from index 1 whose minimum capacity is above the capacity, or the frame count when none is |
| Charger.NextShown | charger/charger.c:900-902 | the next frame at or after k that is not level-only, skipping only level-only frames, or the frame count |
| Charger.Started | charger/charger.c:844-869 | starting a cycle keeps the animation within its frames and changes neither the running flag, the cycle nor the frame count |
| Charger.Advance | charger/charger.c:891-918 | advancing keeps the animation within its frames |
| Charger.ScreenStepFits | charger/charger.c:806-919 | the screen step keeps the animation within its frames |
| Charger.ScreenIdle | charger/charger.c:813-814 | a stopped animation, or a time before the next transition, changes nothing |
| Charger.ScreenDone | charger/charger.c:816-838 | at the last cycle the animation stops, resets, cancels the next transition and blanks the screen first |
| Charger.ScreenStart | charger/charger.c:844-866 | a cycle starts at the frame below the first frame above the capacity, runs up to the next segment, shows the first frame twice as long, and draws that frame for a valid battery |
| Charger.AdvanceCharging | charger/charger.c:894-910 | while charging the frame moves past level-only frames; past the threshold the cycle ends and the frame goes back to 0 |
| Charger.AdvanceNotCharging | charger/charger.c:911-918 | when not charging the frame goes back to 0 and the cycle ends |
| Charger.ScreenFrameAdvances | charger/charger.c:841-918 | with frames and a known capacity, the next state is the started animation advanced by whether a source is online and charging |
| Charger.ScreenUnknown | charger/charger.c:878-886 | without frames or with an unknown capacity, the cycle ends, the next transition is 2 s away and the unknown picture is drawn |
| Charger.EarlierDeadline | charger/charger.c:961-969 | an unset deadline takes the new one; a set one keeps the earlier of the two |
| Charger.PollTimeout | charger/charger.c:1263-1273 | the wait is never negative, and is THERMAL_POLL_TIME when no deadline is set |
| Charger.PollTimeoutEarliest | charger/charger.c:1263-1273 | with no deadline set the wait is 5 s; otherwise it is the time to the earliest set deadline, never negative |
| Charger.LoopPass | charger/charger.c:1297-1311 | a pass is the power-key check, then the power check, either of which may start the animation, then the screen update, with the wait_next_event timeout taken on the resulting deadlines; the animation still fits the frames |
| Charger.PowerCheck | charger/charger.c:1013-1039 | the device powers off exactly when unplugged, not charging or with an invalid battery and its shutdown deadline has passed; the forced-shutdown mark comes only with that power-off and only for an invalid battery |
| Charger.PowerUnpluggedSchedules | charger/charger.c:1015-1022 | unplugged, not charging or an invalid battery, with no timer yet, schedules the power-off 10 s away, kicks the animation and wakes up |
| Charger.PowerOffOnlyAtDeadline | charger/charger.c:1015-1030 | power-off is requested exactly when the device is unplugged, not charging or invalid, and a scheduled timer has expired |
| Charger.PowerPluggedCancels | charger/charger.c:1031-1038 | a charging source with a valid battery cancels the timer, kicking the animation only if one was set |
| Charger.MissingBatteryNotInvalid | charger/charger.c:368-369 | without a battery is_battery_valid gives -1, which counts as valid, so no battery alone never forces the power-off |
| Charger.KmsgTail | charger/charger.c:262-269 | the last 32 KiB of the file at most, the whole file when smaller, nothing when missing |
| Charger.ChunkLen | charger/charger.c:272-278 | a chunk is 1 to 256 bytes and ends after a newline, or is the full 256 bytes (or the rest) with no newline before its end |
| Charger.KmsgChunksCover | charger/charger.c:271-287 | the chunks written are the tail, in order, each of 1 to 256 bytes |
| Charger.KmsgChunkShape | charger/charger.c:272-282 | each chunk ends at a newline, or is a full or final chunk holding none |
| Charger.DumpLastKmsg | charger/charger.c:252-295 | writes exactly the chunking of the tail of the last kernel log |
| Charger.PowerKeyRestarts | charger/charger.c:976-986 | a reboot is requested exactly when the power key has been down at least 2 s and the capacity reaches the boot minimum |
| Charger.PowerKeyWakesUp | charger/charger.c:987-992 | a power key held less than 2 s sets a key check no later than the reboot deadline or the check already set |
| Charger.Charger.constructor | charger/charger.c:1349-1383 | no supplies; nine frames in three cycles, or none in one cycle when an image failed to load; the first transition is due at once, the other deadlines unset; the screen is blanked; the minimum capacity is taken as given |
| Charger.Charger.FindSupply | charger/charger.c:400-412 | the index of the first supply with the name, or none |
| Charger.Charger.AddSupply | charger/charger.c:414-437 | appends the new supply and counts it, nothing else changes |
| Charger.Charger.RemoveSupply | charger/charger.c:439-446 | removes the supply, lowers the count, keeps the battery pointing at the same supply, nothing else changes |
| Charger.Charger.RefreshSupply | charger/charger.c:583-599 | refreshes one supply and moves the counter by its transition |
| Charger.Charger.RecountOnline | charger/charger.c:582-600 | the supply state becomes the recount of the old one |
| Charger.Charger.SupplyType | charger/charger.c:518-533 | the type the event gives or /sys reads |
| Charger.Charger.AddNew | charger/charger.c:541-558 | the supply state becomes the addition of the event's supply |
| Charger.Charger.RemoveAt | charger/charger.c:562-568 | the supply state becomes the removal of that supply |
| Charger.Charger.ProcessPsUevent | charger/charger.c:507-605 | the supply state becomes the event's step, no timer or animation changes |
| Charger.Charger.ProcessUevent | charger/charger.c:607-611 | only power_supply events change the supply state |
| Charger.Charger.HandleUeventFd | charger/charger.c:614-639 | the datagrams are handled in order, oversized ones dropped |
| Charger.Charger.FindFirstFrame | charger/charger.c:853-856 | the loop finds the first frame above the capacity |
| Charger.Charger.SkipLevelOnly | charger/charger.c:900-902 | the loop skips exactly the level-only frames |
| Charger.Charger.AnimationOver | charger/charger.c:816-838 | the animation-done branch, nothing but the animation, screen deadline and log changes |
| Charger.Charger.AdvanceFrame | charger/charger.c:891-918 | only the animation counters change |
| Charger.Charger.StartPass | charger/charger.c:841-869 | the cycle start and the display time of the frame |
| Charger.Charger.ShowFrame | charger/charger.c:871-918 | the frame branch, nothing but the animation, screen deadline and log changes |
| Charger.Charger.UpdateScreenState | charger/charger.c:806-919 | the screen step on the battery read now, keeping the supplies, the key and power deadlines |
| Charger.Charger.SetKeyCallback | charger/charger.c:921-951 | -1 for codes past KEY_MAX; an unchanged state is ignored; a change records down, pending and, on a press, the time; no other key changes |
| Charger.Charger.UpdateInputState | charger/charger.c:953-959 | only key events reach the key table |
| Charger.Charger.SetNextKeyCheck | charger/charger.c:961-969 | the key deadline becomes the earlier of the current one and timestamp + timeout |
| Charger.Charger.ProcessKey | charger/charger.c:971-1003 | the power key is handled by the power-key check; every key's pending flag is cleared |
| Charger.Charger.HandleInputState | charger/charger.c:1005-1011 | the power-key check, then an expired key deadline is cleared |
| Charger.Charger.PowerSupplyStep | charger/charger.c:1013-1039 | the power check on the given readings |
| Charger.Charger.HandlePowerSupplyState | charger/charger.c:1013-1039 | the power check on the battery read now, keeping the supplies and the other deadlines |
| Charger.Charger.WaitNextEvent | charger/charger.c:1252-1278 | the poll timeout of the three deadlines |
| Charger.Charger.EventLoopPass | charger/charger.c:1297-1311 | one pass keeps the state consistent and the supplies unchanged, clears the pending power key, and leaves exactly the deadlines, animation, log and timeout of LoopPass on the readings taken at its start |
| ProbeModule.BaseStart | libcutils/probe_module.c:53-55 | the scan back from the end stops at or before its start |
| ProbeModule.BaseStartBounds | libcutils/probe_module.c:53-57 | no slash lies between the place found and the end, and a slash lies just before it unless it is the start of the string |
| ProbeModule.BasenameSuffix | libcutils/probe_module.c:47-58 | strip_path gives the slash-free suffix after the last slash, the whole string when there is none |
| ProbeModule.StripPath | libcutils/probe_module.c:47-58 | the backward loop finds that suffix |
| ProbeModule.Underscored | libcutils/probe_module.c:60-67 | the converted name has the same length and no hyphen, and every other character is kept |
| ProbeModule.HyphenToUnderscore | libcutils/probe_module.c:60-67 | the loop replaces every hyphen by an underscore and keeps every other character |
| ProbeModule.UnderscoredIdempotent | libcutils/probe_module.c:60-67 | no hyphen is left, and a second pass changes nothing |
| ProbeModule.MatchName | libcutils/probe_module.c:73-93 | 0 or -1, and 0 exactly when the names agree up to size characters or a shared terminator, hyphen and underscore counting as equal |
| ProbeModule.MatchFromAll | libcutils/probe_module.c:80-90 | with a bound past the second name, the match holds exactly when the names have the same length and agree character by character from i on |
| ProbeModule.NameMatch | libcutils/probe_module.c:73-93 | comparing over the full second name matches exactly the names equal once hyphens are turned into underscores |
| ProbeModule.IsTargetModule | libcutils/probe_module.c:98-139 | 1 exactly when the line has a colon and the base name before it matches target.ko, 0 otherwise |
| ProbeModule.DepList | libcutils/probe_module.c:163-185 | the entries are the non-empty tokens of the line, free of colons and spaces |
| ProbeModule.SetupDepOverflows | libcutils/probe_module.c:168-172 | as written, a line of ten or more entries leaves fewer bytes than its entries and the final NULL need |
| ProbeModule.SetupDepNineFit | libcutils/probe_module.c:151-156 | a line of nine entries still fits the first array |
| ProbeModule.SetupDepAsWritten | libcutils/probe_module.c:147-190 | the entries of the line in order, with dep_num bytes once the array has grown |
| ProbeModule.SetupDep | libcutils/probe_module.c:147-190 | the entries of the line in order, and with the array grown by dep_num pointers every store and the final NULL land inside it |
| ProbeModule.DepNumStep | libcutils/probe_module.c:168-171 | dep_num always stays ahead of the stores, and grows by LDM_INIT_DEP_NUM exactly when the next store would take the last slot |
| ProbeModule.FirstTarget | libcutils/probe_module.c:341-351 | the first line from i on that belongs to the target, or none |
| ProbeModule.DepLines | libcutils/probe_module.c:341 | the lines of the dep file are NUL-free |
| ProbeModule.LookUp | libcutils/probe_module.c:326-354 | a dependency list is found only for a present, non-empty name and a present file, and its entries are non-empty and hold no colon or space |
| ProbeModule.LookUpDep | libcutils/probe_module.c:326-354 | no name, an empty name or no file gives nothing; otherwise the entries of the first line belonging to the module, or nothing |
| ProbeModule.Kernel.constructor | libcutils/probe_module.c:36-37 | the kernel starts with no calls, refusing the given set |
| ProbeModule.Kernel.Insmod | libcutils/probe_module.c:192-218 | logs the load and returns -1 exactly when the kernel refuses it |
| ProbeModule.Kernel.Rmmod | libcutils/probe_module.c:273-276 | logs the unload and returns -1 exactly when the kernel refuses it |
| ProbeModule.FirstRefused | libcutils/probe_module.c:266-267 | the index of the first refused call, every call before it accepted |
| ProbeModule.Attempted | libcutils/probe_module.c:244-268 | the calls made are a prefix of the plan |
| ProbeModule.AttemptedAll | libcutils/probe_module.c:244-268 | with no refusal every call of the plan is made |
| ProbeModule.AttemptedStop | libcutils/probe_module.c:266-267 | the first refused call is the last one made |
| ProbeModule.AcceptedStep | libcutils/probe_module.c:244-268 | an accepted call extends the accepted prefix by one |
| ProbeModule.LoadsFrom | libcutils/probe_module.c:244-268 | one load per entry |
| ProbeModule.LoadPlan | libcutils/probe_module.c:228-271 | insmod_s plans exactly one load per entry of the dependency list; which entry each load is for is stated by TargetLoadedLast |
| ProbeModule.LoadsFromAt | libcutils/probe_module.c:244-263 | loads go in reverse order of the entries |
| ProbeModule.TargetLoadedLast | libcutils/probe_module.c:235-263 | the target, the first entry, is loaded last with the arguments, under the base directory and stripped when asked; every dependency before it is loaded with no arguments |
| ProbeModule.LoadEntry | libcutils/probe_module.c:246-264 | one step loads the planned entry and reports its refusal |
| ProbeModule.InsmodS | libcutils/probe_module.c:228-271 | the plan is followed up to and including the first refused load; 0 when every load was accepted, -1 otherwise |
| ProbeModule.KernelName | libcutils/probe_module.c:289-298 | the name passed to rmmod is the basename without `.ko`, non-empty and hyphen-free |
| ProbeModule.UnloadNames | libcutils/probe_module.c:287-301 | every unload uses the given flags and a name free of hyphens |
| ProbeModule.UnloadsFrom | libcutils/probe_module.c:287-310 | at most one unload per entry |
| ProbeModule.UnloadCalls | libcutils/probe_module.c:288-298 | an entry asks for one unload exactly when its basename is a `.ko` file, and none otherwise |
| ProbeModule.AttemptedAccepted | libcutils/probe_module.c:303-307 | an accepted first call is followed by the rest |
| ProbeModule.AttemptedRefused | libcutils/probe_module.c:303-307 | a refused first call stops the chain |
| ProbeModule.RemovalLog | libcutils/probe_module.c:281-313 | at most one unload per entry |
| ProbeModule.RemovalLogPrefix | libcutils/probe_module.c:281-313 | the unloads made are a prefix of those the entries ask for, and all of them when none is refused |
| ProbeModule.RemovalLogAttempted | libcutils/probe_module.c:281-313 | the removal loop makes the unloads of the .ko entries in order up to the first refused one, and fails exactly when one is refused |
| ProbeModule.RemovalStep | libcutils/probe_module.c:287-308 | a refused removal of entry i ends the plan, and the failure is reported; any other removal is followed by the plan from entry i + 1 |
| ProbeModule.UnloadEntry | libcutils/probe_module.c:288-309 | a .ko entry is unloaded under its stripped, underscored name; any other entry is skipped |
| ProbeModule.RmmodS | libcutils/probe_module.c:281-313 | the log holds that removal sequence, and -1 when it failed |
| ProbeModule.DepBlacklisted | libcutils/probe_module.c:386-424 | -1, 0 or 1 |
| ProbeModule.IsDepInBlacklist | libcutils/probe_module.c:386-424 | the loop computes the blacklist verdict of the chain |
| ProbeModule.CheckEntry | libcutils/probe_module.c:394-419 | -1 for an entry that is not a .ko file, 1 for a blacklisted one, 0 otherwise |
| ProbeModule.DepBlacklistedHit | libcutils/probe_module.c:386-424 | 1 exactly when some entry is blacklisted and every entry before it is a clean .ko file |
| ProbeModule.DepBlacklistedEmpty | libcutils/probe_module.c:397-404 | against an empty list the verdict is -1 when some entry is not a .ko file, 0 otherwise |
| ProbeModule.DepBlacklistedZero | libcutils/probe_module.c:386-424 | 0 exactly when every entry is a clean .ko file |
| ProbeModule.ParseLists | libcutils/probe_module.c:462-489 | a missing alias file gives MOD_BAD_ALIAS, an unreadable caller blacklist MOD_INVALID_CALLER_BLACK; otherwise 0 with the lists read, the base list allowed to be missing |
| ProbeModule.CheckLoad | libcutils/probe_module.c:456-524 | the screening of insmod_by_dep before any load |
| ProbeModule.LoadScreening | libcutils/probe_module.c:456-524 | a screening never rejects with MOD_NO_ERR; it proceeds only with a non-empty name, the alias file, the dependency file and, when named, the caller's blacklist, and with the dependency list looked up for the resolved name |
| ProbeModule.ChainScreening | libcutils/probe_module.c:503-524 | a chain passing both blacklists proceeds unchanged, and the base list rejects only a chain the caller's list passed |
| ProbeModule.InsmodByDep | libcutils/probe_module.c:441-537 | a rejected screening returns its code and loads nothing; an accepted one runs the load chain |
| ProbeModule.RmmodByDep | libcutils/probe_module.c:542-582 | a rejected screening returns its code and unloads nothing; otherwise the removal chain with O_NONBLOCK |
| ProbeModule.RemoveScreening | libcutils/probe_module.c:542-565 | a removal screening never rejects with MOD_NO_ERR and proceeds only with a non-empty name, the dependency file and the list looked up for that name |
| ProbeModule.LoadProceedsClean | libcutils/probe_module.c:456-526 | loading proceeds only with a valid name, the alias file, the caller list when given, the module found in the dep file, and every entry a .ko file on neither list |
| ProbeModule.LoadProceedsWhenClean | libcutils/probe_module.c:456-526 | and under exactly those conditions it does proceed, with that chain |
| ProbeModule.NonKoIsCallerBlack | libcutils/probe_module.c:401-403 | an entry that is not a .ko file makes the caller-list check answer -1, which counts as a hit: MOD_IN_CALLER_BLACK even when the caller gave no list |
| ProbeModule.LoadRejectCodes | libcutils/probe_module.c:456-524 | a rejection carries one of the seven documented codes |
| ProbeModule.RemoveScreensLoadedChain | libcutils/probe_module.c:503-565 | a module whose load screening proceeds (with no alias) is removed along the same chain |
| ModuleParsers.LineEnd | libcutils/module_parsers.c:85 | a comment runs up to the next newline or the end of the data, with neither before |
| ModuleParsers.SkipBlanks | libcutils/module_parsers.c:162 | after a line continuation, exactly the run of spaces and tabs is skipped |
| ModuleParsers.TextFrom | libcutils/module_parsers.c:102-172 | a word always consumes input unless it starts at the end; it ends as text, or as end of data with no pending newline; a NUL-free prefix gives a NUL-free word |
| ModuleParsers.Quoted | libcutils/module_parsers.c:118-132 | the same for the inside of a quoted part; an unterminated quote ends the data |
| ModuleParsers.TextFromQuote | libcutils/module_parsers.c:118-119 | a double quote starts a quoted part |
| ModuleParsers.TextFromEscape | libcutils/module_parsers.c:134-135 | a backslash starts an escape |
| ModuleParsers.QuotedStep | libcutils/module_parsers.c:129-130 | inside quotes every character but NUL and the quote is copied |
| ModuleParsers.QuotedEnd | libcutils/module_parsers.c:122-128 | NUL inside quotes ends the data; the closing quote resumes the word |
| ModuleParsers.Escape | libcutils/module_parsers.c:134-168 | an escape keeps the word going, ends it as text or ends the data, and adds no NUL |
| ModuleParsers.CrLfEndsWord | libcutils/module_parsers.c:151-163 | as written, backslash CR LF counts a line but ends the word at the LF, with the newline token pending |
| ModuleParsers.CrLfContinuationLost | libcutils/module_parsers.c:151-163 | for "a", backslash, CR LF, "b" the first token is the word "a" alone, followed by a newline |
| ModuleParsers.EscapeIntended | libcutils/module_parsers.c:139-163 | the escape the code evidently intends, for the escape letters and for backslash CR LF, stays within the text and yields a word or the end of data |
| ModuleParsers.CrLfContinues | libcutils/module_parsers.c:151-163 | under the intended escape, backslash CR LF continues the word after the next line's leading blanks, counting one line |
| ModuleParsers.CrLfContinuationKept | libcutils/module_parsers.c:151-163 | under the intended escape, "a", backslash, CR LF, "b", space reads the one word "ab" |
| ModuleParsers.Skip | libcutils/module_parsers.c:70-96 | between words blanks are skipped, a newline or a comment line gives a newline token, NUL gives end of data, anything else starts a word |
| ModuleParsers.Lex | libcutils/module_parsers.c:59-174 | a pending newline is returned first; every word is NUL-free |
| ModuleParsers.Tokens | libcutils/module_parsers.c:375-394 | the words the token stream hands out never contain a NUL |
| ModuleParsers.Lines | libcutils/module_parsers.c:375-394 | there are no more lines than tokens, and a stream without a newline token gives no line: words after the last newline are not included |
| ModuleParsers.Kept | libcutils/module_parsers.c:389-391 | at most n words of a line are kept, the first ones |
| ModuleParsers.AliasLineAccepted | libcutils/module_parsers.c:304-333 | an alias line of three or more words gives one alias from its second word to its third |
| ModuleParsers.ShortAliasLineIgnored | libcutils/module_parsers.c:309-312 | an alias line of fewer than three words gives nothing |
| ModuleParsers.BlacklistLine | libcutils/module_parsers.c:277-302 | a line of two or more words blacklists its second word exactly when its first starts with blacklist |
| ModuleParsers.UnterminatedLineDropped | libcutils/module_parsers.c:378-381 | words after the last newline are never handed to a line parser |
| ModuleParsers.NewlineEndsLine | libcutils/module_parsers.c:382-386 | a newline hands the pending words over as one line and clears them |
| ModuleParsers.NodesOfSnoc | libcutils/module_parsers.c:382-386 | each non-empty line adds the node its parser makes of its kept words, after the earlier ones |
| ModuleParsers.TextOfPlain | libcutils/module_parsers.c:169-170 | ordinary characters are copied one for one |
| ModuleParsers.PlainWordThenSpace | libcutils/module_parsers.c:109-113 | a plain word followed by a space is one text token |
| ModuleParsers.PlainWordThenNewline | libcutils/module_parsers.c:114-117 | a plain word followed by a newline is a text token with the newline left pending, which comes next |
| ModuleParsers.CommentLine | libcutils/module_parsers.c:84-88 | a comment line is one newline token |
| ModuleParsers.LineEndAt | libcutils/module_parsers.c:85 | the comment ends at the first newline or NUL |
| ModuleParsers.QuotedSegment | libcutils/module_parsers.c:118-132 | a quoted part gives its contents without the quotes |
| ModuleParsers.QuotedCopies | libcutils/module_parsers.c:129-130 | quoted characters are copied one for one |
| ModuleParsers.UnterminatedQuote | libcutils/module_parsers.c:122-125 | an unterminated quote ends the data |
| ModuleParsers.EscapeLetterKept | libcutils/module_parsers.c:139-150 | as written, backslash-n in a word gives a newline followed by the letter n itself, because the text loop resumes at the escaped letter |
| ModuleParsers.EscapeLetterTwice | libcutils/module_parsers.c:139-150 | as written, backslash n, r or t adds the decoded character and then the letter itself, and a doubled backslash adds one backslash and then starts a second escape at the other |
| ModuleParsers.EscapeLetterOnce | libcutils/module_parsers.c:139-150 | under the intended escape, backslash n, r, t or backslash adds only the character it stands for, and the word goes on after the letter |
| ModuleParsers.EscapeLetterDecoded | libcutils/module_parsers.c:139-150 | under the intended escape, "a", backslash, "nb", space reads the one word "a", newline, "b" |
| ModuleParsers.ModuleList.constructor | libcutils/probe_module.c:452-454 | a list starts empty |
| ModuleParsers.ModuleList.Free | libcutils/module_parsers.c:176-210 | freeing empties the list |
| ModuleParsers.ParseState.constructor | libcutils/module_parsers.c:363-367 | the whole file followed by NUL, at line 1 with no pending token |
| ModuleParsers.ParseState.NextToken | libcutils/module_parsers.c:59-174 | the in-place tokenizer gives the token of the lexer on the rest of the data and the same pending token, position and line count; the word is written NUL-terminated into the data before the new position and nothing after it changes |
| ModuleParsers.ParseState.ScanToken | libcutils/module_parsers.c:70-96 | the scan between words, as the lexer has it |
| ModuleParsers.ParseState.SkipComment | libcutils/module_parsers.c:84-92 | a comment gives a newline token or end of data |
| ModuleParsers.ParseState.Put | libcutils/module_parsers.c:130 | writes one character of the word and nothing else |
| ModuleParsers.ParseState.ScanText | libcutils/module_parsers.c:102-172 | the word scan, as the lexer has it |
| ModuleParsers.ParseState.TextLoop | libcutils/module_parsers.c:104-172 | copies word characters until the word or the data ends |
| ModuleParsers.ParseState.EndText | libcutils/module_parsers.c:98-117 | ends the word with a NUL and sets the pending newline |
| ModuleParsers.ParseState.TextStep | libcutils/module_parsers.c:105-171 | one pass of the word loop reads the next character, quoted part or escape as the token reading does: the rest of the word is unchanged, or the input ends with T_EOF inside quotes |
| ModuleParsers.ParseState.QuotedPass | libcutils/module_parsers.c:118-132 | a double quote starts a copy of the characters up to the closing quote, after which the word goes on as the token reading says, or up to the NUL, which ends the input with T_EOF |
| ModuleParsers.ParseState.UnquotedStep | libcutils/module_parsers.c:134-170 | one character or escape outside quotes |
| ModuleParsers.ParseState.CopyChar | libcutils/module_parsers.c:169-170 | copies one ordinary character |
| ModuleParsers.ParseState.CopyQuoted | libcutils/module_parsers.c:118-132 | copies a quoted part |
| ModuleParsers.ParseState.CopyQuotedChar | libcutils/module_parsers.c:129-130 | copies one quoted character |
| ModuleParsers.ParseState.ScanEscape | libcutils/module_parsers.c:134-168 | one escape sequence |
| ModuleParsers.ParseState.EscapedChar | libcutils/module_parsers.c:139-166 | n, r, t and backslash are translated, any other character kept as it is |
| ModuleParsers.ParseState.EscapedLineEnd | libcutils/module_parsers.c:151-163 | a backslash before a line feed continues the word after the next line's leading blanks, counting the line; before CR LF it counts the line and stops on the LF, which ends the word; a lone CR is dropped; before NUL the word ends |
| ModuleParsers.ParseState.SkipBlankRun | libcutils/module_parsers.c:162 | skips the spaces and tabs after a continuation |
| ModuleParsers.KeptSnoc | libcutils/module_parsers.c:389-391 | a word is kept exactly when fewer than n are held |
| ModuleParsers.ArgKept | libcutils/module_parsers.c:390 | a stored word survives a later token written after it |
| ModuleParsers.AllKept | libcutils/module_parsers.c:390 | every stored word survives it |
| ModuleParsers.HeldArgs | libcutils/module_parsers.c:384 | the stored pointers read back as the kept words |
| ModuleParsers.LexAtNul | libcutils/module_parsers.c:72-74 | at NUL nothing is consumed |
| ModuleParsers.ArgStrings | libcutils/module_parsers.c:384 | the strings the stored pointers hold |
| ModuleParsers.TokensUnfold | libcutils/module_parsers.c:375-394 | the token stream is one token and the stream of the rest, until end of data |
| ModuleParsers.Advance | libcutils/module_parsers.c:376 | each call takes the next token of the stream |
| ModuleParsers.StreamStep | libcutils/module_parsers.c:375-394 | what is left of the stream after one token |
| ModuleParsers.EndLine | libcutils/module_parsers.c:382-386 | a newline adds the line's node to the list and clears the held words |
| ModuleParsers.AddWord | libcutils/module_parsers.c:388-391 | a word is held (its start appended to the arguments) exactly when the line has fewer arguments than the rule reads, and the finished lines are unchanged |
| ModuleParsers.ModuleParser | libcutils/module_parsers.c:335-401 | -1 for an unknown mode or a missing file, the list unchanged; 0 otherwise, with the nodes of the file's lines appended |
| ModuleParsers.ParseAliasToList | libcutils/module_parsers.c:403-406 | the same in alias mode |
| ModuleParsers.ParseBlacklistToList | libcutils/module_parsers.c:408-411 | the same in blacklist mode |
| ModuleParsers.AliasesOf | libcutils/module_parsers.c:222-242 | no more aliases out than in |
| ModuleParsers.AliasesOfBare | libcutils/module_parsers.c:232-238 | the aliases out are bare module names |
| ModuleParsers.AliasesOfNames | libcutils/module_parsers.c:222-242 | a name is given out exactly when some alias entry with that name matches the id |
| ModuleParsers.AliasesOfSound | libcutils/module_parsers.c:225-226 | every name given out comes from a matching entry |
| ModuleParsers.AliasesOfComplete | libcutils/module_parsers.c:222-242 | every matching entry's name is given out |
| ModuleParsers.GetModuleNameFromAlias | libcutils/module_parsers.c:212-250 | -1 with no id; otherwise the number of matching entries, their names appended in list order |
| ModuleParsers.IsModuleBlacklisted | libcutils/module_parsers.c:252-275 | 1 exactly when a name is given and listed, 0 otherwise |
| ModuleParsers.TokensAfterWord | libcutils/module_parsers.c:375-394 | a word token is followed by the stream of the rest |
| ModuleParsers.WordThenSpaceTokens | libcutils/module_parsers.c:109-113 | a plain word and a space give one word token |
| ModuleParsers.WordThenNewlineTokens | libcutils/module_parsers.c:114-117 | a plain word and a newline give a word and a newline token |
| ModuleParsers.TwoWordLine | libcutils/module_parsers.c:375-394 | a two-word line gives its two words and a newline |
| ModuleParsers.WordBeforeLine | libcutils/module_parsers.c:375-394 | a word before a line joins that line |
| ModuleParsers.ThreeWordLine | libcutils/module_parsers.c:375-394 | a three-word line gives its three words and a newline |
| ModuleParsers.OneLine | libcutils/module_parsers.c:382-386 | words and a newline make one line |
| ModuleParsers.Words | libcutils/module_parsers.c:388-391 | one token per word |
| ModuleParsers.WordsPending | libcutils/module_parsers.c:388-391 | words with no newline are all pending |
| ModuleParsers.WordsNoLines | libcutils/module_parsers.c:388-391 | words with no newline make no line |
| ModuleParsers.BlacklistFileParsed | libcutils/module_parsers.c:277-302 | the file "blacklist m" plus newline gives the one node m |
| ModuleParsers.AliasFileParsed | libcutils/module_parsers.c:304-333 | the file "alias p n" plus newline gives the one alias from p to n |
| ModuleParsers.AliasResolves | libcutils/module_parsers.c:212-250 | an id matching p resolves, through that file, to exactly n |
| ModuleParsers.BlacklistedAfterParse | libcutils/module_parsers.c:252-302 | a module named in a parsed blacklist is listed |
| Roots.TmpVolume | libvolumeutils/roots.c:79-85 | the first table entry is the always-mounted `/tmp` ramdisk with no device, no second device and length 0 |
| Roots.Strtoll | libvolumeutils/roots.c:59 | the length is the decimal number of the option text, clamped to the range of `long long`: unchanged inside that range, the limit it overshoots outside it |
| Roots.LengthOf | libvolumeutils/roots.c:55-64 | the length an accepted option list leaves stays within the range of `long long`, and no options leave the starting length |
| Roots.LengthOfAccepts | libvolumeutils/roots.c:55-64 | an option list is accepted exactly when every comma-separated option starts with `length=` |
| Roots.LengthOfLast | libvolumeutils/roots.c:58-59 | an accepted option list leaves the length at its previous value when empty and otherwise at the base-10 value of the last `length=` option as `strtoll` reads it, saturated at the limits of `long long` |
| Roots.OptionsLength | libvolumeutils/roots.c:49-66 | a length is parsed only from present options, and it lies within the range of `long long` |
| Roots.ParseOptions | libvolumeutils/roots.c:49-66 | returns 0 or -1; 0 exactly when the options (absent options are refused) are all `length=` options, and then reports the parsed length |
| Roots.ParseLine | libvolumeutils/roots.c:95-148 | a line that yields a volume gives it a non-empty device, mount point and fs type and a `long long` length; a second device always starts with `/` |
| Roots.ParseLineBlank | libvolumeutils/roots.c:95-97 | a line read from the table is skipped exactly when, after leading white space and up to its terminator, it is empty or starts with `#` |
| Roots.ParseLineEntry | libvolumeutils/roots.c:99-148 | a line yields a volume exactly when it is not blank, has at least five white-space fields and its option field is accepted |
| Roots.ParseLineFields | libvolumeutils/roots.c:100-117 | a parsed volume takes device, mount point and type from fields 1-3; a fifth field starting with `/` is the second device and the sixth holds the options, otherwise the fifth is the options |
| Roots.PiecesConcat | libvolumeutils/roots.c:93-95 | the pieces the bounded line reader hands out concatenate back to the whole table file |
| Roots.PiecesBounded | libvolumeutils/roots.c:93-95 | every piece read is non-empty and at most 1022 characters long, the buffer size less one passed to the reader |
| Roots.EntriesFromLines | libvolumeutils/roots.c:95-150 | every volume added comes from some line of the file that parses to it, and there are no more volumes than lines |
| Roots.LoadTableStartsWithTmp | libvolumeutils/roots.c:68-91 | the table always starts with the `/tmp` ramdisk; a missing table file leaves only that entry; otherwise there is at most one entry per line read |
| Roots.LoadTable | libvolumeutils/roots.c:68-162 | the table starts with the `/tmp` ramdisk and every later volume has a device |
| Roots.PiecesStep | libvolumeutils/roots.c:95 | reading one line from non-empty contents consumes a non-empty prefix, and the remaining pieces are those of the rest |
| Roots.Entries | libvolumeutils/roots.c:95-150 | the lines add no more volumes than there are lines, and each volume added has a device |
| Roots.Added | libvolumeutils/roots.c:96-148 | one line adds at most one volume, and it has a device |
| Roots.EntriesSnoc | libvolumeutils/roots.c:95-150 | handling one more line appends exactly what that line adds to the volumes of the earlier lines |
| Roots.FirstCovering | libvolumeutils/roots.c:170-178 | a found index is in range and its mount point covers the path |
| Roots.VolumeFor | libvolumeutils/roots.c:164-179 | a result exists only for a present path and names a volume whose mount point covers it |
| Roots.FirstCoveringFirst | libvolumeutils/roots.c:170-178 | the found volume is the first one that covers the path, and none is found exactly when no volume covers it |
| Roots.CoversBoundary | libvolumeutils/roots.c:173-174 | a mount point covers itself and paths below it, but not a longer name sharing its prefix nor a shorter path |
| Roots.VolumeTable.Load | libvolumeutils/roots.c:68-162 | loading builds exactly the table the line-by-line specification gives for the table file |
| Roots.VolumeTable.LoadLines | libvolumeutils/roots.c:95-150 | the read loop appends the entries of all the pieces of the file to the table |
| Roots.VolumeTable.LoadPiece | libvolumeutils/roots.c:95-150 | one loop iteration consumes one piece and keeps the table equal to the entries of the pieces seen so far |
| Roots.VolumeTable.AddLine | libvolumeutils/roots.c:96-148 | handling one line appends exactly the volume that line parses to, or nothing |
| Roots.VolumeTable.StoreFields | libvolumeutils/roots.c:119-145 | a line with the three required fields appends its volume when its options parse and otherwise leaves the table as it was |
| Roots.VolumeTable.Reserve | libvolumeutils/roots.c:120-133 | growing the array by doubling leaves room for one more volume without changing the table |
| Roots.VolumeTable.VolumeForPath | libvolumeutils/roots.c:164-179 | the search loop returns exactly the first covering volume of the table, or none |
| Roots.TryMount | libvolumeutils/roots.c:228-240 | one or two devices are tried and the mount succeeds exactly when the last one tried mounts |
| Roots.EnsureMounted | libvolumeutils/roots.c:181-247 | an unknown path fails and the ramdisk counts as mounted; exactly when the volume is known, not the ramdisk, the scan succeeds and it is not yet mounted, `/mnt` and then its mount point are handed to mkdir before any mount; at most the first and then the second device are tried, the second only after the first fails, and the result is 0 exactly when the last one tried mounts |
| Roots.EnsureUnmounted | libvolumeutils/roots.c:249-282 | an unknown path and the ramdisk both fail; any other result is 0 or the result of the unmount |
| Roots.Wipe | libvolumeutils/roots.c:284-326 | an unknown volume and a device that does not open fail with -1 and no discard; an opened device without `mmcblk` gives 0 without discard; an opened `mmcblk` device is discarded, and a failed discard gives -1 |
| Roots.Format | libvolumeutils/roots.c:328-398 | a format succeeds only for a known, non-ramdisk volume named by its own mount point that unmounts; any formatting action follows an unmount, and an ext4 format follows a wipe that did not fail |
| Roots.GuardsAgree | libvolumeutils/roots.c:189-197 | mount and unmount reject an unknown path alike; on the ramdisk mounting succeeds while unmounting and formatting fail |
| EfiVars.EfiGuid | init/efivars.c:30-35 | a packed GUID is always 16 bytes |
| EfiVars.LeBytesValue | init/efivars.c:30-35 | the k bytes laid out least significant first read back, little-endian, as the value modulo 2^(8k) |
| EfiVars.EfiGuidLayout | init/efivars.c:30-35 | bytes 0-3 hold a, 4-5 hold b and 6-7 hold c, each little-endian and truncated to its width, and bytes 8-15 hold d0-d7 truncated to a byte |
| EfiVars.EfiGuidOfFields | init/efivars.c:30-35 | every 16-byte GUID is the packing of its own little-endian fields, so packing loses nothing |
| EfiVars.Hex2 | init/efivars.c:37-38 | each `%02x` of a byte prints exactly two hex digits |
| EfiVars.GuidText | init/efivars.c:37-38 | the GUID text is 36 characters with dashes at positions 8, 13, 18 and 23, the 8-4-4-4-12 layout |
| EfiVars.GuidTextCanonical | init/efivars.c:37-38 | the GUID text prints bytes 3-0, 5-4 and 7-6 as the three little-endian fields, then bytes 8-9 and 10-15 in order, two lower-case hex digits each |
| EfiVars.GuidTextOfEfiGuid | init/efivars.c:30-38 | formatting a packed GUID prints a, b and c as 8, 4 and 4 hex digits and d0-d7 as two digits each, the canonical text of the UUID, so formatting inverts the packing |
| EfiVars.RoPropertiesGuid | init/efivars.c:51-53 | the ro.properties GUID is 16 bytes |
| EfiVars.RoPropertiesGuidBytes | init/efivars.c:51-53 | the ro.properties GUID packs to 71 0c 7b f8 01 ff 2e cb ba 47 53 08 e9 96 bd 0f |
| EfiVars.RoPropertiesGuidText | init/efivars.c:51-53 | the ro.properties GUID prints as f87b0c71-ff01-cb2e-ba47-5308e996bd0f |
| EfiVars.GuidTextOfBytes | init/efivars.c:37-38 | those sixteen bytes print as f87b0c71-ff01-cb2e-ba47-5308e996bd0f |
| EfiVars.EfiPath | init/efivars.c:158-171 | a variable path starts with the vars directory, the name and a dash, ends with the entry, and is 37 characters longer than those three |
| EfiVars.EfiPathParts | init/efivars.c:158-171 | a variable path is the vars directory, the name, a dash, the 36-character GUID text and the entry, in that order and with that length |
| EfiVars.Widen | init/efivars.c:120-121 | a widened character keeps its byte as the low byte, and is 0 exactly for NUL |
| EfiVars.Widened | init/efivars.c:110-127 | widening keeps the length |
| EfiVars.Narrowed | init/efivars.c:139-156 | narrowing keeps the length |
| EfiVars.NarrowWidened | init/efivars.c:110-156 | narrowing a widened string gives back the original |
| EfiVars.EfiStrLen | init/efivars.c:129-137 | the length of a terminated UCS-2 string is the index of its first 0 unit |
| EfiVars.EfiStrLenWidened | init/efivars.c:110-137 | the length of a converted NUL-free string is the length of the original |
| EfiVars.CharStrToEfiStr | init/efivars.c:110-127 | the conversion loop fills a fresh array with the widened characters and a terminating 0 |
| EfiVars.EfiStrLength | init/efivars.c:129-137 | the counting loop returns the index of the first 0 unit, and no earlier unit is 0 |
| EfiVars.EfiStrToCharStr | init/efivars.c:139-156 | the conversion loop fills a fresh array with the narrowed units before the first 0 and a terminating NUL |
| EfiVars.EfiStrRoundTrip | init/efivars.c:110-156 | converting a NUL-free C string to UCS-2 and back gives back the string |
| EfiVars.ReleaseWord | init/efivars.c:98-100 | the release word is the prefix of the text after `Linux version ` up to, and not including, the first space |
| EfiVars.ArchNotInPrefix | init/efivars.c:98-102 | an `x86_64` found in the cut text cannot start inside the `Linux version ` prefix |
| EfiVars.ArchWord | init/efivars.c:98-105 | the cut text contains `x86_64` exactly when the release word does |
| EfiVars.KernelArch64 | init/efivars.c:78-108 | the architecture is known only when /proc/version was read and contains `Linux version ` |
| EfiVars.KernelArch64Cases | init/efivars.c:78-108 | detection fails exactly when /proc/version is missing or empty or its first line lacks `Linux version `; otherwise it reports 64-bit exactly when the release word contains `x86_64` |
| EfiVars.RecordSize | init/efivars.c:58-75 | the packed record is 2076 bytes on a 32-bit kernel and 2084 bytes on a 64-bit one |
| EfiVars.Ucs2RoundTrip | init/efivars.c:374 | reading back the little-endian bytes of UCS-2 units gives back the units |
| EfiVars.Ucs2ReadBack | init/efivars.c:371-374 | an area holding the bytes of a widened string followed by a 0 unit reads back as that string |
| EfiVars.ValueBytes | init/efivars.c:342-343 | the encoded value is exactly efi_value_size bytes long |
| EfiVars.Overwrite | init/efivars.c:367-385 | a store replaces exactly the bytes at its offset and keeps every other byte |
| EfiVars.Record | init/efivars.c:366-388 | the record built for the checked name and value has the size of the kernel's layout |
| EfiVars.RecordByte | init/efivars.c:366-388 | each record byte is the one written last there: value bytes, then data_sz, then name characters, then attributes, status and GUID, and 0 elsewhere |
| EfiVars.RecordFields | init/efivars.c:366-388 | a record for a name that fits holds the GUID, data_sz equal to the encoded value size, status 0 and attributes 7 |
| EfiVars.RecordName | init/efivars.c:371-372 | the name area of a record for a name that fits reads back, as UCS-2, as the name |
| EfiVars.RecordValue | init/efivars.c:373-374 | the data area of a record reads back, as UCS-2, as the value |
| EfiVars.AsWrittenNameClobbersGuid | init/efivars.c:345-372 | with the bound as written, a name of more than 512 characters writes its 513th character over the first GUID byte |
| EfiVars.AsWrittenGuidLost | init/efivars.c:345-372 | a 520-character name passes the check as written but not the corrected one, and its record no longer holds the ro.properties GUID |
| EfiVars.Put | init/efivars.c:367-385 | a store into the record array is exactly the Overwrite of its bytes |
| EfiVars.CopyName | init/efivars.c:371-372 | the name loop stores exactly the little-endian bytes of the widened name at the start of the record |
| EfiVars.BuildRecord | init/efivars.c:366-388 | the record is filled in place to exactly the specified record bytes |
| EfiVars.ReadEfiVariable | init/efivars.c:211-275 | a read succeeds exactly when the architecture is known and raw_var exists with at least one record's worth of bytes, and it returns the first record-size bytes |
| EfiVars.Deletion | init/efivars.c:308-362 | an absent variable needs no removal; a removal writes the raw record just read to del_var, and only when the read succeeded and del_var opens |
| EfiVars.EfiValueSize | init/efivars.c:342-343 | efi_value_size is the encoded value size: the converted units and their terminator, two bytes each |
| EfiVars.ValueTooLong | init/efivars.c:345 | the value is refused exactly when it has 512 characters or more, whose UCS-2 bytes and terminator overflow the 1024-byte data field |
| EfiVars.NameTooLongAsWritten | init/efivars.c:345 | the name bound as written refuses only names over 1024 characters, so every name it refuses the corrected bound refuses too, and it lets through exactly the names of 512 to 1024 characters that the corrected bound refuses |
| EfiVars.NameTooLong | init/efivars.c:345 | the corrected name bound refuses exactly the names of 512 characters or more, which with their terminator do not fit the 512 UCS-2 units of the name field |
| EfiVars.StoreVariable | init/efivars.c:353-396 | after the checks: a failed removal of an existing variable gives -1 with nothing written; otherwise the removal, if any, then the built record written to new_var, and 0 exactly when new_var accepts it |
| EfiVars.SetEfiVariableAsWritten | init/efivars.c:324-396 | with the 1024-character name bound as written: fails with nothing written on an unknown architecture, a name over 1024 characters or a value too long; otherwise stores the record, which for a name of 512 to 1024 characters is the clobbered one of AsWrittenGuidLost |
| EfiVars.SetEfiVariable | init/efivars.c:324-396 | with the corrected name bound: returns 0 or -1; fails with nothing written on an unknown architecture, a name that does not fit the name field with its terminator, or a value too long; otherwise writes the removal, if any, and then the built record to new_var, and returns 0 exactly when new_var accepts it |
| Autodetect.GetRankOrder | init/autodetect.c:37-58 | eDP, LVDS and DSI connectors rank 10; among the others exactly HDMI ranks above the fixed current rank of 100 |
| Autodetect.InitialScreen | init/autodetect.c:29-38 | the screen starts with no pixel size, an assumed 177 x 99 mm panel, no measured size and no origin |
| Autodetect.GetRank | init/autodetect.c:45-58 | a connector ranks 10, 50 or 200, and 200 only when its name contains HDMI |
| Autodetect.Screen.constructor | init/autodetect.c:29-38 | a new screen record holds the initial screen values |
| Autodetect.Screen.PushResolution | init/autodetect.c:60-88 | one push updates the globals exactly as the push specification says |
| Autodetect.Push | init/autodetect.c:60-88 | the pixel size and origin are either kept or replaced together by the pushed ones, so the size never shrinks; the physical size is kept or replaced by the pushed one, and once set stays set |
| Autodetect.PushGrows | init/autodetect.c:60-88 | the pixel size never shrinks and is either kept or replaced by the pushed one; once a physical size is set it stays set |
| Autodetect.PushAboveRank | init/autodetect.c:66-76 | a push ranked above the current rank keeps the pixel size and the origin, and changes nothing at all once a physical size is set |
| Autodetect.HdmiKeepsPixels | init/autodetect.c:45-76 | an HDMI-only connector never sets the pixel size or the origin |
| Autodetect.PushLaterWins | init/autodetect.c:37-88 | since the current rank never changes, a later larger push of a worse rank still replaces a better-ranked earlier one |
| Autodetect.ByteSumStep | init/autodetect.c:103-105 | adding one byte to an 8-bit running sum keeps it equal to the sum of the bytes so far modulo 256 |
| Autodetect.ValidEdidHeader | init/autodetect.c:90-111 | the header is accepted exactly when bytes 0-7 are 00 FF FF FF FF FF FF 00; a bad checksum is reported only for an accepted header and does not reject it |
| Autodetect.CDiv | init/autodetect.c:119-125 | C division truncates toward zero for either sign of the dividend |
| Autodetect.VSize | init/autodetect.c:113-128 | for a non-negative width the height lies between 0 and the width |
| Autodetect.VSizeAspect | init/autodetect.c:113-128 | the height computed from a width is never more than the width and rounds down the ratio of the aspect bits: 16:10, 4:3, 5:4 or 16:9 |
| Autodetect.SnapDpiAsWritten | init/autodetect.c:134-151 | the thresholds as written always return one of the eight framework densities |
| Autodetect.SnapDpi | init/autodetect.c:130-151 | the corrected thresholds always return one of the eight framework densities |
| Autodetect.SnapDpiNearest | init/autodetect.c:130-151 | the corrected snapping returns one of the eight framework densities and none is strictly closer to the dpi |
| Autodetect.SnapDpiAsWrittenNotNearest | init/autodetect.c:137-140 | the thresholds as written snap 186.75 to 160 although 213 is closer, and 226.75 to 213 although 240 is closer |
| Autodetect.SnapDpiAsWrittenAgrees | init/autodetect.c:134-151 | the thresholds as written give a framework density and differ from the nearest one exactly for dpi in [186.5, 187) or [226.5, 227) |
| Autodetect.TrimTail | init/autodetect.c:424-425 | trimming keeps a prefix that does not end in `_` or `.` |
| Autodetect.CddClean | init/autodetect.c:402-427 | cleaning never makes a string longer |
| Autodetect.CddCleanShape | init/autodetect.c:402-427 | a cleaned string consists of characters from [a-z0-9,_-], does not end in `_`, and is a prefix of the mapped input |
| Autodetect.CddCleanIdempotent | init/autodetect.c:402-427 | cleaning a cleaned string changes nothing |
| Autodetect.CddMap | init/autodetect.c:411-422 | the first pass keeps the length and leaves only [a-z0-9,_-]; an allowed character is kept in lower case |
| Autodetect.CddCleanString | init/autodetect.c:402-427 | the buffer is cleaned in place: its C string becomes the cleaned old C string and the final terminator stays |
| Autodetect.CddMapPass | init/autodetect.c:411-422 | the first loop maps each character up to the terminator and touches nothing after it |
| Autodetect.TrimPass | init/autodetect.c:424-425 | the second loop cuts the string at the trimmed length and keeps everything beyond the old terminator |
| Autodetect.CleanSerial | init/autodetect.c:467-510 | a cleaned serial number is never longer than its input |
| Autodetect.SerialMap | init/autodetect.c:488-500 | the mapping keeps the length and leaves only [A-Za-z0-9]; a character is kept exactly when it is alphanumeric |
| Autodetect.CleanSerialShape | init/autodetect.c:467-510 | the serial becomes empty exactly for a placeholder text, a text under 6 characters or one that maps to all zeros; otherwise it is 6 to 20 alphanumerics and a prefix of the mapped input |
| Autodetect.CountZeros | init/autodetect.c:496-497 | the zero count is at most the length |
| Autodetect.CountZerosAll | init/autodetect.c:502 | the zero count equals the length exactly when the mapped text is all zeros |
| Autodetect.CddCleanSerialno | init/autodetect.c:467-510 | the buffer is cleaned in place: its C string becomes the cleaned old serial and the final terminator stays |
| Autodetect.ZeroPass | init/autodetect.c:488-500 | the mapping loop replaces every non-alphanumeric character with `0` and counts the zeros of the result |
| Autodetect.CheckSerial | init/autodetect.c:516-521 | an empty serial becomes the 20-character alphanumeric canary `00badbios00badbios00`; any other is kept |
| Autodetect.ChopBrandTail | init/autodetect.c:431-462 | a brand starting with intel or asus, in any case, becomes exactly that word; otherwise it is cut at its first `_inc` (in any case), else its first `_corp`, else its first `_gmbh`, and is kept whole when it has none |
| Autodetect.ChopBrand | init/autodetect.c:431-462 | the chopped brand is `intel`, `asus` or a prefix of the brand |
| Autodetect.CutNewline | init/autodetect.c:548-550 | cutting at the newline keeps a prefix without newlines |
| Autodetect.DmiLine | init/autodetect.c:537-550 | an empty file gives no line; any line fits the property buffer and holds no NUL |
| Autodetect.Cleaned | init/autodetect.c:526-560 | the cleaned value of a DMI file fits the property buffer |
| Autodetect.FromDmi | init/autodetect.c:526-560 | a property already found is never overwritten, and the value fits the property buffer |
| Autodetect.FirstFound | init/autodetect.c:523-560 | the first valid value of a list of files fits the property buffer |
| Autodetect.Found | init/autodetect.c:523-560 | reading a list of files in turn never overwrites a property already found, and the value fits the property buffer |
| Autodetect.FoundStep | init/autodetect.c:533-559 | one more call of the DMI reader moves the search one file along |
| Autodetect.FirstFoundIsFirst | init/autodetect.c:523-560 | the property is empty exactly when no file has a valid value, and otherwise it is the value of the first file that has one |
| Autodetect.CleanedSerialShape | init/autodetect.c:552-553 | a non-empty serial taken from one file matches [A-Za-z0-9]{6,20} |
| Autodetect.SerialAlwaysShaped | init/autodetect.c:676-701 | after all the serial files and the canary the serial number always matches [A-Za-z0-9]{6,20} |
| Autodetect.BoardVersion | init/autodetect.c:610-628 | the board version fits the property buffer |
| Autodetect.DeviceAsWritten | init/autodetect.c:632-637 | the text the sprintf writes is the board name, `_`, the version and `_` when there is one, then `coho`, and its length is exactly that sum |
| Autodetect.DeviceAsWrittenOverflows | init/autodetect.c:582-640 | a cleaned board name of 87 characters or more makes the device sprintf write past the 92-byte buffer |
| Autodetect.LongBoardNameKept | init/autodetect.c:594-605 | any lower-case board name of up to 90 letters on its line passes the read and the cleaning unchanged, so such names do reach the sprintf |
| Autodetect.DmiLineWhole | init/autodetect.c:537-550 | a line of up to 90 lower-case letters is read back as exactly those letters, without its newline |
| Autodetect.CddCleanLower | init/autodetect.c:402-427 | lower-case letters pass CDD_clean_string unchanged |
| Autodetect.LineRead | init/autodetect.c:595 | a line of up to 90 letters and its newline is read whole |
| Autodetect.DeviceString | init/autodetect.c:633-639 | the corrected device name never exceeds a property value, is a prefix of the text as written, and is that text whenever it fits |
| Autodetect.DeviceFromDmi | init/autodetect.c:582-640 | no device is set exactly when the board name is missing or cleans to nothing; otherwise the device is non-empty, fits a property value and is a prefix of the text as written |
| Autodetect.LoadBuffer | init/autodetect.c:541-542 | the zeroed 92-byte buffer after the read holds the line as its C string and ends in NUL |
| Autodetect.CutNewlineIn | init/autodetect.c:548-550 | the newline is cut in place: the C string becomes its part before the first newline |
| Autodetect.Shortened | init/autodetect.c:765-773 | afterwards brand, name and device together are at most 33 characters; values within the limit are kept, otherwise all three become `ERROR`; the other properties are untouched |
| Autodetect.DmiCache.constructor | init/autodetect.c:400 | the property cache starts with six empty values |
| Autodetect.DmiCache.GetPropertyFromDmiFile | init/autodetect.c:526-560 | only the property of the named type changes: it keeps its value when already set, else takes the file's cleaned value |
| Autodetect.DmiCache.GetPropertyName | init/autodetect.c:644-650 | only the name changes: it is taken from the first of product_name and board_name with a valid value, unless already set |
| Autodetect.DmiCache.GetPropertyBrand | init/autodetect.c:656-664 | only the brand changes: it is taken from board_vendor, sys_vendor or product_vendor in that order, unless already set, then chopped |
| Autodetect.DmiCache.GetPropertySerial | init/autodetect.c:676-701 | only the serial changes: it is taken from the first of the seven serial files with a valid value, unless already set, then an empty value becomes the canary |
| Autodetect.DmiCache.GetPropertyDevice | init/autodetect.c:582-640 | the device property is left alone when no board name is usable and otherwise becomes the bounded board name, version and `coho` |
| Autodetect.DmiCache.ChopBrandTail | init/autodetect.c:431-462 | only the brand changes, to its chopped form |
| Autodetect.DmiCache.CheckSerialno | init/autodetect.c:516-521 | only the serial changes, to its checked form |
| Autodetect.DmiCache.ShortenFingerprint | init/autodetect.c:765-773 | the loop leaves the cache exactly as the shortening specification gives |
| Autodetect.ReadCleaned | init/autodetect.c:541-556 | reading, cutting and cleaning a file's contents in the buffer gives exactly its cleaned value |
| Autodetect.ReadBoardVersion | init/autodetect.c:610-628 | the buffer steps for board_version give exactly the specified board version |
| Protocol.ReadFrame | fastboot/protocol.c:56-60 | a read on a closed transport fails; a read that succeeds returns one of the frames still to come |
| Protocol.TagOf | fastboot/protocol.c:70-91 | the tag is INFO, OKAY, FAIL or DATA exactly when the status starts with those four bytes |
| Protocol.DataSize | fastboot/protocol.c:92 | the size announced by a DATA reply, parsed as hex by strtoul with its optional sign and saturation and stored in an unsigned, is below 2^32 |
| Protocol.DataSizePlus | fastboot/protocol.c:92 | a plus sign before the hex digits of a DATA size reads the same size as none, as strtoul allows |
| Protocol.DataSizeMinus | fastboot/protocol.c:92 | a minus sign before a magnitude of 1 to 2^32 gives, through the 64-bit strtoul and the 32-bit store, 2^32 less the magnitude |
| Protocol.DataSizeSigned | fastboot/protocol.c:92 | the DATA sizes "+1f" and "-1" read as 0x1f and 0xffffffff |
| Protocol.AsInt | fastboot/protocol.c:98 | returning that size as an int keeps it when it is at most INT_MAX and otherwise gives a negative value |
| Protocol.InfoBodies | fastboot/protocol.c:70-73 | one logged text per INFO frame |
| Protocol.Respond | fastboot/protocol.c:50-107 | the result never exceeds the announced size and is at most 0 when no size was announced; a response is copied only on success when one was asked for; a closed transport gives -1; nothing is written |
| Protocol.RespondKeeps | fastboot/protocol.c:50-107 | a success leaves the transport state and the error unchanged; a failure within the int range sets an error; INFO texts only accumulate and frames are only consumed |
| Protocol.RespondInfo | fastboot/protocol.c:70-73 | an INFO frame is logged and skipped, and reading continues with the next frame |
| Protocol.RespondAfterInfo | fastboot/protocol.c:55-73 | any run of INFO frames is logged and skipped as a whole |
| Protocol.RespondFirst | fastboot/protocol.c:56-104 | the first non-INFO frame decides: OKAY gives 0 and its text; FAIL gives -1 with `remote: <text>` or `remote failure`, leaving the transport open; DATA, only with a size, gives its size or -1 and a close when too large; a failed or short read or any other tag gives -1 and closes |
| Protocol.RespondDecided | fastboot/protocol.c:50-107 | after a run of INFO frames the next frame decides the reply exactly as for a first frame, with the INFO texts logged |
| Protocol.Start | fastboot/protocol.c:109-131 | a command over 64 bytes fails before anything is written; a failure clears the response; success means the whole command was written and the reply accepted |
| Protocol.DataPhase | fastboot/protocol.c:133-150 | the data is written once; the result is its length exactly when the whole data was written, and otherwise -1 with the transport closed and an error set |
| Protocol.End | fastboot/protocol.c:152-160 | the final reply gives 0 or -1, 0 only on an open transport that stays open, and writes nothing |
| Protocol.Send | fastboot/protocol.c:162-187 | size 0 is refused with nothing done; otherwise -1 or the size; on success the command and then the data were written, and on failure at most those |
| Protocol.DownloadCommandReadBack | fastboot/protocol.c:212 | the download command is `download:` and eight hex digits, 17 bytes in all and within the 64-byte limit, and the digits read back as the size |
| Protocol.Download | fastboot/protocol.c:207-220 | a download gives 0 or -1; empty data fails with nothing done; success wrote the download command and then the data |
| Protocol.PayloadAppend | fastboot/protocol.c:226-289 | the bytes sent by two runs of packets are the bytes of the first followed by those of the second |
| Protocol.SparseWrite | fastboot/protocol.c:226-274 | the sparse write callback never leaves more than 512 bytes buffered |
| Protocol.SparseBulk | fastboot/protocol.c:250-272 | the whole-block send and the tail copy never leave more than 512 bytes buffered |
| Protocol.SparseTail | fastboot/protocol.c:264-271 | the tail copy never leaves more than 512 bytes buffered |
| Protocol.DeliveredKept | fastboot/protocol.c:233-240 | buffering the given bytes without sending delivers them |
| Protocol.DeliveredAfterBlock | fastboot/protocol.c:242-262 | sending a whole number of 512-byte blocks and then delivering the rest delivers everything |
| Protocol.DeliveredChain | fastboot/protocol.c:291-311 | two successful callback runs in a row deliver the concatenation of their data |
| Protocol.SparseTailDelivers | fastboot/protocol.c:264-273 | the tail copy delivers its bytes |
| Protocol.SparseBulkDelivers | fastboot/protocol.c:250-273 | the whole-block send followed by the tail copy delivers its bytes |
| Protocol.SparseWriteDelivers | fastboot/protocol.c:226-274 | after each callback the bytes sent followed by the bytes buffered are the buffered bytes and the new data, every chunk sent is a positive multiple of 512, and only a transport failure stops it; the internal-error branches cannot be reached |
| Protocol.SparseFlush | fastboot/protocol.c:276-289 | the flush gives 0 or -1 with the transport closed; on success it sent exactly the buffered bytes and left the buffer empty; with nothing buffered it does nothing |
| Protocol.SparseCallback | fastboot/protocol.c:306 | the chunk callbacks never leave more than 512 bytes buffered |
| Protocol.SparseCallbackDelivers | fastboot/protocol.c:306 | a run of chunk callbacks delivers the concatenation of all the chunks |
| Protocol.SparseDownload | fastboot/protocol.c:291-314 | a sparse download never leaves more than 512 bytes buffered |
| Protocol.SparseDownloadDelivers | fastboot/protocol.c:291-314 | a sparse download gives 0 or -1; success needs a positive size and means the download command was written followed by exactly the buffered bytes and all the chunks, with nothing left buffered |
| Protocol.Session.constructor | fastboot/protocol.c:222-224 | a new session has an open transport with the given replies, nothing written and an empty buffer |
| Protocol.Session.Read | fastboot/protocol.c:56-60 | a read on the session returns the transport model's next frame and consumes it, leaving the staging buffer alone |
| Protocol.Session.Write | fastboot/protocol.c:124-127 | a write on the session records the packet and returns the transport model's reply, leaving the staging buffer alone |
| Protocol.Session.Close | fastboot/protocol.c:59 | closing marks the transport closed and changes nothing else |
| Protocol.Session.CheckResponse | fastboot/protocol.c:50-107 | the reply loop changes the session exactly as the reply specification says and returns its result and response |
| Protocol.Session.CommandStart | fastboot/protocol.c:109-131 | the session changes exactly as command start specifies |
| Protocol.Session.CommandData | fastboot/protocol.c:133-150 | the session changes exactly as the data phase specifies |
| Protocol.Session.CommandEnd | fastboot/protocol.c:152-160 | the session changes exactly as command end specifies |
| Protocol.Session.CommandSend | fastboot/protocol.c:162-187 | the session changes exactly as a command with data specifies |
| Protocol.Session.FbCommand | fastboot/protocol.c:189-200 | a command without data is a command start with no size and no response wanted |
| Protocol.Session.FbCommandResponse | fastboot/protocol.c:189-205 | a command with a response is a command start with no size that copies the response |
| Protocol.Session.DownloadData | fastboot/protocol.c:207-220 | the session changes exactly as a download specifies |
| Protocol.Session.CopyIn | fastboot/protocol.c:236-269 | the memcpy into trans_buf replaces exactly the target range and keeps the rest |
| Protocol.Session.WriteSparse | fastboot/protocol.c:226-274 | the callback changes the transport and the buffer exactly as the sparse write specification says |
| Protocol.Session.SparseRest | fastboot/protocol.c:250-273 | the whole-block part of the callback follows the bulk specification |
| Protocol.Session.SparseKeep | fastboot/protocol.c:264-273 | the tail part of the callback follows the tail specification |
| Protocol.Session.FlushSparse | fastboot/protocol.c:276-289 | the flush changes the transport and the buffer exactly as the flush specification says |
| Protocol.Session.DownloadSparse | fastboot/protocol.c:291-314 | the sparse download changes the session exactly as its specification says |

## Left out

- Kernel and filesystem calls are not executed. The model records them in its logs, or takes their results as parameters. They include mknod, chown, setegid, selabel lookups and file contexts, symlink, unlink, init_module, delete_module, mount, umount, the BLKDISCARD ioctl, make_ext4fs, the MTD calls and the writes to sysfs.
- The internals of `make_link`, `remove_link` and `mkdir_recursive` are not modelled: the device manager's log names the link or directory only.
- `sanitize`, `load_file` and the logging helpers are not part of this model. `sanitize` and the probing call of the device manager are parameters, and files arrive as their contents.
- `fnmatch` is a simplified glob with `*` and `?`; bracket expressions and escapes are not modelled.
- Allocation failure is not modelled: every malloc, calloc, realloc, strdup and asprintf succeeds. `setup_dep`'s realloc size is the exception, kept as a Finding.
- Coldboot directory walks (`init/devices.c:1032-1106`, `charger/charger.c:652-710`), the netlink socket setup, firmware loading and the CRDA helper are file, socket and process I/O and are left out.
- `device_init` and the selabel handle set-up are left out: they are I/O set-up.
- Charger graphics (`draw_*`, `gr_*`, surfaces) are not modelled; the log records only that a frame is shown or the screen blanked.
- The charger's RTC alarm thread, the thermal state handling (`handle_temperature_state`), the `ev_*` input plumbing and `input_callback`, `ev_sync_key_state`, `request_suspend`/autosuspend and `klog_write` are I/O and are left out.
- The charger's clock is the parameter `now`. `android_reboot` is treated as a logged action that returns.
- `Charger.Charger.EventLoopPass` models one pass of the infinite `event_loop`, not the loop itself; the pass reads the clock once (`now`) and the battery readings are those at the start of the pass.
- The `boot_min_cap` property read is a parameter.
- Charger timer arithmetic is on unbounded integers: the 64-bit overflow of the millisecond clock and the int cast of the poll timeout are not modelled.
- Charger `strtol` overflow is not modelled.
- The charger's sysfs paths are not truncated at PATH_MAX.
- A sysfs file read twice within one charger call is taken to have the same contents both times.
- `dpi_math`, `parse_edid`, `parse_display_info`, the framebuffer ioctls and `get_edid_dpi` are floating-point arithmetic and file I/O and are left out. `snap_dpi` takes its input as a real number.
- `property_set`, `get_property_BOOTLOADER`, `get_property_MODEL`, `create_fingerprint`, `load_properties_from_dmi` and `pnp_init` with its sysfs tweaks are property and file I/O and are left out.
- Autodetect.CddCleanString: the bytes after the new terminator are left unstated; only the resulting C string is specified.
- Autodetect.CddCleanSerialno: the bytes after the new terminator are left unstated; only the resulting C string is specified.
- The efivars file accesses (open, read and write of raw_var, new_var and del_var, and the `/proc/version` read) are parameters or logged writes.
- `get_efi_variable`, `dump_efi_var`, `efivar_get_google_clientid` and `efivar_clear_google_clientid` are not modelled. They only read and log, and `efivar_get_google_clientid` returns nothing to its caller because `str` is passed by value (`init/efivars.c:418-428`).
- The android_reboot process control is not executed. kill, sync and the sysrq write are logged, the `/proc` scan arrives as parameters, and `really_reboot` does not model `__reboot` never returning.
- The fastboot transport is a script of frames and write counts. `errno` text in the error messages, `fb_get_error` and `fprintf` of INFO texts are left out; the INFO texts are collected instead.
- The fastboot transport's `int` cast of sizes of 2^31 or more is not modelled, except for the int result of `check_response`.
- `sparse_file_len` and `sparse_file_callback` are library calls: the size and the chunks are parameters.
- `fastboot/tcp.c` and the socket half of `fastboot/tcp_windows.c` are network I/O and are left out; only the slot table is modelled.
- ModuleParsers.EscapeIntended: the corrected escape (backslash CR LF, and the escape letters) is stated for one escape step; the tokenizer (`Lex`, `Tokens`, `ParseState.NextToken`) follows the code as written.

## Findings

| source | as written | input that shows it | evidently intended | confidence | as-written member | corrected member |
|---|---|---|---|---|---|---|
| libcutils/probe_module.c:168-172 | `realloc(dep, dep_num)` asks for `dep_num` bytes, not `dep_num` pointers | a `modules.dep` line with 10 or more entries, which leaves 20 bytes for at least 11 pointers | `realloc(dep, dep_num * sizeof(char *))` | high, not executed | ProbeModule.SetupDepAsWritten, ProbeModule.SetupDepOverflows | ProbeModule.SetupDep |
| init/efivars.c:345 | the name is checked against 1024 characters, but the record's name field holds 512 UCS-2 units | a name of 520 characters passes the check, and its characters from the 513th on overwrite the GUID | reject names of 512 characters or more, so the name and its terminator fit | high, not executed | EfiVars.NameTooLongAsWritten, EfiVars.AsWrittenGuidLost, EfiVars.SetEfiVariableAsWritten | EfiVars.NameTooLong, EfiVars.RecordName, EfiVars.SetEfiVariable |
| libcutils/module_parsers.c:151-163 | the backslash-CR case falls into the backslash-LF case with the position still on the CR, so it stops on the LF, which ends the word | "a", backslash, CR, LF, "b" gives the word "a" and a newline instead of the word "ab" | backslash CR LF is a line continuation, as the comment at line 152 says | high, not executed | ModuleParsers.Escape, ModuleParsers.CrLfEndsWord, ModuleParsers.CrLfContinuationLost | ModuleParsers.EscapeIntended, ModuleParsers.CrLfContinues, ModuleParsers.CrLfContinuationKept |
| libcutils/module_parsers.c:139-150 | after writing the character that backslash n, r, t or backslash stands for, `break` leaves the position on the escaped letter, which the text loop then reads again | "a", backslash, "n", space gives the word "a", newline, "n" instead of "a", newline | the escape letter is consumed with the backslash, as the unknown-escape case at line 166 does with `x++` | medium, not executed | ModuleParsers.Escape, ModuleParsers.EscapeLetterTwice, ModuleParsers.EscapeLetterKept | ModuleParsers.EscapeIntended, ModuleParsers.EscapeLetterOnce, ModuleParsers.EscapeLetterDecoded |
| init/autodetect.c:137-140 | the thresholds 187 and 227 are not the midpoints between 160 and 213 and between 213 and 240 | dpi 186.75 gives 160 although 213 is closer; dpi 226.75 gives 213 although 240 is closer | the numerically closest density, as the comment at lines 130-133 requires | medium, not executed | Autodetect.SnapDpiAsWrittenNotNearest | Autodetect.SnapDpiNearest |
| init/autodetect.c:633-637 | `sprintf` of board name, version and `coho` into the 92-byte `buf` | a lower-case board name of 87 to 90 letters passes the read and the cleaning unchanged and overflows `buf` | a write bounded by the buffer, as `snprintf` would do | high, not executed | Autodetect.DeviceAsWrittenOverflows, Autodetect.LongBoardNameKept | Autodetect.DeviceString |
