# show_startup_info: a verified model of the LCD status daemon's core

`show_startup_info` is a small Raspberry Pi daemon. It detaches from the
terminal on request, takes a lock file, and then loops. On each pass it
writes a debug record to its log, collects the machine's IPv4 addresses, and
shows the first two on a 2x16 LCD. It then sleeps for an interval read from a
configuration file. SIGINT stops it, SIGHUP re-reads the interval, and after
ten passes it stops by itself.

This project models the sequential logic under the OS and hardware plumbing
and proves what it does:

- `cstring.dfy` (module `CString`): the in-place right trim
  `stringStripRight`, on a `char` array, specified by `TrimRight`. It also
  models the `strncmp` and `strstr` calls the probes use.
- `decimal.dfy` (module `Decimal`): the `%d` conversion of `fscanf` (section
  7.21.6.2 of ISO C11) that reads the interval, and the `%d` of `sprintf` that
  writes the pid into the lock file, with the round trip between them.
- `probes.dfy` (module `Probes`): `detect_anything` and `wlan_ready` as
  functions of the line their shell pipeline printed.
- `addresses.dfy` (module `Addresses`): `getAllLocalIPs`, which fills a
  10-slot array in a loop and is proved against `Selected` / `Collected` /
  `AddressSlots`, and the choice of the two LCD lines (`Display`).
- `lifecycle.dfy` (module `Lifecycle`): the globals as a value (`Globals`)
  and one function per step that changes them. The steps are
  `read_conf_file`, `test_conf_file`, `clean_to_stop`, `handle_signal`, the
  lock step of `daemonize`, one pass of the main loop, the whole loop, and
  `main`. The lemmas about runs are here.
- `daemon.dfy` (module `ShowStartupInfo`): the class `Daemon`, whose fields
  are the C globals. Each of its methods is proved to leave `State()` equal to
  the matching `Lifecycle` function of the old state. `Serve` holds the
  `while (running == 1)` loop.

What the process does to the outside is recorded in the state, not
performed. The state keeps the calls made on the lock file (`lockCalls`),
the two strings handed to `lcdPuts` on each pass (`screen`), and the argument
of each `sleep` (`naps`).

The environment is made of inputs:
- the files readable at a given moment (`FileSystem`);
- the interface list that `getifaddrs` returns, with the text `inet_ntop`
  writes for each address;
- the captured probe line;
- how the lock step ends;
- for each pass, whether the log write and flush succeed, and which signal,
  if any, interrupts that pass's `sleep`. This per-pass input is a total
  function `env: nat -> CycleInput`.

Bytes are `char`s with codes 0..255, read as unsigned, as on ARM. The text of
a C string is the part of its buffer before the first NUL.

## Behaviour of the code as written

The model follows the code. It proves the following facts about it:

- `test_conf_file` stores the value it reads into `sleepTime`. It is not a
  side-effect-free check (`Lifecycle.TestConf`).
- The interval is not checked for positivity. `"0"`, `" -3"` and `"5abc"` are
  all accepted (`Decimal.ScanAccepts`). A negative interval reaches `sleep` as
  a large unsigned value (`Lifecycle.SleepArg`).
- `clean_to_stop` resets neither `pid_fd` nor `pid_file_name`. If a SIGINT
  arrives during the sleep of the pass that spent the last unit of budget,
  every unlock, close and unlink is made twice (`Lifecycle.SigIntEndsLoop`,
  `Lifecycle.CleanToStopTwice`).
- A failed log write or flush leaves the loop without cleanup and the process
  exits with success (`Lifecycle.LogFailureLeavesLoop`,
  `Lifecycle.ServeFailsIff`).
- A failed i2c probe skips the loop entirely. `clean_to_stop` never runs, so
  a lock file taken by `daemonize` is left behind
  (`Lifecycle.DetectionFailureSkipsLoop`).
- The lock is taken only inside `daemonize`. Without `--daemon`, no lock
  file is created (`Lifecycle.StartRunning`, `Lifecycle.TakeLock`).
- Without `--daemon`, `clean_to_stop` still unlinks the path given as the
  pid file when the loop stops. This deletes a lock file another instance
  may hold (`Lifecycle.UndaemonizedRunUnlinksPidFile`).
- The lock file is opened without `O_TRUNC`, and only the bytes of the pid
  line are written at offset 0. A longer stale file keeps its tail
  (`Decimal.WrittenOver`, `Decimal.StaleTailKept`). `%d` still reads back
  the new pid, because the newline ends the number
  (`Decimal.LockFileReadBack`).
- An instance that cannot open or lock the pid file exits at once. It makes
  no call on the file beyond the failed `lockf` (`Lifecycle.TakeLock`).

## Model

| member | source | states |
|---|---|---|
| `CString.TrimRight` | src/show_startup_info.c:269-284 | the trimmed text is a prefix of the input that is empty or ends in a byte with code > 32, and every byte removed has code <= 32 |
| `CString.TrimRightIsLongest` | src/show_startup_info.c:274-283 | the kept prefix is exactly the one after which only bytes <= 32 follow and before which the last byte is > 32 (the loop's stopping point) |
| `CString.TrimRightIdempotent` | src/show_startup_info.c:269-284 | trimming a trimmed text changes nothing |
| `CString.TrimRightKeeps` | src/show_startup_info.c:276-282 | a byte with code > 32 is never removed, nor is anything before it |
| `CString.StrLen` | src/show_startup_info.c:271 | `strlen`: the index of the first NUL of the buffer |
| `CString.Text` | src/show_startup_info.c:271 | the text of a buffer holds no NUL |
| `CString.Stripped` | src/show_startup_info.c:269-284 | the buffer after the strip has the same length and is still NUL-terminated |
| `CString.StrippedText` | src/show_startup_info.c:269-284 | after the strip the buffer's text is the trimmed text; a byte is changed only if it had code <= 32, and it becomes NUL |
| `CString.StrippedIdempotent` | src/show_startup_info.c:269-284 | a second `stringStripRight` on the same buffer changes nothing |
| `CString.StripRight` | src/show_startup_info.c:269-284 | the in-place loop leaves the buffer equal to `Stripped` of the old buffer |
| `CString.StrNEqual` | src/show_startup_info.c:263 | `strncmp(a, b, n) == 0`: the bytes below `n` agree, up to and including the first NUL they share |
| `CString.StrNEqualIffPrefix` | src/show_startup_info.c:263 | against a NUL-free `b` of length `n`, `strncmp` reports equality iff the text `a` starts with `b` |
| `CString.StrStr` | src/show_startup_info.c:298 | `strstr` returns the first index at which the needle occurs, and none exactly when it occurs nowhere |
| `CString.TrimRightKeepsOccurrences` | src/show_startup_info.c:297-298 | a needle with no byte <= 32 occurs in the trimmed text iff it occurs in the untrimmed one |
| `Decimal.DigitValue` | src/show_startup_info.c:51 | a digit's value is below 10 |
| `Decimal.DigitChar` | src/show_startup_info.c:227 | the digit printed for a value below 10 reads back as that value |
| `Decimal.FormatNat` | src/show_startup_info.c:227 | `%d` prints a non-negative value as a non-empty run of digits with no leading zero |
| `Decimal.FormatInt` | src/show_startup_info.c:227 | `%d` text starts with a minus sign or a digit |
| `Decimal.SkipSpace` | src/show_startup_info.c:51 | `%d` first consumes white space: what is left is empty or starts with a non-space |
| `Decimal.LeadingDigits` | src/show_startup_info.c:51 | the digits `%d` reads are all decimal digits |
| `Decimal.LeadingDigitsLongest` | src/show_startup_info.c:51 | `%d` reads the longest run of digits: a prefix of the input, followed by no digit |
| `Decimal.ScanInt` | src/show_startup_info.c:51 | `fscanf(f, "%d", ...)` on an empty file is an input failure (`EOF`), and on content that starts with a digit it converts a non-negative value |
| `Decimal.ScanIntInputFailure` | src/show_startup_info.c:51 | the conversion is an input failure (`EOF`) exactly when the content is nothing but white space |
| `Decimal.ScanItem` | src/show_startup_info.c:51 | the conversion is an input failure exactly when nothing is left once white space has been consumed |
| `Decimal.ScanReturn` | src/show_startup_info.c:53 | `fscanf` returns a positive count exactly when the conversion succeeded |
| `Decimal.DigitsValueOfFormat` | src/show_startup_info.c:227 | the digits printed for `n` have the value `n` |
| `Decimal.ScanFormat` | src/show_startup_info.c:91 | `%d` text of `n`, followed by a non-digit, scans back to `n` |
| `Decimal.ScanFormatted` | src/show_startup_info.c:51 | the same after any leading white space (round trip of the interval file) |
| `Decimal.ScanAfterSpace` | src/show_startup_info.c:51 | leading white space does not change what `%d` reads |
| `Decimal.PidFileContent` | src/show_startup_info.c:227 | the bytes written to the lock file end in a newline after at least one character |
| `Decimal.PidFileRoundTrip` | src/show_startup_info.c:226-229 | the bytes written, read on their own with `%d`, give back the pid |
| `Decimal.WrittenOver` | src/show_startup_info.c:215-229 | a `write` at offset 0 to a file opened without `O_TRUNC` leaves the bytes written followed by whatever of the earlier content lies beyond them, and the file is as long as the longer of the two |
| `Decimal.PidFileReadBack` | src/show_startup_info.c:227-229 | whatever follows the bytes written, `%d` reads the pid from them |
| `Decimal.LockFileReadBack` | src/show_startup_info.c:215-229 | the lock file after the write, whatever it held before, reads back with `%d` as the pid |
| `Decimal.StaleTailKept` | src/show_startup_info.c:215-229 | a file holding "12345\n" becomes "987\n5\n" when pid 987 is written over it |
| `Decimal.ScanAccepts` | src/show_startup_info.c:51 | "5", "0", " -3\n" and "5abc" convert to 5, 0, -3 and 5 |
| `Decimal.ScanRefuses` | src/show_startup_info.c:51 | "abc" and "-" are matching failures; white space alone is an input failure |
| `Probes.DetectAnything` | src/show_startup_info.c:251-267 | the probe returns -2, -1 or 0, and -2 exactly when the pipeline cannot be started |
| `Probes.DetectIffPrefix` | src/show_startup_info.c:263-266 | the probe returns 0 iff the captured line starts with "20" |
| `Probes.WlanReady` | src/show_startup_info.c:286-302 | on the NUL-terminated `fgets` buffer, the probe returns -1, 0 or 1, and -1 exactly when the pipeline cannot be started |
| `Probes.WlanReadyIffSsid` | src/show_startup_info.c:297-301 | the probe returns 1 iff the buffer's text, up to its first NUL, contains "SSID" |
| `Probes.WlanReadyStopsAtNul` | src/show_startup_info.c:296-298 | a buffer whose first byte is NUL yields 0, even when "SSID" follows the NUL |
| `Addresses.Wanted` | src/show_startup_info.c:321-342 | the filter of the walk: an entry with an address, IPv4 and not "127.0.0.1" in IPv4 mode, IPv6 in IPv6 mode |
| `Addresses.Selected` | src/show_startup_info.c:319-343 | the texts of the wanted entries in list order, with no limit; `SelectedAppend` and `SelectedMembers` state its properties |
| `Addresses.Collected` | src/show_startup_info.c:319 | at most `MAX_IPS` addresses are collected |
| `Addresses.AddressSlots` | src/show_startup_info.c:313-316 | the returned array always has `MAX_IPS` = 10 slots |
| `Addresses.SelectedAppend` | src/show_startup_info.c:319-343 | the selection of a list is the selection of its parts, in order |
| `Addresses.SelectedStep` | src/show_startup_info.c:321-342 | one more entry adds its text exactly when it is wanted |
| `Addresses.CollectedAtStop` | src/show_startup_info.c:319 | once the walk stops (list ended or 10 held), what is held is what `Collected` says |
| `Addresses.SelectedMembers` | src/show_startup_info.c:321-342 | a text is selected iff some entry has an address of the requested family with that text and, in IPv4 mode, is not "127.0.0.1" |
| `Addresses.SlotsShape` | src/show_startup_info.c:313-341 | the collected addresses fill a prefix of the slots in list order, every later slot is NULL, and the prefix is 10 long exactly when at least 10 entries qualify |
| `Addresses.CollectedFamilies` | src/show_startup_info.c:325-342 | in IPv4 mode a collected address is an IPv4 entry's text other than "127.0.0.1"; in IPv6 mode it is an IPv6 entry's text, unfiltered |
| `Addresses.GetAllLocalIPs` | src/show_startup_info.c:305-347 | the loops return a fresh array equal to `AddressSlots` of the interface list |
| `Addresses.Display` | src/show_startup_info.c:512-538 | row 0 shows slot 0 and row 1 shows slot 1, or "" for a NULL slot; when slot 0 is NULL both rows are "", whatever slot 1 holds |
| `Addresses.DisplayOfCollected` | src/show_startup_info.c:512-538 | row 0 shows the first collected IPv4 address and row 1 the second, each "" when missing, and neither is ever "127.0.0.1" |
| `Lifecycle.Initial` | src/show_startup_info.c:26-31 | the globals start with `running` 0, `sleepTime` 1, `counter` 0, `pid_fd` -1 |
| `Lifecycle.ScanFile` | src/show_startup_info.c:43-51 | a scan outcome exists exactly when the file can be opened |
| `Lifecycle.ReadConf` | src/show_startup_info.c:38-72 | without a file name: 0 and no change; unopenable: -1 and no change; otherwise `sleepTime` changes exactly when `%d` converts, and then to the value converted |
| `Lifecycle.TestConf` | src/show_startup_info.c:77-105 | success iff the file opens and `%d` converts; on success `sleepTime` takes the value, on failure nothing changes |
| `Lifecycle.ReloadFormatted` | src/show_startup_info.c:51-67 | a file holding `%d` text of `n` and a newline sets the interval to `n` and returns 1 |
| `Lifecycle.CleanupCalls` | src/show_startup_info.c:107-120 | the lock file is unlocked and closed iff `pid_fd` is not -1, a path is unlinked iff it is the named pid file, that unlink is the last call, and the call count is 2 for the descriptor plus 1 for the path |
| `Lifecycle.CleanToStop` | src/show_startup_info.c:107-120 | `clean_to_stop` appends exactly `CleanupCalls` to the lock-file calls and resets nothing, neither `pid_fd` nor `pid_file_name` nor `running` |
| `Lifecycle.CleanToStopTwice` | src/show_startup_info.c:107-120 | a second `clean_to_stop` repeats every call of the first and changes nothing else |
| `Lifecycle.HandleSignal` | src/show_startup_info.c:125-144 | SIGINT runs the cleanup and sets `running` to 0; SIGHUP leaves the globals exactly as `read_conf_file` on the files at that moment does, so only `sleepTime` can change; SIGCHLD changes nothing |
| `Lifecycle.SleepArg` | src/show_startup_info.c:556 | `sleep` gets the interval modulo 2^32, which equals the interval when it is in range |
| `Lifecycle.Cycle` | src/show_startup_info.c:491-557 | a pass bumps the counter even when the log write fails; a failed write or flush breaks out before the budget is spent; otherwise it shows the LCD lines, spends one unit, cleans up and sets `running` to 0 when the budget reaches <= 0, and sleeps for the current interval; after a SIGHUP in that sleep the interval is the one `read_conf_file` reads from the files, and without one it is unchanged |
| `Lifecycle.CompletePass` | src/show_startup_info.c:512-556 | a pass whose log works shows one LCD entry and sleeps once for the current interval; it stops and cleans up when the budget is spent and cleans up again on SIGINT; SIGHUP sets the interval `read_conf_file` reads; nothing else changes |
| `Lifecycle.ShowAndCount` | src/show_startup_info.c:512-551 | the LCD entry of the pass is appended; at budget <= 0 the cleanup calls are made and `running` becomes 0; nothing else changes |
| `Lifecycle.SleepThrough` | src/show_startup_info.c:556 | one sleep of the current interval is recorded, then the interrupting signal acts as `handle_signal` does: SIGINT cleans up and stops, SIGHUP reloads the interval |
| `Lifecycle.RunLoop` | src/show_startup_info.c:491-557 | the `while (running == 1)` loop does nothing when `running` is not 1, never lowers the counter, and leaves the lock descriptor, the pid file name and the configuration file name alone |
| `Lifecycle.Shown` | src/show_startup_info.c:512-538 | the LCD entries of `n` passes are `n` entries |
| `Lifecycle.ShownStep` | src/show_startup_info.c:512-538 | the entries of a run of passes are those of its first pass followed by those of the rest |
| `Lifecycle.RunLoopInvariant` | src/show_startup_info.c:491-557 | a run ends with `running` 0 or 1, counts the passes it began, adds one LCD entry and one sleep per completed pass, only extends the logs, and leaves the lock file descriptor and path alone |
| `Lifecycle.QuietCycle` | src/show_startup_info.c:494-551 | a pass with a working log and no SIGINT completes, and cleans up and stops exactly when it spends the last unit |
| `Lifecycle.QuietRunExhausts` | src/show_startup_info.c:490-557 | with a working log and no SIGINT, the loop runs exactly `budget` passes, runs `clean_to_stop` once and ends with `running` 0 |
| `Lifecycle.QuietUnroll` | src/show_startup_info.c:491-557 | after a quiet pass the loop continues from that pass's globals, with its LCD entry added and `running` 0 exactly when the budget is spent |
| `Lifecycle.QuietRunScreens` | src/show_startup_info.c:512-538 | such a run shows, pass by pass, the LCD lines of each pass's own interface list |
| `Lifecycle.LogFailureLeavesLoop` | src/show_startup_info.c:494-507 | a failed write or flush leaves the loop with only the counter changed, `running` still 1 |
| `Lifecycle.SigIntEndsLoop` | src/show_startup_info.c:545-556 | a SIGINT ends the loop after its pass; the cleanup calls are made twice when that pass also spent the budget |
| `Lifecycle.SigHupReloadsNextSleep` | src/show_startup_info.c:135-139 | a SIGHUP in the sleep of a pass that leaves budget does not change that sleep, which used the old interval; the next pass, if its log works, sleeps for the reloaded interval |
| `Lifecycle.IntervalWithoutReload` | src/show_startup_info.c:125-144 | without SIGHUP the interval never changes and every sleep uses it |
| `Lifecycle.ExitStatus` | src/show_startup_info.c:574-577 | the process returns `EXIT_FAILURE` iff `running` ends negative |
| `Lifecycle.StartRunning` | src/show_startup_info.c:448-469 | before the loop `running` is 1, or -1 exactly when the i2c probe fails; the interval is the one `read_conf_file(0)` reads; no pass has run; without `--daemon` no lock call is made |
| `Lifecycle.Serve` | src/show_startup_info.c:447-577 | `main` returns `EXIT_SUCCESS` or `EXIT_FAILURE`; an exit at the lock step fails before any pass, and its only call on the lock file is the failed `lockf`, if it got that far; the file names are never changed |
| `Lifecycle.UndaemonizedRunUnlinksPidFile` | src/show_startup_info.c:116-119 | without `--daemon`, a quiet run with a pid file named makes exactly one call on it: the unlink at cleanup |
| `Lifecycle.TakeLock` | src/show_startup_info.c:212-230 | with a pid file named, the process exits unless the lock is taken; `pid_fd` becomes -1 when `open` fails and the descriptor otherwise; an exit makes no call on the file beyond the failed `lockf`; with the lock held it writes the pid followed by a newline; without a pid file nothing happens |
| `Lifecycle.ServeFailsIff` | src/show_startup_info.c:465-469 | `main` fails exactly when it stops at the lock step or the i2c probe fails, so a broken log still exits with success |
| `Lifecycle.DetectionFailureSkipsLoop` | src/show_startup_info.c:465-491 | a failed probe runs no pass, shows nothing, never sleeps and never cleans up |
| `Lifecycle.ServeQuietRunsTenPasses` | src/show_startup_info.c:490-557 | from the initial globals, with the probe answering and a working log and no SIGINT, exactly 10 passes run, one cleanup happens and the exit status is success |
| `ShowStartupInfo.Daemon.constructor` | src/show_startup_info.c:26-33 | the fields start as `Initial` says |
| `ShowStartupInfo.Daemon.ReadConfFile` | src/show_startup_info.c:38-72 | the method's new state and return value are `ReadConf` of the old state |
| `ShowStartupInfo.Daemon.TestConfFile` | src/show_startup_info.c:77-105 | the method's new state and status are `TestConf` of the old state |
| `ShowStartupInfo.Daemon.CleanToStop` | src/show_startup_info.c:107-120 | the method appends exactly `CleanupCalls` and changes nothing else |
| `ShowStartupInfo.Daemon.HandleSignal` | src/show_startup_info.c:125-144 | the method's new state is `HandleSignal` of the old one |
| `ShowStartupInfo.Daemon.TakeLock` | src/show_startup_info.c:212-230 | the method's new state and exit flag are `TakeLock` of the old state |
| `ShowStartupInfo.Daemon.RunCycle` | src/show_startup_info.c:491-557 | one pass of the loop body leaves state, budget and break flag as `Cycle` says |
| `ShowStartupInfo.Daemon.Serve` | src/show_startup_info.c:447-577 | the method, with its `while (running == 1)` loop, ends in the state and status `Serve` gives |

## Left out

- `daemonize` process plumbing (fork, setsid, ignoring SIGCHLD, the second
  fork, umask, chdir, closing descriptors, reopening stdio) and its exits on
  fork or setsid failure. These are irrevocable OS calls with no state this
  model keeps. Only the closing lock step is modelled, as an outcome given as
  input (`LockOutcome`).
- `popen`, `fgets` and `pclose` in the two probes. What `fgets` leaves is an
  input: the NUL-terminated buffer for `wlan_ready`, and its text for
  `detect_anything` (`strncmp` stops at the first NUL either way). The
  uninitialised buffer seen when `fgets` returns NULL is not modelled.
- `getifaddrs`, `inet_ntop` and `freeifaddrs`. The interface list and each
  address's text are inputs. A failing `getifaddrs` leaves the list NULL,
  which is the empty input list.
- `malloc`/`free` of the address array and its strings, including allocation
  failure. This is memory management, not behaviour.
- wiringPi, mcp23017, LCD initialisation, positioning and softPwm calls. Only
  the two strings passed to `lcdPuts` on each pass are kept.
- syslog, `openlog`/`closelog`, the text of every `fprintf` to the log or
  stderr, and opening, falling back from and closing the log file. A log
  write or flush is reduced to the success flag given for each pass.
- `sleep` itself, which is timing. Only its argument is recorded.
- Asynchronous signal delivery. A signal is a discrete event, at most one per
  pass, delivered during the `sleep` that ends a completed pass; signals at
  other moments are not modelled. After a SIGINT the loop ends, so the reset
  of SIGINT to its default action (a second SIGINT kills the process) is not
  modelled. The non-async-safe `fprintf` inside the handler is left out.
- `getopt_long` option parsing, `print_help`, and the `-t` and `-h` early
  returns from `main`. `test_conf_file` itself is modelled (`TestConf`,
  `Daemon.TestConfFile`). `Serve` starts after option parsing, with the two
  file names already set in the constructor.
- The `reload` argument of `read_conf_file`. It only chooses a syslog
  message.
- `Decimal.ScanInt`: `%d` input outside the range of `int` is undefined
  behaviour in C. The model converts to an unbounded integer instead.
- `Decimal.ScanItem`: a sign followed by end of file is a matching failure
  (`fscanf` returns 0), as section 7.21.6.2 of ISO C11 reads; some C
  libraries return `EOF` there. Either way the conversion fails and
  `sleepTime` keeps its value.
- `CString.Blank`: the `<= 32` test depends on the signedness of `char`.
  Bytes are read as unsigned (codes 0..255), as on ARM, so bytes 128..255 are
  never trimmed.
- `counter++` overflow is not modelled: at most ten passes run.
