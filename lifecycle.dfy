/**
 * The daemon's control state as values: the globals of
 * `show_startup_info.c`, and one function per step that changes them
 * (`read_conf_file`, `test_conf_file`, `clean_to_stop`, `handle_signal`,
 * one pass of the `while (running == 1)` loop, the whole loop, and `main`
 * after option parsing). The class in daemon.dfy is proved to follow these.
 *
 * What the process does to the outside is recorded rather than performed:
 * the calls made on the lock file, the two strings handed to the LCD on
 * each pass, and the argument of each `sleep`.
 */
module Lifecycle {
  import opened Wrappers
  import opened Decimal
  import opened Addresses
  import Probes

  const EXIT_SUCCESS: int := 0
  const EXIT_FAILURE: int := 1

  /** The value the local `loop` starts from in `main`. */
  const LOOP_BUDGET: int := 10

  /** The files that can be opened for reading at some instant, with their content. */
  type FileSystem = map<string, string>

  /** A system call on the lock file, with the descriptor or path it is given. */
  datatype LockCall =
    | TryLock(fd: int)              // lockf(fd, F_TLOCK, 0)
    | Write(fd: int, data: string)  // write(fd, str, strlen(str))
    | Unlock(fd: int)               // lockf(fd, F_ULOCK, 0)
    | Close(fd: int)                // close(fd)
    | Unlink(path: string)          // unlink(path)

  /** The globals of the program, and what it has done so far to the outside. */
  datatype Globals = Globals(
    running: int,                  // 1 while the loop may go on, 0 once stopped, -1 after a failed start
    sleepTime: int,                // seconds between passes, as read from the configuration file
    counter: int,                  // passes begun
    confFileName: Option<string>,
    pidFileName: Option<string>,
    pidFd: int,                    // the lock file's descriptor, -1 when none was opened
    lockCalls: seq<LockCall>,      // calls made on the lock file, oldest first
    screen: seq<Lines>,            // the two LCD lines written by each completed pass
    naps: seq<nat>)                // the argument of each `sleep`

  /** The globals as the program starts, once options have set the two file names. */
  function Initial(confFileName: Option<string>, pidFileName: Option<string>): (g: Globals)
    ensures g.running == 0 && g.sleepTime == 1 && g.counter == 0 && g.pidFd == -1
    ensures g.lockCalls == [] && g.screen == [] && g.naps == []
  {
    Globals(0, 1, 0, confFileName, pidFileName, -1, [], [], [])
  }

  // ---------------------------------------------------------------------
  // Configuration

  /** The outcome of `fscanf(f, "%d", ...)` on the named file, when it can be opened. */
  function ScanFile(name: string, fs: FileSystem): (r: Option<ScanOutcome>)
    ensures r.Some? <==> name in fs
  {
    if name in fs then Some(ScanInt(fs[name])) else None
  }

  /**
   * `read_conf_file`: the new globals and the value returned. Without a
   * file name nothing happens and 0 is returned; a file that cannot be
   * opened gives -1; otherwise `fscanf`'s value is returned, and
   * `sleepTime` is assigned exactly when the conversion succeeds.
   */
  function ReadConf(g: Globals, fs: FileSystem): (r: (Globals, int))
    ensures g.confFileName.None? ==> r == (g, 0)
    ensures g.confFileName.Some? && g.confFileName.value !in fs ==> r == (g, -1)
    ensures r.1 > 0 <==> g.confFileName.Some? && g.confFileName.value in fs && ScanInt(fs[g.confFileName.value]).Converted?
    ensures r.1 > 0 ==> r.0 == g.(sleepTime := ScanInt(fs[g.confFileName.value]).value)
    ensures r.1 <= 0 ==> r.0 == g
  {
    match g.confFileName
    case None => (g, 0)
    case Some(name) =>
      match ScanFile(name, fs)
      case None => (g, -1)
      case Some(Converted(v)) => (g.(sleepTime := v), 1)
      case Some(failed) => (g, ScanReturn(failed))
  }

  /**
   * `test_conf_file`: success exactly when the named file opens and its
   * `%d` conversion succeeds. Like `read_conf_file`, it stores the value
   * converted into `sleepTime`.
   */
  function TestConf(g: Globals, name: string, fs: FileSystem): (r: (Globals, int))
    ensures r.1 == EXIT_SUCCESS || r.1 == EXIT_FAILURE
    ensures r.1 == EXIT_SUCCESS <==> name in fs && ScanInt(fs[name]).Converted?
    ensures r.1 == EXIT_SUCCESS ==> r.0 == g.(sleepTime := ScanInt(fs[name]).value)
    ensures r.1 == EXIT_FAILURE ==> r.0 == g
  {
    match ScanFile(name, fs)
    case None => (g, EXIT_FAILURE)
    case Some(Converted(v)) => (g.(sleepTime := v), EXIT_SUCCESS)
    case Some(_) => (g, EXIT_FAILURE)
  }

  /** A configuration file holding `%d` text for `n`, then a newline, sets the interval to `n`. */
  lemma ReloadFormatted(g: Globals, fs: FileSystem, n: int)
    requires g.confFileName.Some? && g.confFileName.value in fs
    requires fs[g.confFileName.value] == FormatInt(n) + "\n"
    ensures ReadConf(g, fs) == (g.(sleepTime := n), 1)
  {
    ScanFormatted([], n, "\n");
    assert [] + FormatInt(n) + "\n" == FormatInt(n) + "\n";
  }

  // ---------------------------------------------------------------------
  // Shutdown and signals

  /** The calls `clean_to_stop` makes: unlock and close a descriptor other than -1, unlink a set path. */
  function CleanupCalls(pidFd: int, pidFileName: Option<string>): (calls: seq<LockCall>)
    ensures Unlock(pidFd) in calls <==> pidFd != -1
    ensures pidFileName.Some? ==> calls != [] && calls[|calls| - 1] == Unlink(pidFileName.value)
    ensures Close(pidFd) in calls <==> pidFd != -1
    ensures forall p :: Unlink(p) in calls <==> pidFileName == Some(p)
    ensures |calls| == (if pidFd != -1 then 2 else 0) + (if pidFileName.Some? then 1 else 0)
    ensures calls == [] <==> pidFd == -1 && pidFileName.None?
  {
    (if pidFd != -1 then [Unlock(pidFd), Close(pidFd)] else []) +
    (if pidFileName.Some? then [Unlink(pidFileName.value)] else [])
  }

  /** `clean_to_stop`: it makes its calls and resets neither `pid_fd` nor `pid_file_name`. */
  function CleanToStop(g: Globals): (r: Globals)
    ensures |g.lockCalls| <= |r.lockCalls| && r.lockCalls[..|g.lockCalls|] == g.lockCalls
    ensures r.lockCalls[|g.lockCalls|..] == CleanupCalls(g.pidFd, g.pidFileName)
    ensures r.pidFd == g.pidFd && r.pidFileName == g.pidFileName && r.running == g.running
    ensures r.(lockCalls := g.lockCalls) == g
  {
    g.(lockCalls := g.lockCalls + CleanupCalls(g.pidFd, g.pidFileName))
  }

  /** Because nothing is reset, a second `clean_to_stop` repeats every call of the first. */
  lemma CleanToStopTwice(g: Globals)
    ensures CleanToStop(CleanToStop(g)).lockCalls ==
      g.lockCalls + CleanupCalls(g.pidFd, g.pidFileName) + CleanupCalls(g.pidFd, g.pidFileName)
    ensures CleanToStop(CleanToStop(g)) == CleanToStop(g).(lockCalls := CleanToStop(CleanToStop(g)).lockCalls)
  {
  }

  /** The signals `handle_signal` distinguishes. SIGHUP carries the files as they are when it arrives. */
  datatype Signal = SigInt | SigHup(fs: FileSystem) | SigChld

  /**
   * `handle_signal`: SIGINT cleans up and stops the loop, SIGHUP re-reads
   * the configuration, SIGCHLD is only logged.
   */
  function HandleSignal(g: Globals, sig: Signal): (r: Globals)
    ensures r.running == if sig.SigInt? then 0 else g.running
    ensures sig.SigInt? ==> r.lockCalls == g.lockCalls + CleanupCalls(g.pidFd, g.pidFileName)
    ensures !sig.SigInt? ==> r.lockCalls == g.lockCalls
    ensures !sig.SigHup? ==> r.sleepTime == g.sleepTime
    ensures sig.SigHup? ==> r == ReadConf(g, sig.fs).0
    ensures sig.SigChld? ==> r == g
    ensures r.counter == g.counter && r.screen == g.screen && r.naps == g.naps
    ensures r.pidFd == g.pidFd && r.pidFileName == g.pidFileName && r.confFileName == g.confFileName
  {
    match sig
    case SigInt => CleanToStop(g).(running := 0)
    case SigHup(fs) => ReadConf(g, fs).0
    case SigChld => g
  }

  // ---------------------------------------------------------------------
  // The work loop

  /**
   * What the outside does during one pass: whether the log `fprintf` and
   * `fflush` succeed, the interface list `getifaddrs` returns, and the
   * signal, if any, that interrupts the `sleep` closing the pass.
   */
  datatype CycleInput = CycleInput(writeOk: bool, flushOk: bool, interfaces: seq<Interface>, signal: Option<Signal>)

  /** The globals after a pass, the budget left, and whether the pass left the loop by `break`. */
  datatype CycleResult = CycleResult(globals: Globals, budget: int, broke: bool)

  /** `sleep` takes an `unsigned int`: the interval converted modulo 2^32. */
  function SleepArg(t: int): (secs: nat)
    ensures secs < 0x1_0000_0000
    ensures 0 <= t < 0x1_0000_0000 ==> secs == t
  {
    t % 0x1_0000_0000
  }

  /**
   * One pass of the loop with budget `budget`: the counter is bumped before
   * the log write, a failed write or flush leaves the loop at once;
   * otherwise the pass writes the LCD, spends one unit of budget, cleans up
   * and stops when the budget is spent, and sleeps.
   */
  function Cycle(g: Globals, budget: int, c: CycleInput): (r: CycleResult)
    ensures r.globals.counter == g.counter + 1
    ensures r.broke <==> !(c.writeOk && c.flushOk)
    ensures r.broke ==> r.globals == g.(counter := g.counter + 1) && r.budget == budget
    ensures !r.broke ==> r.budget == budget - 1
    ensures !r.broke ==> r.globals.screen == g.screen + [Display(AddressSlots(c.interfaces, false))]
    ensures !r.broke ==> r.globals.naps == g.naps + [SleepArg(g.sleepTime)]
    ensures !r.broke && r.budget <= 0 ==> r.globals.running == 0
    ensures r.globals.running == g.running || r.globals.running == 0
    ensures r.globals.pidFd == g.pidFd && r.globals.pidFileName == g.pidFileName
    ensures r.globals.confFileName == g.confFileName
    ensures !r.broke ==> (r.globals.lockCalls == g.lockCalls
      + (if r.budget <= 0 then CleanupCalls(g.pidFd, g.pidFileName) else [])
      + (if c.signal == Some(SigInt) then CleanupCalls(g.pidFd, g.pidFileName) else []))
    ensures !(c.signal.Some? && c.signal.value.SigHup?) ==> r.globals.sleepTime == g.sleepTime
    ensures !r.broke && c.signal.Some? && c.signal.value.SigHup? ==>
      r.globals.sleepTime == ReadConf(g, c.signal.value.fs).0.sleepTime
  {
    var g1 := g.(counter := g.counter + 1);
    if !c.writeOk || !c.flushOk then CycleResult(g1, budget, true)
    else CycleResult(CompletePass(g1, budget, c), budget - 1, false)
  }

  /**
   * The rest of a pass once the log write and flush succeeded: the LCD
   * lines, the budget check with its cleanup, the sleep, and the signal
   * that interrupts the sleep.
   */
  function CompletePass(g: Globals, budget: int, c: CycleInput): (r: Globals)
    ensures r.counter == g.counter
    ensures r.screen == g.screen + [Display(AddressSlots(c.interfaces, false))]
    ensures r.naps == g.naps + [SleepArg(g.sleepTime)]
    ensures budget - 1 <= 0 ==> r.running == 0
    ensures r.running == g.running || r.running == 0
    ensures r.pidFd == g.pidFd && r.pidFileName == g.pidFileName && r.confFileName == g.confFileName
    ensures r.lockCalls == g.lockCalls
      + (if budget - 1 <= 0 then CleanupCalls(g.pidFd, g.pidFileName) else [])
      + (if c.signal == Some(SigInt) then CleanupCalls(g.pidFd, g.pidFileName) else [])
    ensures !(c.signal.Some? && c.signal.value.SigHup?) ==> r.sleepTime == g.sleepTime
    ensures c.signal.Some? && c.signal.value.SigHup? ==> r.sleepTime == ReadConf(g, c.signal.value.fs).0.sleepTime
  {
    SleepThrough(ShowAndCount(g, budget, c.interfaces), c.signal)
  }

  /** The LCD lines of the pass, then `loop--` with the cleanup and stop once it reaches 0. */
  function ShowAndCount(g: Globals, budget: int, interfaces: seq<Interface>): (r: Globals)
    ensures r.screen == g.screen + [Display(AddressSlots(interfaces, false))]
    ensures r.running == if budget - 1 <= 0 then 0 else g.running
    ensures r.lockCalls == g.lockCalls + (if budget - 1 <= 0 then CleanupCalls(g.pidFd, g.pidFileName) else [])
    ensures r.(screen := g.screen, running := g.running, lockCalls := g.lockCalls) == g
  {
    var g2 := g.(screen := g.screen + [Display(AddressSlots(interfaces, false))]);
    if budget - 1 <= 0 then CleanToStop(g2).(running := 0) else g2
  }

  /** The `sleep` that closes a pass, and the signal, if any, that interrupts it. */
  function SleepThrough(g: Globals, signal: Option<Signal>): (r: Globals)
    ensures r.naps == g.naps + [SleepArg(g.sleepTime)]
    ensures r.counter == g.counter && r.screen == g.screen
    ensures r.running == (if signal == Some(SigInt) then 0 else g.running)
    ensures r.pidFd == g.pidFd && r.pidFileName == g.pidFileName && r.confFileName == g.confFileName
    ensures r.lockCalls == g.lockCalls + (if signal == Some(SigInt) then CleanupCalls(g.pidFd, g.pidFileName) else [])
    ensures !(signal.Some? && signal.value.SigHup?) ==> r.sleepTime == g.sleepTime
    ensures signal.Some? && signal.value.SigHup? ==> r.sleepTime == ReadConf(g, signal.value.fs).0.sleepTime
  {
    var g4 := g.(naps := g.naps + [SleepArg(g.sleepTime)]);
    if signal.Some? then HandleSignal(g4, signal.value) else g4
  }

  /**
   * `while (running == 1) { ... }` from pass number `k` on, the outside
   * behaving as `env` says for each pass.
   */
  function RunLoop(g: Globals, budget: int, env: nat -> CycleInput, k: nat): (r: Globals)
    ensures g.running != 1 ==> r == g
    ensures r.pidFd == g.pidFd && r.pidFileName == g.pidFileName && r.confFileName == g.confFileName
    ensures r.counter >= g.counter
    decreases (if g.running == 1 then 1 else 0) + (if budget > 0 then budget else 0)
  {
    if g.running != 1 then g
    else
      var c := Cycle(g, budget, env(k));
      if c.broke then c.globals else RunLoop(c.globals, c.budget, env, k + 1)
  }

  /**
   * What any run of the loop keeps: `running` ends at 0 or stays 1, the
   * counter grows by the passes begun, each completed pass adds one LCD
   * entry and one sleep, the logs only grow, and the lock file's
   * descriptor and path are untouched.
   */
  lemma {:induction false} RunLoopInvariant(g: Globals, budget: int, env: nat -> CycleInput, k: nat)
    ensures var r := RunLoop(g, budget, env, k);
      && (g.running != 1 ==> r == g)
      && (g.running == 1 ==> r.running == 0 || r.running == 1)
      && |r.screen| - |g.screen| <= r.counter - g.counter <= |r.screen| - |g.screen| + 1
      && |r.naps| - |g.naps| == |r.screen| - |g.screen|
      && g.screen <= r.screen && g.naps <= r.naps && g.lockCalls <= r.lockCalls
      && r.pidFd == g.pidFd && r.pidFileName == g.pidFileName && r.confFileName == g.confFileName
    decreases (if g.running == 1 then 1 else 0) + (if budget > 0 then budget else 0)
  {
    if g.running == 1 {
      var c := Cycle(g, budget, env(k));
      if !c.broke {
        RunLoopInvariant(c.globals, c.budget, env, k + 1);
      }
    }
  }

  /** The LCD entries passes `k` to `k + n - 1` write when none of them breaks off. */
  function Shown(env: nat -> CycleInput, k: nat, n: nat): (lines: seq<Lines>)
    ensures |lines| == n
  {
    seq(n, i requires 0 <= i < n => Display(AddressSlots(env(k + i).interfaces, false)))
  }

  lemma ShownStep(env: nat -> CycleInput, k: nat, n: nat)
    requires n >= 1
    ensures Shown(env, k, n) == [Display(AddressSlots(env(k).interfaces, false))] + Shown(env, k + 1, n - 1)
  {
    var a := Shown(env, k, n);
    var b := [Display(AddressSlots(env(k).interfaces, false))] + Shown(env, k + 1, n - 1);
    forall i | 0 <= i < n ensures a[i] == b[i] {
      if i > 0 { assert k + i == (k + 1) + (i - 1); }
    }
  }

  lemma AppendAssoc<T>(a: seq<T>, b: seq<T>, c: seq<T>)
    ensures (a + b) + c == a + (b + c)
  {
  }

  /** A pass in which the log works and no SIGINT arrives. */
  predicate Quiet(c: CycleInput)
  {
    c.writeOk && c.flushOk && !(c.signal.Some? && c.signal.value.SigInt?)
  }

  /** One quiet pass: it completes, and cleans up and stops exactly when it spends the last unit. */
  lemma QuietCycle(g: Globals, budget: int, c: CycleInput)
    requires g.running == 1 && Quiet(c)
    ensures var r := Cycle(g, budget, c);
      && !r.broke && r.budget == budget - 1
      && r.globals.counter == g.counter + 1
      && r.globals.screen == g.screen + [Display(AddressSlots(c.interfaces, false))]
      && r.globals.running == (if budget - 1 <= 0 then 0 else 1)
      && r.globals.lockCalls == g.lockCalls + (if budget - 1 <= 0 then CleanupCalls(g.pidFd, g.pidFileName) else [])
      && r.globals.pidFd == g.pidFd && r.globals.pidFileName == g.pidFileName
  {
    var r := Cycle(g, budget, c);
    assert c.signal != Some(SigInt);
    assert r.globals.lockCalls == g.lockCalls + (if budget - 1 <= 0 then CleanupCalls(g.pidFd, g.pidFileName) else []) + [];
  }

  /**
   * With the log working and no SIGINT, the loop runs exactly `budget`
   * passes, runs `clean_to_stop` exactly once, and stops with `running`
   * at 0.
   */
  lemma {:induction false} QuietRunExhausts(g: Globals, budget: int, env: nat -> CycleInput, k: nat)
    requires g.running == 1 && budget >= 1
    requires forall i | k <= i < k + budget :: Quiet(env(i))
    ensures var r := RunLoop(g, budget, env, k);
      && r.running == 0
      && r.counter == g.counter + budget
      && r.lockCalls == g.lockCalls + CleanupCalls(g.pidFd, g.pidFileName)
    decreases budget
  {
    assert Quiet(env(k));
    QuietCycle(g, budget, env(k));
    var next := Cycle(g, budget, env(k)).globals;
    if budget > 1 {
      assert forall i | k + 1 <= i < (k + 1) + (budget - 1) :: Quiet(env(i));
      QuietRunExhausts(next, budget - 1, env, k + 1);
    } else {
      assert RunLoop(next, budget - 1, env, k + 1) == next;
    }
  }

  /** A quiet pass, seen from the loop: the rest of the run starts from its new globals. */
  lemma QuietUnroll(g: Globals, budget: int, env: nat -> CycleInput, k: nat) returns (next: Globals)
    requires g.running == 1 && Quiet(env(k))
    ensures RunLoop(g, budget, env, k) == RunLoop(next, budget - 1, env, k + 1)
    ensures next.screen == g.screen + [Display(AddressSlots(env(k).interfaces, false))]
    ensures next.running == (if budget - 1 <= 0 then 0 else 1)
  {
    QuietCycle(g, budget, env(k));
    next := Cycle(g, budget, env(k)).globals;
  }

  /** The passes of a quiet run write, in order, the LCD lines of their own interface lists. */
  lemma {:induction false} QuietRunScreens(g: Globals, budget: int, env: nat -> CycleInput, k: nat)
    requires g.running == 1 && budget >= 1
    requires forall i | k <= i < k + budget :: Quiet(env(i))
    ensures RunLoop(g, budget, env, k).screen == g.screen + Shown(env, k, budget)
    decreases budget
  {
    assert Quiet(env(k));
    var next := QuietUnroll(g, budget, env, k);
    ShownStep(env, k, budget);
    var shown := Display(AddressSlots(env(k).interfaces, false));
    if budget > 1 {
      assert forall i | k + 1 <= i < (k + 1) + (budget - 1) :: Quiet(env(i));
      QuietRunScreens(next, budget - 1, env, k + 1);
      var rest := Shown(env, k + 1, budget - 1);
      AppendAssoc(g.screen, [shown], rest);
    } else {
      assert RunLoop(next, budget - 1, env, k + 1) == next;
      assert Shown(env, k + 1, 0) == [];
      assert [shown] + Shown(env, k + 1, 0) == [shown];
    }
  }

  /** A failed log write or flush leaves the loop with `running` still 1 and no cleanup. */
  lemma LogFailureLeavesLoop(g: Globals, budget: int, env: nat -> CycleInput, k: nat)
    requires g.running == 1
    requires !(env(k).writeOk && env(k).flushOk)
    ensures RunLoop(g, budget, env, k) == g.(counter := g.counter + 1)
  {
  }

  /**
   * A SIGINT during the sleep of a pass ends the loop after that pass.
   * When that pass also spent the last unit of budget, `clean_to_stop`
   * has run twice and every call on the lock file is repeated.
   */
  lemma SigIntEndsLoop(g: Globals, budget: int, env: nat -> CycleInput, k: nat)
    requires g.running == 1
    requires env(k).writeOk && env(k).flushOk && env(k).signal == Some(SigInt)
    ensures var r := RunLoop(g, budget, env, k); var calls := CleanupCalls(g.pidFd, g.pidFileName);
      && r.running == 0
      && r.counter == g.counter + 1
      && r.lockCalls == if budget - 1 <= 0 then g.lockCalls + calls + calls else g.lockCalls + calls
  {
  }

  /** Only SIGHUP changes the interval: without one, every sleep uses the interval the loop began with. */
  lemma {:induction false} IntervalWithoutReload(g: Globals, budget: int, env: nat -> CycleInput, k: nat)
    requires forall i | i >= k :: !(env(i).signal.Some? && env(i).signal.value.SigHup?)
    ensures var r := RunLoop(g, budget, env, k);
      && r.sleepTime == g.sleepTime
      && forall j | |g.naps| <= j < |r.naps| :: r.naps[j] == SleepArg(g.sleepTime)
    decreases (if g.running == 1 then 1 else 0) + (if budget > 0 then budget else 0)
  {
    if g.running == 1 {
      var c := Cycle(g, budget, env(k));
      assert !(env(k).signal.Some? && env(k).signal.value.SigHup?);
      if !c.broke {
        IntervalWithoutReload(c.globals, c.budget, env, k + 1);
        RunLoopInvariant(c.globals, c.budget, env, k + 1);
      }
    }
  }

  /**
   * A SIGHUP during the sleep of a pass that leaves budget reloads the
   * interval: that sleep used the old interval, and the next pass, if its
   * log works, sleeps for the one the files give.
   */
  lemma SigHupReloadsNextSleep(g: Globals, budget: int, env: nat -> CycleInput, k: nat, fs: FileSystem)
    requires g.running == 1 && budget > 1
    requires env(k).writeOk && env(k).flushOk && env(k).signal == Some(SigHup(fs))
    requires env(k + 1).writeOk && env(k + 1).flushOk
    ensures var r := RunLoop(g, budget, env, k);
      && |r.naps| >= |g.naps| + 2
      && r.naps[|g.naps|] == SleepArg(g.sleepTime)
      && r.naps[|g.naps| + 1] == SleepArg(ReadConf(g, fs).0.sleepTime)
  {
    var c1 := Cycle(g, budget, env(k));
    var g1 := c1.globals;
    assert g1.running == 1;
    var c2 := Cycle(g1, c1.budget, env(k + 1));
    RunLoopInvariant(c2.globals, c2.budget, env, k + 2);
  }

  // ---------------------------------------------------------------------
  // The process

  /** The exit status `main` returns: failure exactly when `running` ends negative. */
  function ExitStatus(running: int): (status: int)
    ensures status == EXIT_FAILURE <==> running < 0
    ensures status == EXIT_SUCCESS <==> running >= 0
  {
    if running < 0 then EXIT_FAILURE else EXIT_SUCCESS
  }

  /** How the lock step of `daemonize` goes: `open` fails, `lockf` fails, or the lock is held. */
  datatype LockOutcome = OpenFailed | LockFailed(fd: nat) | Locked(fd: nat, pid: int)

  /**
   * The lock step that ends `daemonize`, when a pid file is named: open it,
   * lock it without waiting, write the pid. The flag says the process exits
   * there with failure.
   */
  function TakeLock(g: Globals, outcome: LockOutcome): (r: (Globals, bool))
    ensures g.pidFileName.None? ==> r == (g, false)
    ensures r.1 <==> g.pidFileName.Some? && !outcome.Locked?
    ensures g.pidFileName.Some? ==> r.0.pidFd == if outcome.OpenFailed? then -1 else outcome.fd
    ensures r.1 ==> r.0.lockCalls == g.lockCalls + (if outcome.LockFailed? then [TryLock(outcome.fd)] else [])
    ensures g.pidFileName.Some? && outcome.Locked? ==>
      r.0.pidFd == outcome.fd && r.0.lockCalls == g.lockCalls + [TryLock(outcome.fd), Write(outcome.fd, PidFileContent(outcome.pid))]
    ensures r.0.running == g.running && r.0.counter == g.counter && r.0.sleepTime == g.sleepTime
    ensures r.0.screen == g.screen && r.0.naps == g.naps
    ensures r.0.pidFileName == g.pidFileName && r.0.confFileName == g.confFileName
  {
    if g.pidFileName.None? then (g, false)
    else
      match outcome
      case OpenFailed => (g.(pidFd := -1), true)
      case LockFailed(fd) => (g.(pidFd := fd, lockCalls := g.lockCalls + [TryLock(fd)]), true)
      case Locked(fd, pid) => (g.(pidFd := fd, lockCalls := g.lockCalls + [TryLock(fd), Write(fd, PidFileContent(pid))]), false)
  }

  /**
   * What happens outside the loop: whether `--daemon` was given, how the
   * lock step goes, the files at the initial configuration read, and the
   * line the i2c probe captures.
   */
  datatype Startup = Startup(daemonize: bool, lock: LockOutcome, conf: FileSystem, detect: Option<string>)

  /** The process exits during `daemonize`, at the lock step. */
  predicate ExitsAtLock(g: Globals, s: Startup)
  {
    s.daemonize && TakeLock(g, s.lock).1
  }

  /** `running` as the loop first tests it: 1, or -1 when no i2c device answers at 0x20. */
  function StartRunning(g: Globals, s: Startup): (r: Globals)
    requires !ExitsAtLock(g, s)
    ensures r.running == 1 || r.running == -1
    ensures r.running == -1 <==> Probes.DetectAnything(s.detect) < 0
    ensures r.sleepTime == ReadConf(g, s.conf).0.sleepTime
    ensures r.counter == g.counter && r.screen == g.screen && r.naps == g.naps
    ensures !s.daemonize ==> r.pidFd == g.pidFd && r.lockCalls == g.lockCalls
  {
    var g1 := if s.daemonize then TakeLock(g, s.lock).0 else g;
    var g2 := ReadConf(g1, s.conf).0.(running := 1);
    if Probes.DetectAnything(s.detect) < 0 then g2.(running := -1) else g2
  }

  /** `main` after option parsing: the final globals and the exit status. */
  function Serve(g: Globals, s: Startup, env: nat -> CycleInput): (r: (Globals, int))
    ensures r.1 == EXIT_SUCCESS || r.1 == EXIT_FAILURE
    ensures ExitsAtLock(g, s) ==> r.1 == EXIT_FAILURE && r.0.counter == g.counter && r.0.screen == g.screen
    ensures ExitsAtLock(g, s) ==> r.0.lockCalls == g.lockCalls + (if s.lock.LockFailed? then [TryLock(s.lock.fd)] else [])
    ensures r.0.confFileName == g.confFileName && r.0.pidFileName == g.pidFileName
  {
    if ExitsAtLock(g, s) then (TakeLock(g, s.lock).0, EXIT_FAILURE)
    else
      var last := RunLoop(StartRunning(g, s), LOOP_BUDGET, env, 0);
      (last, ExitStatus(last.running))
  }

  /**
   * The process exits with failure exactly when it stops at the lock step
   * or the i2c probe fails; a broken log stream still exits with success.
   */
  lemma ServeFailsIff(g: Globals, s: Startup, env: nat -> CycleInput)
    ensures Serve(g, s, env).1 == EXIT_FAILURE <==>
      ExitsAtLock(g, s) || Probes.DetectAnything(s.detect) < 0
  {
    if !ExitsAtLock(g, s) {
      RunLoopInvariant(StartRunning(g, s), LOOP_BUDGET, env, 0);
    }
  }

  /**
   * A failed probe skips the loop: no pass, no LCD write, no sleep, and no
   * `clean_to_stop`, so a lock file taken by `daemonize` stays in place.
   */
  lemma DetectionFailureSkipsLoop(g: Globals, s: Startup, env: nat -> CycleInput)
    requires !ExitsAtLock(g, s) && Probes.DetectAnything(s.detect) < 0
    ensures var r := Serve(g, s, env).0;
      && r.counter == g.counter && r.screen == g.screen && r.naps == g.naps
      && r.running == -1
      && r.lockCalls == (if s.daemonize then TakeLock(g, s.lock).0 else g).lockCalls
  {
  }

  /**
   * From the initial globals, with the probe answering and every pass
   * quiet, the daemon runs exactly ten passes, runs `clean_to_stop` once,
   * and exits with success.
   */
  lemma ServeQuietRunsTenPasses(conf: Option<string>, pid: Option<string>, s: Startup, env: nat -> CycleInput)
    requires !ExitsAtLock(Initial(conf, pid), s) && Probes.DetectAnything(s.detect) >= 0
    requires forall i | 0 <= i < LOOP_BUDGET :: Quiet(env(i))
    ensures var g := Initial(conf, pid); var (r, status) := Serve(g, s, env); var start := StartRunning(g, s);
      && status == EXIT_SUCCESS
      && r.running == 0
      && r.counter == LOOP_BUDGET
      && r.screen == Shown(env, 0, LOOP_BUDGET)
      && r.lockCalls == start.lockCalls + CleanupCalls(start.pidFd, start.pidFileName)
  {
    var g := Initial(conf, pid);
    var start := StartRunning(g, s);
    assert forall i | 0 <= i < 0 + LOOP_BUDGET :: Quiet(env(i));
    QuietRunExhausts(start, LOOP_BUDGET, env, 0);
    QuietRunScreens(start, LOOP_BUDGET, env, 0);
  }

  /**
   * Without `--daemon` no lock is taken, yet `clean_to_stop` still unlinks
   * the path given as the pid file: a quiet run's only call on it is the
   * unlink, which removes a lock file another instance may hold.
   */
  lemma UndaemonizedRunUnlinksPidFile(conf: Option<string>, path: string, s: Startup, env: nat -> CycleInput)
    requires !s.daemonize && Probes.DetectAnything(s.detect) >= 0
    requires forall i | 0 <= i < LOOP_BUDGET :: Quiet(env(i))
    ensures Serve(Initial(conf, Some(path)), s, env).0.lockCalls == [Unlink(path)]
  {
    var g := Initial(conf, Some(path));
    assert !ExitsAtLock(g, s);
    ServeQuietRunsTenPasses(conf, Some(path), s, env);
    var start := StartRunning(g, s);
    assert start.pidFd == -1 && start.lockCalls == [] && start.pidFileName == Some(path);
  }
}
