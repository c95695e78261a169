/**
 * The program `show_startup_info` itself: its globals as the fields of one
 * object, and each function that updates them as a method proved to do
 * what the matching function of `Lifecycle` says.
 */
module ShowStartupInfo {
  import opened Wrappers
  import opened Decimal
  import opened Addresses
  import opened Lifecycle
  import Probes

  class Daemon {
    var running: int
    var sleepTime: int
    var counter: int
    var confFileName: Option<string>
    var pidFileName: Option<string>
    var pidFd: int
    var lockCalls: seq<LockCall>
    var screen: seq<Lines>
    var naps: seq<nat>

    /** The globals as a value. */
    function State(): Globals
      reads this
    {
      Globals(running, sleepTime, counter, confFileName, pidFileName, pidFd, lockCalls, screen, naps)
    }

    /** The static initialisers, then the file names the options `-c` and `-p` set. */
    constructor (confFileName: Option<string>, pidFileName: Option<string>)
      ensures State() == Initial(confFileName, pidFileName)
    {
      running := 0;
      sleepTime := 1;
      counter := 0;
      this.confFileName := confFileName;
      this.pidFileName := pidFileName;
      pidFd := -1;
      lockCalls := [];
      screen := [];
      naps := [];
    }

    /** `read_conf_file`; the `reload` flag only chooses the syslog message and is left out. */
    method ReadConfFile(fs: FileSystem) returns (ret: int)
      modifies this
      ensures (State(), ret) == ReadConf(old(State()), fs)
    {
      if confFileName.None? {
        return 0;
      }
      var name := confFileName.value;
      if name !in fs {
        return -1;
      }
      var scanned := ScanInt(fs[name]);
      if scanned.Converted? {
        sleepTime := scanned.value;
      }
      ret := ScanReturn(scanned);
    }

    /** `test_conf_file`, which also stores the value it reads in `sleepTime`. */
    method TestConfFile(name: string, fs: FileSystem) returns (status: int)
      modifies this
      ensures (State(), status) == TestConf(old(State()), name, fs)
    {
      if name !in fs {
        return EXIT_FAILURE;
      }
      var scanned := ScanInt(fs[name]);
      if scanned.Converted? {
        sleepTime := scanned.value;
      }
      status := if scanned.Converted? then EXIT_SUCCESS else EXIT_FAILURE;
    }

    /** `clean_to_stop`: unlock and close the lock file, then unlink it; nothing is reset. */
    method CleanToStop()
      modifies this
      ensures State() == Lifecycle.CleanToStop(old(State()))
    {
      if pidFd != -1 {
        lockCalls := lockCalls + [Unlock(pidFd)];
        lockCalls := lockCalls + [Close(pidFd)];
      }
      if pidFileName.Some? {
        lockCalls := lockCalls + [Unlink(pidFileName.value)];
      }
    }

    /** `handle_signal`. */
    method HandleSignal(sig: Signal)
      modifies this
      ensures State() == Lifecycle.HandleSignal(old(State()), sig)
    {
      match sig
      case SigInt =>
        CleanToStop();
        running := 0;
      case SigHup(fs) =>
        var _ := ReadConfFile(fs);
      case SigChld =>
    }

    /** The lock step at the end of `daemonize`; `exits` is true where it calls `exit(EXIT_FAILURE)`. */
    method TakeLock(outcome: LockOutcome) returns (exits: bool)
      modifies this
      ensures (State(), exits) == Lifecycle.TakeLock(old(State()), outcome)
    {
      if pidFileName.None? {
        return false;
      }
      match outcome
      case OpenFailed =>
        pidFd := -1;
        exits := true;
      case LockFailed(fd) =>
        pidFd := fd;
        lockCalls := lockCalls + [TryLock(fd)];
        exits := true;
      case Locked(fd, pid) =>
        pidFd := fd;
        lockCalls := lockCalls + [TryLock(fd), Write(fd, PidFileContent(pid))];
        exits := false;
    }

    /** One pass of the body of `while (running == 1)`, with `loop` passed in and out. */
    method RunCycle(budget: int, c: CycleInput) returns (left: int, broke: bool)
      modifies this
      ensures CycleResult(State(), left, broke) == Cycle(old(State()), budget, c)
    {
      counter := counter + 1;
      if !c.writeOk {
        return budget, true;
      }
      if !c.flushOk {
        return budget, true;
      }
      var ips := GetAllLocalIPs(c.interfaces, false);
      screen := screen + [Display(ips[..])];
      left := budget - 1;
      if left <= 0 {
        CleanToStop();
        running := 0;
      }
      naps := naps + [SleepArg(sleepTime)];
      if c.signal.Some? {
        HandleSignal(c.signal.value);
      }
      broke := false;
    }

    /** `main` from the end of option parsing to its `return`. */
    method Serve(s: Startup, env: nat -> CycleInput) returns (status: int)
      modifies this
      ensures (State(), status) == Lifecycle.Serve(old(State()), s, env)
    {
      ghost var g := State();
      if s.daemonize {
        var exits := TakeLock(s.lock);
        if exits {
          return EXIT_FAILURE;
        }
      }
      var _ := ReadConfFile(s.conf);
      running := 1;
      if Probes.DetectAnything(s.detect) < 0 {
        running := -1;
      }
      ghost var start := State();
      assert start == StartRunning(g, s);
      var budget := LOOP_BUDGET;
      var k := 0;
      while running == 1
        invariant RunLoop(State(), budget, env, k) == RunLoop(start, LOOP_BUDGET, env, 0)
        decreases (if running == 1 then 1 else 0) + (if budget > 0 then budget else 0)
      {
        ghost var before := State();
        ghost var spent := budget;
        var broke;
        budget, broke := RunCycle(budget, env(k));
        if broke {
          assert State() == RunLoop(before, spent, env, k);
          break;
        }
        k := k + 1;
      }
      status := ExitStatus(running);
    }
  }
}
