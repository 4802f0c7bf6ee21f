/**
 * The oscillation controller, seen from the parent process. Each cycle logs,
 * forks a child that re-runs the program with `-m <oscillate_mib>`, holds for
 * the period plus a boot allowance, sends that child SIGTERM, logs, and idles
 * for the period. `fork` is an oracle (one result per cycle), time a logical
 * clock in milliseconds, and the effects an appended event log; the number of
 * fork results bounds the otherwise endless loop.
 */
module Oscillator {
  import opened Optional
  import opened Unsigned
  import opened Decimal
  import opened Events
  import opened Startup
  import opened CommandLine

  /** Extra hold time that lets the child finish booting and allocating. */
  const CHILD_BOOT_WAIT_EXTRA_MS: u32 := 300

  /** What `fork` returns to the parent: a nonzero `pid_t` (-1 when it failed). */
  type ParentPid = p: int | p != 0 && -0x8000_0000 <= p < 0x8000_0000 witness 1

  /** The argument vector handed to `execvp` in the child. */
  function ChildArgv(programPath: string, oscillateMib: u32): (argv: seq<string>)
    ensures |argv| == 3 && argv[0] == programPath && argv[1] == "-m"
    ensures Canonical(argv[2]) && ParseUnsigned(argv[2]) == Some(oscillateMib)
  {
    ParseToDecimal(oscillateMib);
    [programPath, "-m", ToDecimal(oscillateMib)]
  }

  /** `oscillate_time_ms + kChildBootWaitExtraMs` in `unsigned` arithmetic. */
  function HoldMs(t: u32): (r: u32)
    ensures t + CHILD_BOOT_WAIT_EXTRA_MS <= UINT_MAX ==> r == t + CHILD_BOOT_WAIT_EXTRA_MS
    ensures t + CHILD_BOOT_WAIT_EXTRA_MS > UINT_MAX ==>
      r == t + CHILD_BOOT_WAIT_EXTRA_MS - TWO_TO_32 && r < CHILD_BOOT_WAIT_EXTRA_MS
  {
    Add(t, CHILD_BOOT_WAIT_EXTRA_MS)
  }

  /** Time from one fork to the next. */
  function PeriodMs(t: u32): (r: nat)
    ensures r >= t
    ensures t + CHILD_BOOT_WAIT_EXTRA_MS <= UINT_MAX ==> r == 2 * t + CHILD_BOOT_WAIT_EXTRA_MS
    ensures t + CHILD_BOOT_WAIT_EXTRA_MS > UINT_MAX ==> r < t + CHILD_BOOT_WAIT_EXTRA_MS
  {
    HoldMs(t) + t
  }

  /** The six events of one cycle that starts at `start`. */
  function Cycle(pid: ParentPid, start: nat, t: u32, argv: seq<string>): (c: seq<TimedEvent>)
    ensures |c| == 6 && c[0].time == start
    ensures forall i :: 0 <= i < 5 ==> c[i].time <= c[i + 1].time
    ensures c[5].time + t == start + PeriodMs(t)
  {
    var hold := HoldMs(t);
    [At(start, Stdout(ALLOCATING_MESSAGE)),
     At(start, Fork(pid, argv)),
     At(start, Sleep(hold)),
     At(start + hold, Kill(pid, SIGTERM)),
     At(start + hold, Stdout(FREED_MESSAGE)),
     At(start + hold, Sleep(t))]
  }

  /** The log of the cycles that got the fork results `pids`, the k-th starting at k periods. */
  function Trace(pids: seq<ParentPid>, t: u32, argv: seq<string>): (r: seq<TimedEvent>)
    ensures |r| == 6 * |pids|
    ensures pids != [] ==> r[|r| - 1].time + t == |pids| * PeriodMs(t)
  {
    if pids == [] then []
    else
      var k := |pids| - 1;
      Trace(pids[..k], t, argv) + Cycle(pids[k], k * PeriodMs(t), t, argv)
  }

  /**
   * `run_oscillating_allocations`, run for one cycle per entry of `forks`.
   * Returns the event log and the clock at the end of the last idle wait.
   */
  method RunOscillatingAllocations(programPath: string, oscillateMib: u32, oscillateTimeMs: u32,
                                   forks: seq<ParentPid>)
    returns (log: seq<TimedEvent>, now: nat)
    ensures log == Trace(forks, oscillateTimeMs, ChildArgv(programPath, oscillateMib))
    ensures now == |forks| * PeriodMs(oscillateTimeMs)
  {
    ghost var argv := ChildArgv(programPath, oscillateMib);
    log, now := [], 0;
    var i := 0;
    while i < |forks|
      invariant 0 <= i <= |forks|
      invariant now == i * PeriodMs(oscillateTimeMs)
      invariant log == Trace(forks[..i], oscillateTimeMs, argv)
    {
      ghost var before, start := log, now;
      log := log + [At(now, Stdout(ALLOCATING_MESSAGE))];
      var childPid := forks[i];
      var childArgs := [programPath, "-m", ToDecimal(oscillateMib)];
      log := log + [At(now, Fork(childPid, childArgs))];
      var hold := Add(oscillateTimeMs, CHILD_BOOT_WAIT_EXTRA_MS);
      log := log + [At(now, Sleep(hold))];
      now := now + hold;
      log := log + [At(now, Kill(childPid, SIGTERM))];
      log := log + [At(now, Stdout(FREED_MESSAGE))];
      log := log + [At(now, Sleep(oscillateTimeMs))];
      now := now + oscillateTimeMs;
      assert log == before + Cycle(forks[i], start, oscillateTimeMs, argv);
      assert forks[..i + 1][..i] == forks[..i];
      i := i + 1;
    }
    assert forks[..i] == forks;
  }

  /** Event `j` of cycle `k` sits at position `6k + j` of the log. */
  lemma {:induction false} TraceAt(pids: seq<ParentPid>, t: u32, argv: seq<string>, k: nat, j: nat)
    requires k < |pids| && j < 6
    ensures 6 * k + j < |Trace(pids, t, argv)|
    ensures Trace(pids, t, argv)[6 * k + j] == Cycle(pids[k], k * PeriodMs(t), t, argv)[j]
  {
    var n := |pids| - 1;
    if k < n {
      TraceAt(pids[..n], t, argv, k, j);
    }
  }

  /** Every entry of the log is the entry of its cycle that its position selects. */
  lemma EventAt(pids: seq<ParentPid>, t: u32, argv: seq<string>, i: nat)
    requires i < |Trace(pids, t, argv)|
    ensures i / 6 < |pids|
    ensures Trace(pids, t, argv)[i] == Cycle(pids[i / 6], (i / 6) * PeriodMs(t), t, argv)[i % 6]
  {
    TraceAt(pids, t, argv, i / 6, i % 6);
  }

  /**
   * Cycle `k` forks at `k` periods, signals exactly the process that fork
   * returned `HoldMs(t)` later, and the next fork follows the signal after
   * `t` more; the period is `2t + 300` unless the hold wrapped.
   */
  lemma LaunchTiming(pids: seq<ParentPid>, t: u32, argv: seq<string>, k: nat)
    requires k < |pids|
    ensures 6 * k + 3 < |Trace(pids, t, argv)|
    ensures Trace(pids, t, argv)[6 * k + 1] == At(k * PeriodMs(t), Fork(pids[k], argv))
    ensures Trace(pids, t, argv)[6 * k + 3] == At(k * PeriodMs(t) + HoldMs(t), Kill(pids[k], SIGTERM))
    ensures k + 1 < |pids| ==>
      6 * (k + 1) + 1 < |Trace(pids, t, argv)| &&
      Trace(pids, t, argv)[6 * (k + 1) + 1].time == Trace(pids, t, argv)[6 * k + 3].time + t
    ensures t + CHILD_BOOT_WAIT_EXTRA_MS <= UINT_MAX ==> PeriodMs(t) == 2 * t + CHILD_BOOT_WAIT_EXTRA_MS
  {
    TraceAt(pids, t, argv, k, 1);
    TraceAt(pids, t, argv, k, 3);
    if k + 1 < |pids| {
      TraceAt(pids, t, argv, k + 1, 1);
      assert (k + 1) * PeriodMs(t) == k * PeriodMs(t) + HoldMs(t) + t;
    }
  }

  /** A fork whose failure returned -1 is still followed by `kill(-1, SIGTERM)`. */
  lemma FailedForkIsSignalled(t: u32, argv: seq<string>)
    ensures Trace([-1], t, argv)[1].event == Fork(-1, argv)
    ensures Trace([-1], t, argv)[3].event == Kill(-1, SIGTERM)
  {
    LaunchTiming([-1], t, argv, 0);
  }

  /** Every fork starts a child on the same argument vector. */
  lemma EveryForkRunsArgv(pids: seq<ParentPid>, t: u32, argv: seq<string>, i: nat)
    requires i < |Trace(pids, t, argv)| && Trace(pids, t, argv)[i].event.Fork?
    ensures i % 6 == 1 && i / 6 < |pids|
    ensures Trace(pids, t, argv)[i].event == Fork(pids[i / 6], argv)
  {
    EventAt(pids, t, argv, i);
  }

  /** Between any two forks the controller has signalled the first fork's process. */
  lemma NoLaunchBeforeKill(pids: seq<ParentPid>, t: u32, argv: seq<string>, i: nat, j: nat)
    requires i < j < |Trace(pids, t, argv)|
    requires Trace(pids, t, argv)[i].event.Fork? && Trace(pids, t, argv)[j].event.Fork?
    ensures exists m :: i < m < j && Trace(pids, t, argv)[m].event == Kill(Trace(pids, t, argv)[i].event.pid, SIGTERM)
  {
    var tr := Trace(pids, t, argv);
    EveryForkRunsArgv(pids, t, argv, i);
    EveryForkRunsArgv(pids, t, argv, j);
    var k := i / 6;
    SlotsOfSameResidue(i, j);
    TraceAt(pids, t, argv, k, 3);
    assert tr[i + 2].event == Kill(tr[i].event.pid, SIGTERM);
  }

  lemma SlotsOfSameResidue(i: nat, j: nat)
    requires i < j && i % 6 == j % 6
    ensures i + 6 <= j && i == 6 * (i / 6) + i % 6
  {
  }

  /** The clock reading of event `j` of cycle `k`. */
  lemma TimeAt(pids: seq<ParentPid>, t: u32, argv: seq<string>, i: nat)
    requires i < |Trace(pids, t, argv)|
    ensures i / 6 < |pids|
    ensures Trace(pids, t, argv)[i].time == (i / 6) * PeriodMs(t) + (if i % 6 < 3 then 0 else HoldMs(t))
  {
    EventAt(pids, t, argv, i);
  }

  lemma LaterCycleStartsLater(a: nat, b: nat, p: nat, hold: nat)
    requires a < b && hold <= p
    ensures a * p + hold <= b * p
  {
    var d: nat := b - a - 1;
    calc {
      b * p;
      (a + 1 + d) * p;
      a * p + p + d * p;
    }
  }

  /** The logical clock never runs backwards along the log. */
  lemma ClockMonotone(pids: seq<ParentPid>, t: u32, argv: seq<string>, i: nat, j: nat)
    requires i <= j < |Trace(pids, t, argv)|
    ensures Trace(pids, t, argv)[i].time <= Trace(pids, t, argv)[j].time
  {
    TimeAt(pids, t, argv, i);
    TimeAt(pids, t, argv, j);
    if i / 6 < j / 6 {
      LaterCycleStartsLater(i / 6, j / 6, PeriodMs(t), HoldMs(t));
    }
  }

  predicate IsLifecycle(e: Event) {
    e.Fork? || e.Kill?
  }

  /** The forks and kills of a log, in order. */
  function Lifecycle(tr: seq<TimedEvent>): seq<Event>
  {
    if tr == [] then []
    else
      var last := tr[|tr| - 1].event;
      Lifecycle(tr[..|tr| - 1]) + (if IsLifecycle(last) then [last] else [])
  }

  lemma {:induction false} LifecycleAppend(a: seq<TimedEvent>, b: seq<TimedEvent>)
    ensures Lifecycle(a + b) == Lifecycle(a) + Lifecycle(b)
    decreases |b|
  {
    if b == [] {
      assert a + b == a;
    } else {
      var c := a + b;
      assert c[..|c| - 1] == a + b[..|b| - 1];
      LifecycleAppend(a, b[..|b| - 1]);
    }
  }

  lemma LifecycleOfCycle(pid: ParentPid, start: nat, t: u32, argv: seq<string>)
    ensures Lifecycle(Cycle(pid, start, t, argv)) == [Fork(pid, argv), Kill(pid, SIGTERM)]
  {
    var c := Cycle(pid, start, t, argv);
    assert c[..1][..0] == [];
    assert Lifecycle(c[..1]) == [];
    assert c[..2][..1] == c[..1];
    assert Lifecycle(c[..2]) == [Fork(pid, argv)];
    assert c[..3][..2] == c[..2];
    assert Lifecycle(c[..3]) == [Fork(pid, argv)];
    assert c[..4][..3] == c[..3];
    assert Lifecycle(c[..4]) == [Fork(pid, argv), Kill(pid, SIGTERM)];
    assert c[..5][..4] == c[..4];
    assert Lifecycle(c[..5]) == [Fork(pid, argv), Kill(pid, SIGTERM)];
    assert c[..6][..5] == c[..5];
    assert c[..6] == c;
  }

  /** One fork and then one SIGTERM to that fork's process, per fork result. */
  function Alternation(pids: seq<ParentPid>, argv: seq<string>): seq<Event>
  {
    if pids == [] then []
    else
      var last := pids[|pids| - 1];
      Alternation(pids[..|pids| - 1], argv) + [Fork(last, argv), Kill(last, SIGTERM)]
  }

  /** The controller's forks and kills are exactly: fork, kill that child, fork, kill that child, ... */
  lemma {:induction false} LaunchKillAlternation(pids: seq<ParentPid>, t: u32, argv: seq<string>)
    ensures Lifecycle(Trace(pids, t, argv)) == Alternation(pids, argv)
  {
    if pids != [] {
      var k := |pids| - 1;
      LaunchKillAlternation(pids[..k], t, argv);
      LifecycleAppend(Trace(pids[..k], t, argv), Cycle(pids[k], k * PeriodMs(t), t, argv));
      LifecycleOfCycle(pids[k], k * PeriodMs(t), t, argv);
    }
  }

  lemma {:induction false} AlternationLength(pids: seq<ParentPid>, argv: seq<string>)
    ensures |Alternation(pids, argv)| == 2 * |pids|
  {
    if pids != [] {
      AlternationLength(pids[..|pids| - 1], argv);
    }
  }

  /** Position `2k` forks the `k`-th child and position `2k + 1` signals it. */
  lemma {:induction false} AlternationAt(pids: seq<ParentPid>, argv: seq<string>, k: nat)
    requires k < |pids|
    ensures 2 * k + 1 < |Alternation(pids, argv)|
    ensures Alternation(pids, argv)[2 * k] == Fork(pids[k], argv)
    ensures Alternation(pids, argv)[2 * k + 1] == Kill(pids[k], SIGTERM)
  {
    AlternationLength(pids, argv);
    var n := |pids| - 1;
    AlternationLength(pids[..n], argv);
    if k < n {
      AlternationAt(pids[..n], argv, k);
    }
  }

  /** Children forked and not yet signalled after the lifecycle events `l`. */
  function Outstanding(l: seq<Event>): int
  {
    if l == [] then 0
    else
      var last := l[|l| - 1];
      Outstanding(l[..|l| - 1]) + (if last.Fork? then 1 else if last.Kill? then -1 else 0)
  }

  lemma {:induction false} AlternationOutstanding(pids: seq<ParentPid>, argv: seq<string>, n: nat)
    requires n <= |Alternation(pids, argv)|
    ensures Outstanding(Alternation(pids, argv)[..n]) == n % 2
    decreases n
  {
    if n > 0 {
      var a := Alternation(pids, argv);
      AlternationOutstanding(pids, argv, n - 1);
      assert a[..n][..n - 1] == a[..n - 1];
      AlternationLength(pids, argv);
      AlternationAt(pids, argv, (n - 1) / 2);
    }
  }

  /**
   * After any prefix of the controller's forks and kills, at most one child
   * is forked and not yet signalled: none after a kill, one after a fork.
   */
  lemma AtMostOneWorker(pids: seq<ParentPid>, t: u32, argv: seq<string>, n: nat)
    requires n <= |Lifecycle(Trace(pids, t, argv))|
    ensures 0 <= Outstanding(Lifecycle(Trace(pids, t, argv))[..n]) <= 1
    ensures Outstanding(Lifecycle(Trace(pids, t, argv))[..n]) == 1 <==> n % 2 == 1
  {
    LaunchKillAlternation(pids, t, argv);
    AlternationOutstanding(pids, argv, n);
  }

  /**
   * A child of the controller runs the startup decision on the defaults with
   * `-m <oscillate_mib>`: it keeps `oscillate_mib - 12` MiB (modulo 4096 MiB)
   * and sleeps forever, never oscillating itself.
   */
  lemma ChildOnlyHoldsMemory(programPath: string, oscillateMib: u32)
    requires oscillateMib > RESERVED_MIB
    ensures ParseArgv(ChildArgv(programPath, oscillateMib)) == Some(DEFAULTS.(mib := Some(oscillateMib)))
    ensures Decide(DEFAULTS.(mib := Some(oscillateMib))) == Run(GpuMemSizeBytes(oscillateMib), SleepForever)
    ensures GpuMemSizeBytes(oscillateMib) == ((oscillateMib - RESERVED_MIB) % 4096) * MIB
  {
    ParseMibOnly(programPath, oscillateMib);
  }
}
