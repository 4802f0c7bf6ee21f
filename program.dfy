/**
 * `main` as a whole: the startup decision, its output, the base allocation,
 * and then either an endless sleep or the oscillation controller.
 */
module Program {
  import opened Optional
  import opened Unsigned
  import opened Events
  import opened Startup
  import opened Oscillator

  /** The log of a run on options `o`, with `forks` as the fork results of the controller. */
  function ProgramTrace(o: ParsedOptions, programPath: string, forks: seq<ParentPid>): (r: seq<TimedEvent>)
    ensures Decide(o).Run? <==> |r| >= 2
    ensures Decide(o).Run? ==> r[1].event == Allocate(Decide(o).baseBytes)
    ensures ExitStatus(Decide(o)).Some? <==> |r| == 1 && !r[0].event.Allocate?
  {
    match Decide(o)
    case ShowHelp => [At(0, PrintUsage)]
    case ConfigError(message) => [At(0, Stderr(message))]
    case OptionMissing => []
    case Run(bytes, mode) =>
      [At(0, GlInit(BASE_WINDOW_NAME)), At(0, Allocate(bytes))] +
      match mode
      case SleepForever => [At(0, SleepIndefinitely)]
      case Oscillate(unitMib, timeMs) => Trace(forks, timeMs, ChildArgv(programPath, unitMib))
  }

  /** `main`, step by step; `status` is None when it never returns. */
  method RunMain(o: ParsedOptions, programPath: string, forks: seq<ParentPid>)
    returns (status: Option<int>, log: seq<TimedEvent>)
    ensures status == ExitStatus(Decide(o))
    ensures log == ProgramTrace(o, programPath, forks)
  {
    if o.help {
      return Some(0), [At(0, PrintUsage)];
    }
    if o.mib.None? {
      return None, [];
    }
    var mibSize := o.mib.value;
    if mibSize <= RESERVED_MIB {
      return Some(-1), [At(0, Stderr(BASE_TOO_SMALL_MESSAGE))];
    }
    mibSize := Sub(mibSize, RESERVED_MIB);
    var gpuMemSizeBytes := Mul(MIB, mibSize);
    var oscillateMib := o.oscillateMib;
    if oscillateMib != 0 && oscillateMib <= RESERVED_MIB {
      return Some(-1), [At(0, Stderr(OSCILLATION_TOO_SMALL_MESSAGE))];
    }
    log := [At(0, GlInit(BASE_WINDOW_NAME)), At(0, Allocate(gpuMemSizeBytes))];
    status := None;
    if oscillateMib == 0 {
      log := log + [At(0, SleepIndefinitely)];
    } else {
      var cycles, _ := RunOscillatingAllocations(programPath, oscillateMib, o.oscillateTimeMs, forks);
      log := log + cycles;
    }
  }

  /** With help requested, only the usage text is printed: no GL, no allocation, no fork. */
  lemma HelpDoesNothingElse(o: ParsedOptions, programPath: string, forks: seq<ParentPid>)
    requires o.help
    ensures ProgramTrace(o, programPath, forks) == [At(0, PrintUsage)]
  {
  }

  /** A refused configuration only reports its error and touches no GPU state. */
  lemma RefusalAllocatesNothing(o: ParsedOptions, programPath: string, forks: seq<ParentPid>)
    requires Decide(o).ConfigError?
    ensures ProgramTrace(o, programPath, forks) == [At(0, Stderr(Decide(o).message))]
    ensures ExitStatus(Decide(o)) == Some(-1)
  {
  }

  /**
   * A run initialises GL once and then allocates the base block once; no
   * other entry of its log initialises GL or allocates.
   */
  lemma BaseAllocatedOnce(o: ParsedOptions, programPath: string, forks: seq<ParentPid>, i: nat)
    requires Decide(o).Run?
    requires 2 <= i < |ProgramTrace(o, programPath, forks)|
    ensures ProgramTrace(o, programPath, forks)[..2] ==
      [At(0, GlInit(BASE_WINDOW_NAME)), At(0, Allocate(Decide(o).baseBytes))]
    ensures !ProgramTrace(o, programPath, forks)[i].event.GlInit?
    ensures !ProgramTrace(o, programPath, forks)[i].event.Allocate?
  {
    var tr := ProgramTrace(o, programPath, forks);
    match Decide(o).mode
    case SleepForever =>
    case Oscillate(unitMib, timeMs) =>
      var cycles := Trace(forks, timeMs, ChildArgv(programPath, unitMib));
      assert tr[i] == cycles[i - 2];
      EventAt(forks, timeMs, ChildArgv(programPath, unitMib), i - 2);
  }

  /** With an oscillation size of 0 the controller never forks. */
  lemma NoOscillationWhenZero(o: ParsedOptions, programPath: string, forks: seq<ParentPid>)
    requires o.oscillateMib == 0
    ensures forall i :: 0 <= i < |ProgramTrace(o, programPath, forks)| ==>
      !ProgramTrace(o, programPath, forks)[i].event.Fork?
  {
  }

  /**
   * With a valid nonzero oscillation size, the controller's cycles follow the
   * base allocation, and every child is started with `-m <oscillate_mib>`.
   */
  lemma OscillationFollowsBase(o: ParsedOptions, programPath: string, forks: seq<ParentPid>)
    requires Decide(o).Run? && o.oscillateMib != 0
    ensures ProgramTrace(o, programPath, forks)[2..] ==
      Trace(forks, o.oscillateTimeMs, ChildArgv(programPath, o.oscillateMib))
    ensures Lifecycle(ProgramTrace(o, programPath, forks)[2..]) ==
      Alternation(forks, ChildArgv(programPath, o.oscillateMib))
  {
    LaunchKillAlternation(forks, o.oscillateTimeMs, ChildArgv(programPath, o.oscillateMib));
  }
}
