/**
 * What `main` does with the parsed options before any long-running work:
 * print help, refuse the configuration, or allocate the base block and
 * choose between sleeping forever and running the oscillation controller.
 */
module Startup {
  import opened Optional
  import opened Unsigned
  import opened Events

  /** Bytes in one MiB, the `int` constant `1024 * 1024`. */
  const MIB: nat := 1024 * 1024
  /** MiB reserved for allocator overhead and subtracted from the base size. */
  const RESERVED_MIB: u32 := 12
  const DEFAULT_OSCILLATE_MIB: u32 := 0
  const DEFAULT_OSCILLATE_TIME_MS: u32 := 500

  /**
   * The options as the option parser hands them to `main`. `-m` has no
   * default, so it may be absent; the other two carry their declared defaults.
   */
  datatype ParsedOptions = ParsedOptions(
    help: bool,
    mib: Option<u32>,
    oscillateMib: u32,
    oscillateTimeMs: u32)

  /** The options when only the program name is given. */
  const DEFAULTS: ParsedOptions :=
    ParsedOptions(false, None, DEFAULT_OSCILLATE_MIB, DEFAULT_OSCILLATE_TIME_MS)

  datatype Mode = SleepForever | Oscillate(unitMib: u32, timeMs: u32)

  datatype Outcome =
    | ShowHelp                              // usage on stdout, `return 0`
    | ConfigError(message: string)          // message on stderr, `return -1`
    | OptionMissing                         // `-m` absent: the parser throws, nothing catches it
    | Run(baseBytes: nat, mode: Mode)       // GL init, one allocation, then `mode`

  /**
   * `1024 * 1024 * (mib - 12)` in `unsigned` arithmetic, widened to `size_t`:
   * the product is taken modulo 2^32, so only `(mib - 12) mod 4096` MiB survive.
   */
  function GpuMemSizeBytes(mib: u32): (r: nat)
    requires mib > RESERVED_MIB
    ensures r < TWO_TO_32 && r % MIB == 0
    ensures r == ((mib - RESERVED_MIB) % 4096) * MIB
    ensures mib - RESERVED_MIB < 4096 ==> r == (mib - RESERVED_MIB) * MIB
  {
    var reduced := Sub(mib, RESERVED_MIB);
    MulMibWraps(reduced);
    Mul(MIB, reduced)
  }

  /** Multiplying by 2^20 modulo 2^32 keeps the low twelve bits of the factor. */
  lemma MulMibWraps(x: nat)
    ensures (MIB * x) % TWO_TO_32 == (x % 4096) * MIB
  {
    var q, r := x / 4096, x % 4096;
    assert x == q * 4096 + r;
    assert MIB * x == q * TWO_TO_32 + r * MIB;
    assert 0 <= r * MIB < TWO_TO_32;
  }

  /** The decision `main` takes, checks in source order. */
  function Decide(o: ParsedOptions): (r: Outcome)
    ensures r == ShowHelp <==> o.help
    ensures r == OptionMissing <==> !o.help && o.mib.None?
    ensures r.ConfigError? ==>
      r.message == BASE_TOO_SMALL_MESSAGE || r.message == OSCILLATION_TOO_SMALL_MESSAGE
    ensures r.Run? ==> r.baseBytes < TWO_TO_32 && r.baseBytes % MIB == 0
    ensures r.Run? && r.mode.Oscillate? ==> r.mode.unitMib > RESERVED_MIB
  {
    if o.help then ShowHelp
    else if o.mib.None? then OptionMissing
    else if o.mib.value <= RESERVED_MIB then ConfigError(BASE_TOO_SMALL_MESSAGE)
    else
      var bytes := GpuMemSizeBytes(o.mib.value);
      if o.oscillateMib != 0 && o.oscillateMib <= RESERVED_MIB then ConfigError(OSCILLATION_TOO_SMALL_MESSAGE)
      else if o.oscillateMib == 0 then Run(bytes, SleepForever)
      else Run(bytes, Oscillate(o.oscillateMib, o.oscillateTimeMs))
  }

  /** The status `main` returns; None when it never returns or ends abnormally. */
  function ExitStatus(r: Outcome): Option<int>
  {
    match r
    case ShowHelp => Some(0)
    case ConfigError(_) => Some(-1)
    case OptionMissing => None
    case Run(_, _) => None
  }

  /** Help is answered first, with status 0, whatever the other options hold. */
  lemma HelpTakesPrecedence(o: ParsedOptions)
    requires o.help
    ensures Decide(o) == ShowHelp && ExitStatus(Decide(o)) == Some(0)
  {
  }

  /** A base size of at most 12 MiB is refused before the oscillation size is looked at. */
  lemma BaseSizeCheckedFirst(o: ParsedOptions)
    requires !o.help && o.mib.Some? && o.mib.value <= RESERVED_MIB
    ensures Decide(o) == ConfigError(BASE_TOO_SMALL_MESSAGE)
    ensures ExitStatus(Decide(o)) == Some(-1)
  {
  }

  /** An oscillation size in 1..12 MiB is refused once the base size has passed. */
  lemma OscillationSizeChecked(o: ParsedOptions)
    requires !o.help && o.mib.Some? && o.mib.value > RESERVED_MIB
    requires 1 <= o.oscillateMib <= RESERVED_MIB
    ensures Decide(o) == ConfigError(OSCILLATION_TOO_SMALL_MESSAGE)
    ensures ExitStatus(Decide(o)) == Some(-1)
  {
  }

  /** The tool runs exactly when help is off, the base size exceeds 12 MiB and the oscillation size is 0 or exceeds 12 MiB. */
  lemma RunsExactlyWhenValid(o: ParsedOptions)
    ensures Decide(o).Run? <==>
      !o.help && o.mib.Some? && o.mib.value > RESERVED_MIB &&
      (o.oscillateMib == 0 || o.oscillateMib > RESERVED_MIB)
  {
  }

  /**
   * When it runs, the base allocation is the wrapped byte count, and the
   * controller is chosen exactly when the oscillation size is nonzero, with
   * that size unreduced and the given period.
   */
  lemma RunModeFollowsOscillationSize(o: ParsedOptions)
    requires Decide(o).Run?
    ensures o.mib.Some? && o.mib.value > RESERVED_MIB
    ensures Decide(o).baseBytes == GpuMemSizeBytes(o.mib.value)
    ensures Decide(o).mode.SleepForever? <==> o.oscillateMib == 0
    ensures Decide(o).mode.Oscillate? ==>
      Decide(o).mode == Oscillate(o.oscillateMib, o.oscillateTimeMs)
  {
  }

  /** The smallest accepted base size, 13 MiB, allocates exactly 1 MiB. */
  lemma SmallestBase()
    ensures Decide(DEFAULTS.(mib := Some(13))) == Run(MIB, SleepForever)
  {
  }

  /** A base size of 4108 MiB wraps to an allocation of zero bytes. */
  lemma BaseSizeWrapsToZero()
    ensures Decide(DEFAULTS.(mib := Some(4108))) == Run(0, SleepForever)
  {
  }
}
