# GPU memory pressure tool: startup decision and oscillation controller

The tool allocates a fixed block of GPU memory through OpenGL and can make
more GPU memory come and go. To do that, it repeatedly forks a child process
that holds an allocation, and later kills it. This Dafny project models the two parts
of `src/main.cpp` that are sequential logic. The OpenGL calls and the option
parser are left out.

- **Startup decision** (`Startup`, `Program`). `main` reads the parsed options
  as a record: help flag, `-m` (no default), `-o` (default 0) and `-t`
  (default 500). It then does exactly one of these:
  - prints usage and returns 0;
  - reports a configuration error and returns -1;
  - ends abnormally when `-m` is absent, because the option library throws
    and nothing catches it;
  - initialises GL, allocates the base block, and then either sleeps forever
    or runs the controller.

  The checks run in source order: help, then the base size, then the
  oscillation size. The base byte count is `1024 * 1024 * (mib - 12)` in
  32-bit `unsigned` arithmetic, so it wraps modulo 2^32. It is exact up to
  `mib = 4107`. `mib = 4108` gives 0 bytes. In general the count is
  `((mib - 12) mod 4096)` MiB.
- **Oscillation controller** (`Oscillator`). This is `run_oscillating_allocations`
  seen from the parent. It is a method with a loop that advances a
  millisecond clock and appends to an event log. `fork` is an oracle that
  supplies one nonzero `pid_t` per cycle, and the number of results bounds the
  endless loop. Each cycle does these steps in order:
  - logs "allocating";
  - forks a child whose argument vector is `[path, "-m", to_string(oscillate_mib)]`;
  - sleeps `(t + 300) mod 2^32` ms;
  - sends SIGTERM to the fork's result;
  - logs "freed";
  - sleeps `t` ms.

  The lemmas prove properties of the resulting trace:
  - the per-cycle order of events;
  - the exact clock readings;
  - the forks and kills strictly alternate, and each kill targets the
    preceding fork's result;
  - at most one child is ever forked and not yet signalled;
  - the clock is monotone;
  - fed back through the startup decision with the defaults, the child
    argument vector puts the child into the sleep-forever branch.

Points where the code behaves differently from what one might expect. The model follows the code in each case:
- The fork result is never checked. A failed fork (-1) is followed by
  `kill(-1, SIGTERM)`. On Linux that signals every process the user may
  signal except init and the caller itself. So the controller survives and
  goes on to its next cycle, which is what the model shows. A failed fork is
  not a fatal error.
- The hold time is computed in `unsigned` arithmetic. For
  `t >= 2^32 - 300` it wraps to less than 300 ms, so it is then shorter than `t`.
  The launch period is `2t + 300` only below that bound.
- The child receives the oscillation size unreduced (`-m <oscillate_mib>`). But
  it applies the base-size rule itself, so each child holds
  `oscillate_mib - 12` MiB, modulo 4096 MiB.

Modules: `Optional`, `Unsigned` (32-bit `unsigned` arithmetic), `Decimal`
(`std::to_string` and digit strings), `Events` (the event log), `Startup`,
`CommandLine` (a small stand-in argument parser, used only to feed the
child's argument vector back into the decision), `Oscillator`, `Program`.

## Model

| member | source | states |
|---|---|---|
| Unsigned.Wrap | src/main.cpp:114 | conversion to `unsigned` is the identity below 2^32 and subtracts 2^32 just above it |
| Unsigned.Add | src/main.cpp:78 | `unsigned` addition is exact up to UINT_MAX and otherwise wraps to a value below both operands |
| Unsigned.Mul | src/main.cpp:114 | `unsigned` multiplication is exact when the product fits in 32 bits and is always congruent to the product modulo 2^32 |
| Unsigned.Sub | src/main.cpp:113 | `unsigned` subtraction is exact when it does not underflow and otherwise adds 2^32 |
| Decimal.ToDecimal | src/main.cpp:74 | `std::to_string` yields a non-empty digit string without leading zeros, one digit exactly for values below 10 |
| Decimal.ValueOfToDecimal | src/main.cpp:74 | the digits `std::to_string` writes spell the original number |
| Decimal.ParseToDecimal | src/main.cpp:74 | reading back the child's size argument as an `unsigned` gives the size that was written |
| Decimal.ToDecimalValueOf | src/main.cpp:74 | every canonical digit string is exactly what `std::to_string` writes for its value |
| Startup.GpuMemSizeBytes | src/main.cpp:113-114 | the base byte count is a multiple of 1 MiB below 2^32, equal to `((mib - 12) mod 4096)` MiB, and exactly `(mib - 12)` MiB when that is under 4096 MiB |
| Startup.MulMibWraps | src/main.cpp:114 | multiplying by 2^20 modulo 2^32 keeps the factor modulo 4096 |
| Startup.Decide | src/main.cpp:103-130 | the decision is help exactly when help is set, ends abnormally exactly when help is off and `-m` is absent, refuses only with one of the two size messages, allocates a whole number of MiB below 2^32, and oscillates only with a unit size above 12 MiB |
| Startup.HelpTakesPrecedence | src/main.cpp:103-106 | with help set, the outcome is "print usage, return 0" whatever the other options hold |
| Startup.BaseSizeCheckedFirst | src/main.cpp:108-112 | a base size of at most 12 MiB gives the base-size error and -1, whatever the oscillation size |
| Startup.OscillationSizeChecked | src/main.cpp:116-121 | after a valid base size, an oscillation size in 1..12 gives the oscillation error and -1 |
| Startup.RunsExactlyWhenValid | src/main.cpp:103-121 | the tool goes on to allocate if and only if help is off, `-m` is present and above 12, and the oscillation size is 0 or above 12 |
| Startup.RunModeFollowsOscillationSize | src/main.cpp:123-130 | a run allocates the wrapped base count and sleeps forever exactly when the oscillation size is 0, else oscillates with that size and period |
| Startup.SmallestBase | src/main.cpp:109-114 | `-m 13` allocates exactly 1 MiB and sleeps forever |
| Startup.BaseSizeWrapsToZero | src/main.cpp:113-114 | `-m 4108` allocates zero bytes |
| CommandLine.ParseMibOnly | src/main.cpp:94-98 | an argument vector with only `-m N` yields the declared defaults with base size N |
| Oscillator.ChildArgv | src/main.cpp:73-75 | the child's arguments are the program path, `-m` and the text `std::to_string` writes for the oscillation size: canonical decimal digits that read back as that size |
| Oscillator.HoldMs | src/main.cpp:77-78 | the hold is `t + 300` ms unless that exceeds UINT_MAX, in which case it wraps to less than 300 ms |
| Oscillator.PeriodMs | src/main.cpp:77-82 | the time from one fork to the next is never shorter than `t`; it is `2t + 300` when the hold does not wrap, and shorter than `t + 300` when it does |
| Oscillator.Cycle | src/main.cpp:70-82 | one cycle has six events starting at its start time, with the clock never going backwards, and its last event is followed by `t` ms of idling that ends one period after the start |
| Oscillator.Trace | src/main.cpp:69-83 | the reference log of the loop has six entries per fork result, and its final idle wait ends at the number of cycles times the period |
| Oscillator.RunOscillatingAllocations | src/main.cpp:67-84 | the loop's log is the cycle-by-cycle trace for the fork results, and its clock ends at the number of cycles times the period |
| Oscillator.TraceAt | src/main.cpp:69-83 | entry `6k + j` of the log is event `j` of cycle `k`, which starts at `k` periods |
| Oscillator.EventAt | src/main.cpp:69-83 | every log entry is the entry of the cycle its position selects |
| Oscillator.LaunchTiming | src/main.cpp:71-82 | cycle `k` forks at `k` periods, signals exactly that fork's result one hold later, and the next fork is `t` after the signal |
| Oscillator.FailedForkIsSignalled | src/main.cpp:71-79 | a fork that returned -1 is still followed by `kill(-1, SIGTERM)` |
| Oscillator.EveryForkRunsArgv | src/main.cpp:71-75 | forks occur only at the second slot of a cycle, on that cycle's fork result and the child argument vector |
| Oscillator.NoLaunchBeforeKill | src/main.cpp:69-83 | between any two forks, the first fork's process has been sent SIGTERM |
| Oscillator.TimeAt | src/main.cpp:77-82 | the first three events of a cycle happen at its start and the last three one hold later |
| Oscillator.ClockMonotone | src/main.cpp:77-82 | clock readings never decrease along the log |
| Oscillator.LifecycleOfCycle | src/main.cpp:71-79 | one cycle forks once and then signals that same process once |
| Oscillator.LaunchKillAlternation | src/main.cpp:69-83 | the forks and kills of the whole log are exactly fork p0, kill p0, fork p1, kill p1, ... |
| Oscillator.AlternationAt | src/main.cpp:71-79 | position `2k` forks the `k`-th child and position `2k + 1` signals it |
| Oscillator.AtMostOneWorker | src/main.cpp:69-83 | after any prefix of forks and kills, at most one child is forked and not yet signalled, exactly one after a fork |
| Oscillator.ChildOnlyHoldsMemory | src/main.cpp:73-75 | the child's arguments parse to the defaults with `-m oscillate_mib`, which allocates `(oscillate_mib - 12) mod 4096` MiB and sleeps forever |
| Program.ProgramTrace | src/main.cpp:102-131 | the log of `main` has at least two entries exactly when the tool runs, and then its second entry allocates the base byte count; `main` returns exactly when the log is one entry with no allocation |
| Program.RunMain | src/main.cpp:102-131 | `main` returns the decision's status and produces the log of that decision: usage, error, or GL init, base allocation, then sleep or the controller's cycles |
| Program.HelpDoesNothingElse | src/main.cpp:103-106 | with help set, the only effect is printing usage |
| Program.RefusalAllocatesNothing | src/main.cpp:108-121 | a refused configuration prints its message and nothing else, and returns -1 |
| Program.BaseAllocatedOnce | src/main.cpp:123-124 | a run initialises GL and allocates the base block once, first, and never again |
| Program.NoOscillationWhenZero | src/main.cpp:126-127 | with oscillation size 0 the log contains no fork |
| Program.OscillationFollowsBase | src/main.cpp:128-130 | with a valid nonzero oscillation size, the controller's alternating fork/kill trace follows the base allocation |

## Left out

- The window, GL context and GL buffer code (`glfw_init`, `allocate_gpu_memory`, `framebuffer_size_callback`, src/main.cpp:19-54) is foreign graphics code. It appears only as opaque `GlInit` and `Allocate` events. The `exit(1)` that `glfw_init` performs when window or loader creation fails is not modelled.
- The option library's parsing is not modelled. `ParsedOptions` is its output, with the declared defaults. `CommandLine` is only a stand-in that accepts separate-token short and long names. Attached values (`-m13`, `--mib=13`), grouped flags and the library's own error reporting are outside it. The only exception modelled is the one thrown for an absent `-m` (`OptionMissing`).
- The text of the usage message is not modelled. It is an opaque `PrintUsage` event.
- The child branch of `fork` (src/main.cpp:72-75) runs in a second process. The model does not cover that process: image replacement by `execvp`, or a failed `execvp` falling through into the loop. Only the parent's view and the argument vector are modelled.
- The lifetime of the `std::to_string(...).c_str()` temporary kept in `child_args` is a C++ object-lifetime question and is not modelled.
- Real sleeping, signal delivery and resource reclamation are replaced by a logical clock and log entries. `sleep(UINT_MAX)` becomes the terminal `SleepIndefinitely` event.
- Oscillator.RunOscillatingAllocations: the endless `while (true)` is run for one cycle per fork result supplied, because an unbounded run has no final log to state.
- The global `g_program_path` is passed as an explicit `programPath` parameter.
- `glfwTerminate()` and `return 0` after the branches (src/main.cpp:133-134) are not modelled, because neither branch returns in practice.
- `main` returns -1 on a configuration error, and the model keeps that value. The process status the operating system reports (255) is not modelled.
- Console output is recorded as log lines. Stream flushing and the interleaving with a child's output are not modelled.
