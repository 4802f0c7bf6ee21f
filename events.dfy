/**
 * The observable effects of the tool, as entries of an event log stamped
 * with a logical clock in milliseconds. Graphics calls are opaque events.
 */
module Events {
  /** Signal number of SIGTERM on Linux. */
  const SIGTERM: int := 15

  const ALLOCATING_MESSAGE: string := "Oscillating memory allocating..."
  const FREED_MESSAGE: string := "Oscillating memory freed"
  const BASE_TOO_SMALL_MESSAGE: string := "Allocation must be larger than 12MiB"
  const OSCILLATION_TOO_SMALL_MESSAGE: string := "Oscillation allocation must be larger than 12MiB"
  const BASE_WINDOW_NAME: string := "Allocate GPU memory base"

  datatype Event =
    | PrintUsage                                // the option parser's help text on stdout
    | Stdout(line: string)
    | Stderr(line: string)
    | GlInit(windowName: string)                // window and GL context creation
    | Allocate(bytes: nat)                      // one committed GL buffer of this size
    | SleepIndefinitely                         // `sleep(UINT_MAX)`: the process parks
    | Fork(pid: int, childArgv: seq<string>)    // fork; the child execs `childArgv`
    | Sleep(ms: nat)
    | Kill(pid: int, signal: int)

  datatype TimedEvent = At(time: nat, event: Event)
}
