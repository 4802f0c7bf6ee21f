/**
 * A small stand-in for the option parser: it reads the four declared
 * options, each written as its short or long name followed (except help)
 * by a separate decimal value token, and starts from the declared defaults.
 * It exists so that the argument vector the controller gives its children
 * can be fed back into the startup decision.
 */
module CommandLine {
  import opened Optional
  import opened Unsigned
  import opened Decimal
  import opened Startup

  /** Parses the tokens after the program name; a later occurrence overrides an earlier one. */
  function ParseTokens(tokens: seq<string>, acc: ParsedOptions): Option<ParsedOptions>
    decreases |tokens|
  {
    if tokens == [] then Some(acc)
    else if tokens[0] == "-h" || tokens[0] == "--help" then
      ParseTokens(tokens[1..], acc.(help := true))
    else if |tokens| < 2 then None
    else
      match ParseUnsigned(tokens[1])
      case None => None
      case Some(v) =>
        if tokens[0] == "-m" || tokens[0] == "--mib" then
          ParseTokens(tokens[2..], acc.(mib := Some(v)))
        else if tokens[0] == "-o" || tokens[0] == "--oscillate-mib" then
          ParseTokens(tokens[2..], acc.(oscillateMib := v))
        else if tokens[0] == "-t" || tokens[0] == "--oscillate-time-ms" then
          ParseTokens(tokens[2..], acc.(oscillateTimeMs := v))
        else None
  }

  /** `argv[0]` is the program path; the rest are options. */
  function ParseArgv(argv: seq<string>): Option<ParsedOptions>
  {
    if argv == [] then Some(DEFAULTS) else ParseTokens(argv[1..], DEFAULTS)
  }

  /** `-m N` alone yields the defaults with the base size set to N. */
  lemma ParseMibOnly(path: string, n: u32)
    ensures ParseArgv([path, "-m", ToDecimal(n)]) == Some(DEFAULTS.(mib := Some(n)))
  {
    ParseToDecimal(n);
    var tokens := [path, "-m", ToDecimal(n)][1..];
    assert tokens == ["-m", ToDecimal(n)];
    assert tokens[0] != "-h" && tokens[0] != "--help";
    assert tokens[2..] == [];
    assert ParseTokens(tokens[2..], DEFAULTS.(mib := Some(n))) == Some(DEFAULTS.(mib := Some(n)));
  }
}
