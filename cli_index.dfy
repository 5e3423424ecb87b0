/**
 * The CLI entry point of src/cli/index.ts: the program version shown by
 * `--version` and the log level the `preAction` hook sets from `--debug` and
 * `--quiet` before any subcommand runs.
 */
module CliIndex {
  import opened Wrappers

  datatype LogLevel = Trace | Debug | Info | Warn | Error | Fatal | Silent

  /** `loadPackageJson().version ?? "unknown"`: only a missing version falls back. */
  function ProgramVersion(packageVersion: Option<string>): (r: string)
    ensures packageVersion.Some? ==> r == packageVersion.value
    ensures packageVersion.None? ==> r == "unknown"
  {
    packageVersion.GetOr("unknown")
  }

  /** The level the flags select; `None` is the refusal of both flags together. */
  function SelectLogLevel(debug: bool, quiet: bool): (r: Option<LogLevel>)
    ensures r.None? <==> debug && quiet
    ensures debug && !quiet ==> r == Some(Trace)
    ensures quiet && !debug ==> r == Some(Silent)
    ensures !debug && !quiet ==> r == Some(Info)
  {
    if debug && quiet then None
    else if debug then Some(Trace)
    else if quiet then Some(Silent)
    else Some(Info)
  }

  /** Each accepted flag combination gives a different level. */
  lemma LevelsDistinguishFlags(d1: bool, q1: bool, d2: bool, q2: bool)
    requires SelectLogLevel(d1, q1).Some? && SelectLogLevel(d2, q2).Some?
    ensures SelectLogLevel(d1, q1) == SelectLogLevel(d2, q2) <==> d1 == d2 && q1 == q2
  {
  }

  /** The shared logger, of which only the level is modelled. */
  class Logger {
    var level: LogLevel

    constructor(level: LogLevel)
      ensures this.level == level
    {
      this.level := level;
    }

    /**
     * The `preAction` hook: refuses `--debug` with `--quiet` (exit status 1,
     * level untouched), otherwise sets the level.
     */
    method PreAction(debug: bool, quiet: bool) returns (exit1: bool)
      modifies this
      ensures exit1 <==> debug && quiet
      ensures exit1 ==> level == old(level)
      ensures !exit1 ==> Some(level) == SelectLogLevel(debug, quiet)
    {
      if debug && quiet {
        return true;
      }
      exit1 := false;
      if debug {
        level := Trace;
      } else if quiet {
        level := Silent;
      } else {
        level := Info;
      }
    }
  }
}
