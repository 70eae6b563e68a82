/** The command line of cli.py (cli.py:117-162) and the recording timer's
    minutes/seconds split (cli.py:22). */
module Cli {

  /** What one invocation does, decided before any recording or request. */
  datatype Outcome =
    | Usage                       // wrong argument count: usage printed, exit 1
    | MissingApiKey               // credential not in the environment: exit 1
    | Record(outputFile: string)  // record_meeting(argv[2])
    | Summarize(audioFile: string) // transcribe argv[2], summarise, write files
    | InvalidAction               // neither "record" nor "summarize": exit 1

  /** The environment variable holding the API credential (cli.py:123). */
  const ApiKeyVariable: string := "OPEN_API_KEY"

  /** The dispatch of `__main__`. `argv` is sys.argv, the program name
      included, so a valid call has three entries; `env` is the process
      environment after .env has been loaded. The argument count is checked
      first, then the credential, then the action. */
  function Dispatch(argv: seq<string>, env: map<string, string>): (o: Outcome)
    ensures o == Usage <==> |argv| != 3
    ensures o == MissingApiKey <==> |argv| == 3 && ApiKeyVariable !in env
    ensures o.Record? <==> |argv| == 3 && ApiKeyVariable in env && argv[1] == "record"
    ensures o.Summarize? <==> |argv| == 3 && ApiKeyVariable in env && argv[1] == "summarize"
    ensures o == InvalidAction <==>
      |argv| == 3 && ApiKeyVariable in env && argv[1] != "record" && argv[1] != "summarize"
    ensures o.Record? ==> o.outputFile == argv[2]
    ensures o.Summarize? ==> o.audioFile == argv[2]
  {
    if |argv| != 3 then Usage
    else if ApiKeyVariable !in env then MissingApiKey
    else if argv[1] == "record" then Record(argv[2])
    else if argv[1] == "summarize" then Summarize(argv[2])
    else InvalidAction
  }

  /** How the action of a well-formed call ends. `Raised` is an exception
      other than KeyboardInterrupt that nothing catches (ffmpeg missing at
      cli.py:56, an unreadable audio file at cli.py:81, a failed request at
      cli.py:92, a failed file write). `Interrupted` is Ctrl-C. */
  datatype ActionEnd = Finished | Raised | Interrupted

  /** How the process ends: an exit status, or death by SIGINT, which is how
      Python ends on a KeyboardInterrupt that nothing catches. */
  datatype ProcessEnd = Exit(code: nat) | KilledBySigint

  /** How the process ends for each outcome. The three refusals exit with 1
      (cli.py:120, 126, 162) and run no action, so `end` does not affect
      them. An uncaught exception exits with 1. Recording installs its own
      SIGINT handler (cli.py:30-38), which exits with 0; summarising has
      none, so Ctrl-C there kills the process by SIGINT; a summary run that
      finishes returns normally with 0. */
  function EndOf(o: Outcome, end: ActionEnd): (e: ProcessEnd)
    ensures e.Exit? ==> e.code in {0, 1}
    ensures e == Exit(1) <==> o == Usage || o == MissingApiKey || o == InvalidAction || end == Raised
    ensures e == KilledBySigint <==> o.Summarize? && end == Interrupted
    ensures o.Record? && end == Interrupted ==> e == Exit(0)
  {
    match o
    case Usage => Exit(1)
    case MissingApiKey => Exit(1)
    case InvalidAction => Exit(1)
    case Record(_) => if end == Raised then Exit(1) else Exit(0)
    case Summarize(_) =>
      match end
      case Finished => Exit(0)
      case Raised => Exit(1)
      case Interrupted => KilledBySigint
  }

  /** Whether the outcome gets as far as constructing the API client
      (cli.py:128), which happens after both checks and before the action
      is looked at. */
  predicate BuildsClient(o: Outcome)
    ensures BuildsClient(o) <==> o != Usage && o != MissingApiKey
  {
    o.Record? || o.Summarize? || o == InvalidAction
  }

  /** An invocation exits with 1 exactly when the argument count is not 3,
      the credential is missing, the action is neither "record" nor
      "summarize", or the action raised; it dies by SIGINT exactly when a
      summary run is interrupted; otherwise it exits with 0. */
  lemma ExitStatusLaws(argv: seq<string>, env: map<string, string>, end: ActionEnd)
    ensures EndOf(Dispatch(argv, env), end) == Exit(1) <==>
      !(|argv| == 3 && ApiKeyVariable in env && (argv[1] == "record" || argv[1] == "summarize"))
      || end == Raised
    ensures EndOf(Dispatch(argv, env), end) == KilledBySigint <==>
      |argv| == 3 && ApiKeyVariable in env && argv[1] == "summarize" && end == Interrupted
    ensures EndOf(Dispatch(argv, env), end) == Exit(0) <==>
      |argv| == 3 && ApiKeyVariable in env && end != Raised
      && (argv[1] == "record" || (argv[1] == "summarize" && end == Finished))
  {
  }

  /** The usage check comes before the credential check: with the wrong
      argument count the environment makes no difference. */
  lemma UsageBeforeCredential(argv: seq<string>, env1: map<string, string>, env2: map<string, string>)
    requires |argv| != 3
    ensures Dispatch(argv, env1) == Dispatch(argv, env2) == Usage
  {
  }

  /** Without the credential no client is built, whatever the action, so no
      request can be made; with it, every well-formed call builds one. */
  lemma NoClientWithoutCredential(argv: seq<string>, env: map<string, string>)
    ensures BuildsClient(Dispatch(argv, env)) <==> |argv| == 3 && ApiKeyVariable in env
  {
  }

  /** display_ticker's divmod(int(elapsed), 60) (cli.py:22): minutes and the
      seconds past the minute. Python's divmod floors; for the positive
      divisor 60 that agrees with Dafny's / and %. */
  function Clock(elapsed: int): (r: (int, int))
    ensures r.0 * 60 + r.1 == elapsed
    ensures 0 <= r.1 < 60
    ensures elapsed >= 0 ==> r.0 >= 0
  {
    (elapsed / 60, elapsed % 60)
  }

  /** The split is the only one with seconds in [0, 60). */
  lemma ClockUnique(elapsed: int, minutes: int, seconds: int)
    requires minutes * 60 + seconds == elapsed && 0 <= seconds < 60
    ensures Clock(elapsed) == (minutes, seconds)
  {
  }

  /** One more second advances the seconds, rolling over into the next
      minute after 59. */
  lemma ClockTick(elapsed: int)
    ensures Clock(elapsed + 1) ==
      (if Clock(elapsed).1 < 59 then (Clock(elapsed).0, Clock(elapsed).1 + 1)
       else (Clock(elapsed).0 + 1, 0))
  {
  }
}
