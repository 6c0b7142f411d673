/**
 * `main`: gate, read, validate, launch, answer. Exceptions become tagged
 * results; the observable outcome of a run is what reaches standard output,
 * the exit status, and the argument vector `subprocess.run` was called with,
 * if the run got that far (whether or not the player then started).
 */
module Host {
  import opened Results
  import opened Bytes
  import Json
  import ResponseJson
  import Framing
  import Integrity
  import Validator
  import Launcher

  /** What the process finds when it starts. */
  datatype World = World(script: Integrity.Stat, parent: Integrity.Stat, stdin: seq<byte>)

  /** What an observer sees of one run; `attempted` is the launch attempt, if any. */
  datatype Run = Run(stdout: seq<byte>, status: int, attempted: Option<seq<string>>)

  /**
   * The `except Exception` handler: one failure frame and status 1. If even
   * that frame cannot be written, the exception leaves `main` and the
   * interpreter exits with status 1 and nothing on standard output.
   */
  function Report(error: string, attempted: Option<seq<string>>): (r: Run)
    ensures r.status == 1 && r.attempted == attempted
    ensures Framing.SendMessage(ResponseJson.Failure(error)).Ok? ==>
              Framing.ReadResponseFrame(r.stdout) == Some(ResponseJson.Failure(error))
    ensures Framing.SendMessage(ResponseJson.Failure(error)).Err? ==> r.stdout == []
  {
    match Framing.SendMessage(ResponseJson.Failure(error))
    case Ok(frame) =>
      Framing.SendReadRoundTrip(ResponseJson.Failure(error));
      Run(frame, 1, attempted)
    case Err(_) => Run([], 1, attempted)
  }

  /** `send_message({"success": success, "message": text})` inside the `try`, then a normal exit. */
  function Answer(success: bool, text: string, attempted: Option<seq<string>>): (r: Run)
    ensures r.attempted == attempted
    ensures Framing.SendMessage(ResponseJson.Reply(success, text)).Ok? ==>
              r.status == 0 && Framing.ReadResponseFrame(r.stdout) == Some(ResponseJson.Reply(success, text))
    ensures Framing.SendMessage(ResponseJson.Reply(success, text)).Err? ==>
              r == Report(Framing.OverflowText, attempted)
  {
    match Framing.SendMessage(ResponseJson.Reply(success, text))
    case Ok(frame) =>
      Framing.SendReadRoundTrip(ResponseJson.Reply(success, text));
      Run(frame, 0, attempted)
    case Err(e) => Report(e, attempted)
  }

  /** One run of the host. `decode` stands for UTF-8 decoding plus `json.loads`; `run` for the child process. */
  function Main(world: World, decode: seq<byte> -> Result<Json.Value>, run: seq<string> -> Launcher.ChildResult): (r: Run)
    // Exit status 0 or 1 only, and at most one well-formed frame on standard output.
    ensures r.status == 0 || r.status == 1
    ensures r.stdout != [] ==> Framing.ReadResponseFrame(r.stdout).Some?
    // A permission failure is fatal and silent.
    ensures Integrity.CheckSecurity(world.script, world.parent).Refused? ==> r == Run([], 1, None)
    // A failing `stat` reaches the handler: an `error` frame with its text, status 1, no launch.
    ensures Integrity.CheckSecurity(world.script, world.parent).Raised? ==>
              r == Report(Integrity.CheckSecurity(world.script, world.parent).error, None)
    // A clean end of input is a normal, silent exit.
    ensures Integrity.CheckSecurity(world.script, world.parent).Trusted? && |world.stdin| < 4 ==> r == Run([], 0, None)
    // A launch is attempted only with a link that came from the request and passed validation.
    ensures r.attempted.Some? ==>
              && |r.attempted.value| == 4
              && Integrity.CheckSecurity(world.script, world.parent).Trusted?
              && Framing.ReadMessage(world.stdin, decode).Received?
              && Validator.ValidateMessage(Framing.ReadMessage(world.stdin, decode).message) == Ok(r.attempted.value[3])
              && Validator.AllowedLink(r.attempted.value[3])
              && r.attempted.value == Launcher.ClapperArgv(r.attempted.value[3])
    // A written frame with status 0 is always the launch's `message` answer.
    ensures r.status == 0 && r.stdout != [] ==>
              r.attempted.Some? && Framing.ReadResponseFrame(r.stdout).value.Reply?
  {
    match Integrity.CheckSecurity(world.script, world.parent)
    case Refused(_) => Run([], 1, None)
    case Raised(e) => Report(e, None)
    case Trusted =>
      match Framing.ReadMessage(world.stdin, decode)
      case Closed => Run([], 0, None)
      case ReadFailed(e) => Report(e, None)
      case Received(m) =>
        match Validator.ValidateMessage(m)
        case Err(e) => Report(e, None)
        case Ok(link) =>
          var argv := Launcher.ClapperArgv(link);
          match Launcher.LaunchClapper(link, run)
          case Escaped(e) => Report(e, Some(argv))
          case Reported(success, text) => Answer(success, text, Some(argv))
  }

  // ---------------------------------------------------------------------------
  // Properties of whole runs

  /** The path up to the launch: trusted, a message received, its link validated. */
  predicate ReachesLaunch(world: World, decode: seq<byte> -> Result<Json.Value>, link: string) {
    && Integrity.CheckSecurity(world.script, world.parent).Trusted?
    && Framing.ReadMessage(world.stdin, decode).Received?
    && Validator.ValidateMessage(Framing.ReadMessage(world.stdin, decode).message) == Ok(link)
  }

  /**
   * Whatever the launch reports, failure included, is answered with a
   * `message` frame and exit status 0.
   */
  lemma LaunchResultAnswered(world: World, decode: seq<byte> -> Result<Json.Value>,
                             run: seq<string> -> Launcher.ChildResult, link: string)
    requires ReachesLaunch(world, decode, link)
    requires Launcher.LaunchClapper(link, run).Reported?
    requires |Launcher.LaunchClapper(link, run).text| < 0x1000_0000
    ensures var l := Launcher.LaunchClapper(link, run);
            var r := Main(world, decode, run);
            && r.status == 0
            && r.attempted == Some(Launcher.ClapperArgv(link))
            && Framing.ReadResponseFrame(r.stdout) == Some(ResponseJson.Reply(l.success, l.text))
  {
    var l := Launcher.LaunchClapper(link, run);
    Framing.ShortResponsesFit(ResponseJson.Reply(l.success, l.text));
  }

  /**
   * An exception raised while reading or validating is answered with one
   * `error` frame carrying its text, exit status 1, and no launch.
   */
  lemma EarlyFailureReported(world: World, decode: seq<byte> -> Result<Json.Value>,
                             run: seq<string> -> Launcher.ChildResult, error: string)
    requires Integrity.CheckSecurity(world.script, world.parent).Trusted?
    requires |error| < 0x1000_0000
    requires || Framing.ReadMessage(world.stdin, decode) == Framing.ReadFailed(error)
             || (&& Framing.ReadMessage(world.stdin, decode).Received?
                 && Validator.ValidateMessage(Framing.ReadMessage(world.stdin, decode).message) == Err(error))
    ensures var r := Main(world, decode, run);
            && r.status == 1
            && r.attempted.None?
            && Framing.ReadResponseFrame(r.stdout) == Some(ResponseJson.Failure(error))
  {
    Framing.ShortResponsesFit(ResponseJson.Failure(error));
  }

  /**
   * A `stat` that fails on the script, or on its directory once the script
   * passes, is not a refusal: its `OSError` is answered with one `error`
   * frame carrying its text, exit status 1, and no launch.
   */
  lemma StatFailureReported(world: World, decode: seq<byte> -> Result<Json.Value>,
                            run: seq<string> -> Launcher.ChildResult, error: string)
    requires Integrity.CheckSecurity(world.script, world.parent) == Integrity.Raised(error)
    requires |error| < 0x1000_0000
    ensures var r := Main(world, decode, run);
            && r.status == 1
            && r.attempted.None?
            && Framing.ReadResponseFrame(r.stdout) == Some(ResponseJson.Failure(error))
  {
    Framing.ShortResponsesFit(ResponseJson.Failure(error));
  }

  /** An oversized request is refused with "Message too large", whatever its payload. */
  lemma OversizedRequest(world: World, decode: seq<byte> -> Result<Json.Value>, run: seq<string> -> Launcher.ChildResult)
    requires Integrity.CheckSecurity(world.script, world.parent).Trusted?
    requires |world.stdin| >= 4 && DecodeU32(world.stdin[..4]) > Framing.MaxMessageLength
    ensures var r := Main(world, decode, run);
            && r.status == 1
            && r.attempted.None?
            && Framing.ReadResponseFrame(r.stdout) == Some(ResponseJson.Failure("Message too large"))
  {
    EarlyFailureReported(world, decode, run, "Message too large");
  }

  /** The player exits 0 with nothing on standard error: the plain confirmation, status 0. */
  lemma CleanLaunch(world: World, decode: seq<byte> -> Result<Json.Value>,
                    run: seq<string> -> Launcher.ChildResult, link: string)
    requires ReachesLaunch(world, decode, link)
    requires run(Launcher.ClapperArgv(link)) == Launcher.Exited(0, "")
    ensures var r := Main(world, decode, run);
            r.status == 0 && Framing.ReadResponseFrame(r.stdout) == Some(ResponseJson.Reply(true, "Video sent to Clapper"))
  {
    LaunchResultAnswered(world, decode, run, link);
  }

  /**
   * The player exits 1 with "no such app": a `message` frame (not an
   * `error` one) saying "Clapper error: no such app", and status 0.
   */
  lemma PlayerFailure(world: World, decode: seq<byte> -> Result<Json.Value>,
                      run: seq<string> -> Launcher.ChildResult, link: string)
    requires ReachesLaunch(world, decode, link)
    requires run(Launcher.ClapperArgv(link)) == Launcher.Exited(1, "no such app")
    ensures var r := Main(world, decode, run);
            r.status == 0 && Framing.ReadResponseFrame(r.stdout) == Some(ResponseJson.Reply(false, "Clapper error: no such app"))
  {
    assert Launcher.ErrorPrefix + "no such app" == "Clapper error: no such app";
    assert Launcher.LaunchClapper(link, run) == Launcher.Reported(false, "Clapper error: no such app");
    LaunchResultAnswered(world, decode, run, link);
  }

  /**
   * A player that cannot be started at all (an `OSError`, which is not a
   * `SubprocessError`) escapes `launch_clapper` and reaches the top-level
   * handler: an `error` frame with the exception's text and status 1.
   */
  lemma PlayerMissing(world: World, decode: seq<byte> -> Result<Json.Value>,
                      run: seq<string> -> Launcher.ChildResult, link: string, text: string)
    requires ReachesLaunch(world, decode, link)
    requires run(Launcher.ClapperArgv(link)) == Launcher.OtherException(text)
    requires |text| < 0x1000_0000
    ensures var r := Main(world, decode, run);
            && r.status == 1
            && r.attempted == Some(Launcher.ClapperArgv(link))
            && Framing.ReadResponseFrame(r.stdout) == Some(ResponseJson.Failure(text))
  {
    Framing.ShortResponsesFit(ResponseJson.Failure(text));
  }
}
