/**
 * `launch_clapper`: runs the player once, as an argument vector without a
 * shell, and maps what happened to a `(success, text)` pair. The child
 * process is the parameter `run`, from the argument vector to its result.
 */
module Launcher {
  import opened Strings

  /** What `subprocess.run(..., capture_output=True, text=True, check=True)` does. */
  datatype ChildResult =
    | Exited(status: int, stderr: string)  // the child ran; a non-zero status raises `CalledProcessError`
    | SubprocessFailed(text: string)       // some other `SubprocessError`
    | OtherException(text: string)         // anything else, e.g. the `OSError` of a missing `flatpak`

  /** Either the pair `launch_clapper` returns, or the text of an exception it lets through. */
  datatype LaunchResult = Reported(success: bool, text: string) | Escaped(error: string)

  const Sent: string := "Video sent to Clapper"
  const NotePrefix: string := "Video sent to Clapper (Note: "
  const ErrorPrefix: string := "Clapper error: "
  const LaunchPrefix: string := "Failed to launch Clapper: "

  /** The words before the link; the same for every link. */
  const PlayerCommand: seq<string> := ["flatpak", "run", "com.github.rafostar.Clapper"]

  /**
   * The argument vector, passed with `shell=False`: whatever characters the
   * link holds, it is one element, the last, and nothing else depends on it.
   */
  function ClapperArgv(link: string): (argv: seq<string>)
    ensures |argv| == 4 && argv[..3] == PlayerCommand && argv[3] == link
  {
    PlayerCommand + [link]
  }

  function LaunchClapper(link: string, run: seq<string> -> ChildResult): (r: LaunchResult)
    ensures r.Reported? <==> !run(ClapperArgv(link)).OtherException?
    ensures r.Reported? ==> (r.success <==> run(ClapperArgv(link)).Exited? && run(ClapperArgv(link)).status == 0)
    ensures r.Escaped? ==> r.error == run(ClapperArgv(link)).text
    ensures run(ClapperArgv(link)).SubprocessFailed? ==>
              StartsWith(r.text, LaunchPrefix) && r.text[|LaunchPrefix|..] == run(ClapperArgv(link)).text
  {
    match run(ClapperArgv(link))
    case Exited(status, err) =>
      if status != 0 then Reported(false, ErrorPrefix + err)
      else if err != "" then Reported(true, NotePrefix + err + ")")
      else Reported(true, Sent)
    case SubprocessFailed(t) => Reported(false, LaunchPrefix + t)
    case OtherException(t) => Escaped(t)
  }

  /**
   * The reported text always lets the child's diagnostics be recovered:
   * on success it is the plain confirmation or the confirmation with the
   * standard error as a parenthesised note; on a failed exit it is the
   * standard error behind `Clapper error: `; for any other
   * `SubprocessError` it is the exception's text behind
   * `Failed to launch Clapper: `.
   */
  lemma OutcomeText(link: string, run: seq<string> -> ChildResult)
    requires !run(ClapperArgv(link)).OtherException?
    ensures var c := run(ClapperArgv(link));
            var r := LaunchClapper(link, run);
            && r.Reported?
            && (c.Exited? && c.status == 0 && c.stderr == "" ==> r.text == Sent)
            && (c.Exited? && c.status == 0 && c.stderr != "" ==>
                  && StartsWith(r.text, NotePrefix)
                  && r.text[|NotePrefix|..|r.text| - 1] == c.stderr
                  && r.text[|r.text| - 1] == ')')
            && (c.Exited? && c.status != 0 ==> StartsWith(r.text, ErrorPrefix) && r.text[|ErrorPrefix|..] == c.stderr)
            && (c.SubprocessFailed? ==> StartsWith(r.text, LaunchPrefix) && r.text[|LaunchPrefix|..] == c.text)
  {
    var c := run(ClapperArgv(link));
    if c.Exited? && c.status == 0 && c.stderr != "" {
      var t := NotePrefix + c.stderr + ")";
      assert t[..|NotePrefix|] == NotePrefix;
      assert t[|NotePrefix|..|t| - 1] == c.stderr;
    } else if c.Exited? && c.status != 0 {
      var t := ErrorPrefix + c.stderr;
      assert t[..|ErrorPrefix|] == ErrorPrefix;
      assert t[|ErrorPrefix|..] == c.stderr;
    } else if c.SubprocessFailed? {
      var t := LaunchPrefix + c.text;
      assert t[..|LaunchPrefix|] == LaunchPrefix;
      assert t[|LaunchPrefix|..] == c.text;
    }
  }

  /** A reported pair is a success exactly when its text is the confirmation, with or without a note. */
  lemma SuccessIffConfirmation(link: string, run: seq<string> -> ChildResult)
    requires LaunchClapper(link, run).Reported?
    ensures LaunchClapper(link, run).success <==> StartsWith(LaunchClapper(link, run).text, Sent)
  {
    var r := LaunchClapper(link, run);
    var c := run(ClapperArgv(link));
    if c.Exited? && c.status != 0 {
      assert r.text[0] == 'C' && Sent[0] == 'V';
    } else if c.SubprocessFailed? {
      assert r.text[0] == 'F' && Sent[0] == 'V';
    } else if c.status == 0 && c.stderr != "" {
      assert r.text[..|Sent|] == NotePrefix[..|Sent|];
    }
  }
}
