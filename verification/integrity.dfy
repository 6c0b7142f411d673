/**
 * `check_security`: the host refuses to run when its own script, or the
 * directory holding it, is writable by "others".
 */
module Integrity {

  /** What `os.stat` returns for a path: the mode word, or the text of the `OSError` it raised. */
  datatype Stat = Mode(bits: nat) | StatFailed(error: string)

  /** The gate's verdict. */
  datatype Verdict =
    | Trusted
    | Refused(reason: string)   // `sys.exit(reason)`: status 1, nothing on standard output
    | Raised(error: string)     // `os.stat` raised; `main`'s handler reports it

  /** `bool(mode & stat.S_IWOTH)`: bit 1 of the mode word (octal 0o002), write permission for others. */
  predicate WorldWritable(mode: nat) {
    (mode / 2) % 2 == 1
  }

  const ScriptReason: string := "Error: Script is world-writable"
  const DirectoryReason: string := "Error: Parent directory is world-writable"

  /**
   * The script is examined first; the directory is only examined when the
   * script passes. A failing `stat` is not a refusal: its `OSError` reaches
   * `main`'s handler.
   */
  function CheckSecurity(script: Stat, parent: Stat): (v: Verdict)
    ensures v.Trusted? <==>
              script.Mode? && !WorldWritable(script.bits) && parent.Mode? && !WorldWritable(parent.bits)
    ensures v.Refused? ==> v.reason in {ScriptReason, DirectoryReason}
    ensures script.Mode? && WorldWritable(script.bits) ==> v == Refused(ScriptReason)
    ensures v == Refused(DirectoryReason) <==>
              script.Mode? && !WorldWritable(script.bits) && parent.Mode? && WorldWritable(parent.bits)
    ensures script.StatFailed? ==> v == Raised(script.error)
    ensures script.Mode? && !WorldWritable(script.bits) && parent.StatFailed? ==> v == Raised(parent.error)
  {
    match script
    case StatFailed(e) => Raised(e)
    case Mode(m) =>
      if WorldWritable(m) then Refused(ScriptReason)
      else
        match parent
        case StatFailed(e) => Raised(e)
        case Mode(p) => if WorldWritable(p) then Refused(DirectoryReason) else Trusted
  }
}
