/** The once-per-session version-check middleware of `src/middleware.ts`:
    a two-state machine over the module-level flag `versionChecked`. The
    process's argument vector and the outcome of `checkVersion` are inputs. */
module Middleware {
  import opened Wrappers
  import opened Version

  /** What `await checkVersion()` did: threw, or returned a version record. */
  datatype CheckOutcome = CheckThrew | CheckReturned(info: VersionInfo)

  /** The flag after one invocation, whether a check was started, and the
      update notice displayed, if any. */
  datatype Step = Step(versionChecked: bool, checked: bool, notice: Option<Notice>)

  /** `versionCheckMiddleware()`: skip when already checked in this session
      or when "upgrade" is among the arguments; otherwise check, display the
      notice, and set the flag only when the check did not throw. */
  function VersionCheckMiddleware(versionChecked: bool, argv: seq<string>, check: CheckOutcome): (r: Step)
    ensures versionChecked ==> r == Step(true, false, None)
    ensures "upgrade" in argv ==> !r.checked && r.versionChecked == versionChecked && r.notice.None?
    ensures r.checked <==> !versionChecked && "upgrade" !in argv
    ensures r.versionChecked <==> versionChecked || (r.checked && check.CheckReturned?)
    ensures r.notice.Some? <==> r.checked && check.CheckReturned? && check.info.isOutdated
  {
    if versionChecked then Step(true, false, None)
    else if "upgrade" in argv then Step(false, false, None)
    else match check
      case CheckThrew => Step(false, true, None)
      case CheckReturned(info) => Step(true, true, DisplayVersionNotification(info))
  }

  /** One invocation of the middleware within a session. */
  datatype Invocation = Invocation(argv: seq<string>, check: CheckOutcome)

  /** A whole session: the final flag, the number of checks that returned,
      and the notices displayed, in order. */
  datatype Session = Session(versionChecked: bool, completedChecks: nat, notices: seq<Notice>)

  function RunSession(versionChecked: bool, calls: seq<Invocation>): (r: Session)
    ensures |r.notices| <= r.completedChecks <= |calls|
    ensures versionChecked ==> r.versionChecked
    decreases |calls|
  {
    if |calls| == 0 then Session(versionChecked, 0, [])
    else
      var step := VersionCheckMiddleware(versionChecked, calls[0].argv, calls[0].check);
      var rest := RunSession(step.versionChecked, calls[1..]);
      var done := if step.checked && calls[0].check.CheckReturned? then 1 else 0;
      var shown := if step.notice.Some? then [step.notice.value] else [];
      Session(rest.versionChecked, done + rest.completedChecks, shown + rest.notices)
  }

  /** Once per session: at most one check completes and at most one notice
      is displayed, none at all once the flag is set, and the flag, once
      set, stays set. */
  lemma {:induction false} OncePerSession(versionChecked: bool, calls: seq<Invocation>)
    ensures var s := RunSession(versionChecked, calls);
      s.completedChecks <= 1 && |s.notices| <= s.completedChecks
      && (versionChecked ==> s.completedChecks == 0 && s.versionChecked)
      && (s.versionChecked <==> versionChecked || s.completedChecks == 1)
    decreases |calls|
  {
    if |calls| > 0 {
      var step := VersionCheckMiddleware(versionChecked, calls[0].argv, calls[0].check);
      OncePerSession(step.versionChecked, calls[1..]);
    }
  }
}
