/** The `upgrade` command of `src/commands/upgrade.ts`: whether to install,
    which package manager to try, the npm-then-yarn fallback, the exit codes,
    and the final verification. Environment variables, the process's argument
    vector, the installs and both version checks are parameters. */
module Upgrade {
  import opened Wrappers
  import Text
  import opened Version
  import Utils

  const BunInstall := "bun add -g nailgun@latest"
  const NpmInstall := "npm install -g nailgun@latest"
  const YarnInstall := "yarn global add nailgun@latest"

  /** How the action ends: already up to date (plain return), `exit(1)`
      after every attempted install failed, or installed, with whether the
      verification reported that the version advanced. */
  datatype Outcome = AlreadyLatest | ExitFailure | Installed(advanced: bool)

  /** The install commands run, in order, and the outcome. */
  datatype UpgradeRun = UpgradeRun(attempted: seq<string>, outcome: Outcome)

  /** `npm_config_user_agent?.includes('bun') || argv[0]?.includes('bun')`;
      an undefined value is falsy. Bun is detected exactly when "bun" occurs
      in the user agent or in the first argument. */
  function IsUsingBun(userAgent: Option<string>, argv0: Option<string>): (r: bool)
    ensures r <==>
      (userAgent.Some? && exists i :: Text.OccursAt(userAgent.value, "bun", i))
      || (argv0.Some? && exists i :: Text.OccursAt(argv0.value, "bun", i))
  {
    Text.ContainsIff(userAgent.GetOr(""), "bun");
    Text.ContainsIff(argv0.GetOr(""), "bun");
    (userAgent.Some? && Text.Contains(userAgent.value, "bun"))
    || (argv0.Some? && Text.Contains(argv0.value, "bun"))
  }

  /** The verification as written: success is reported when the version
      before the install compares greater than the version after it, that
      is, exactly when the version after the install is OLDER. */
  function VerifiedAsWritten(before: VersionInfo, after: VersionInfo): (r: bool)
    ensures r <==> CompareVersions(after.current, before.current) == -1
  {
    CompareAntisymmetric(before.current, after.current);
    CompareVersions(before.current, after.current) > 0
  }

  /** As written, every genuine upgrade (the version after the install is
      newer) is reported as "no change", and every downgrade as a successful
      upgrade. */
  lemma AsWrittenIsInverted(before: VersionInfo, after: VersionInfo)
    requires CompareVersions(before.current, after.current) == -1
    ensures !VerifiedAsWritten(before, after)
    ensures VerifiedAsWritten(after, before)
  {
    CompareAntisymmetric(before.current, after.current);
  }

  lemma RenderedOneZeroZero()
    ensures Render([1, 0, 0]) == "1.0.0"
  {
    RenderThree(1, 0, 0);
  }

  lemma RenderedOneOneZero()
    ensures Render([1, 1, 0]) == "1.1.0"
  {
    RenderThree(1, 1, 0);
  }

  /** An upgrade from 1.0.0 to 1.1.0 is such a case: it is a genuine
      upgrade, and the verification as written does not report it. */
  lemma UpgradeFromOneZero()
    ensures CompareVersions("1.0.0", "1.1.0") == -1
    ensures !VerifiedAsWritten(VersionInfo("1.0.0", "1.1.0", true), VersionInfo("1.1.0", "1.1.0", false))
  {
    CompareFirstDifference([1, 0, 0], [1, 1, 0], 0, 1);
    CompareRendered([1, 0, 0], [1, 1, 0]);
    RenderedOneZeroZero();
    RenderedOneOneZero();
    AsWrittenIsInverted(VersionInfo("1.0.0", "1.1.0", true), VersionInfo("1.1.0", "1.1.0", false));
  }

  /** The verification as intended: success is reported exactly when the
      version after the install is strictly newer than the one before. */
  function VerifiedAdvance(before: VersionInfo, after: VersionInfo): (r: bool)
    ensures r <==> CompareVersions(before.current, after.current) == -1
  {
    CompareAntisymmetric(before.current, after.current);
    CompareVersions(after.current, before.current) > 0
  }

  /** Which comparison the final verification makes: the one written in the
      source, or the intended one. */
  datatype Verification = AsWritten | Corrected

  function Verify(how: Verification, before: VersionInfo, after: VersionInfo): bool
  {
    match how
    case AsWritten => VerifiedAsWritten(before, after)
    case Corrected => VerifiedAdvance(before, after)
  }

  /** The `upgrade` action. Both version checks report the running build's
      own version `current`; `fetchedBefore` and `fetchedAfter` are the two
      registry fetches, and `installs` says whether running an install
      command succeeds. The second check is consulted only once an install
      succeeded. */
  function UpgradeAction(
    force: bool, how: Verification, current: string, fetchedBefore: Option<string>,
    userAgent: Option<string>, argv0: Option<string>, installs: string -> bool,
    fetchedAfter: Option<string>): (r: UpgradeRun)
    ensures !CheckVersion(current, fetchedBefore).isOutdated && !force <==> r.outcome == AlreadyLatest
    ensures r.outcome == AlreadyLatest <==> r.attempted == []
    ensures IsUsingBun(userAgent, argv0) && r.attempted != [] ==> r.attempted == [BunInstall]
    ensures !IsUsingBun(userAgent, argv0) && r.attempted != [] ==>
      r.attempted == [NpmInstall] || r.attempted == [NpmInstall, YarnInstall]
    ensures YarnInstall in r.attempted <==> r.attempted != [] && r.attempted[0] == NpmInstall && !installs(NpmInstall)
    ensures r.outcome == ExitFailure <==>
      r.attempted != [] && forall c :: c in r.attempted ==> !installs(c)
    ensures r.outcome.Installed? ==>
      installs(r.attempted[|r.attempted| - 1])
      && r.outcome.advanced == Verify(how, CheckVersion(current, fetchedBefore), CheckVersion(current, fetchedAfter))
  {
    var before := CheckVersion(current, fetchedBefore);
    if !before.isOutdated && !force then UpgradeRun([], AlreadyLatest)
    else
      var verified := Installed(Verify(how, before, CheckVersion(current, fetchedAfter)));
      if IsUsingBun(userAgent, argv0) then
        UpgradeRun([BunInstall], if installs(BunInstall) then verified else ExitFailure)
      else if installs(NpmInstall) then
        UpgradeRun([NpmInstall], verified)
      else
        UpgradeRun([NpmInstall, YarnInstall], if installs(YarnInstall) then verified else ExitFailure)
  }

  /** Both checks report the same running version, so neither form of the
      verification ever reports that the version advanced: every successful
      install ends with the "no change" warning. */
  lemma NeverReportsAdvance(
    force: bool, how: Verification, current: string, fetchedBefore: Option<string>,
    userAgent: Option<string>, argv0: Option<string>, installs: string -> bool,
    fetchedAfter: Option<string>)
    ensures var r := UpgradeAction(force, how, current, fetchedBefore, userAgent, argv0, installs, fetchedAfter);
      r.outcome.Installed? ==> !r.outcome.advanced
  {
    CompareReflexive(current);
  }

  /** The install command lines split into exactly the expected argument
      vectors. */
  lemma InstallArgv(spawn: Utils.SpawnOutcome)
    ensures Utils.RunCommand(BunInstall, spawn).argv == ["bun", "add", "-g", "nailgun@latest"]
  {
    var pieces := ["bun", "add", "-g", "nailgun@latest"];
    assert pieces[1..][1..][1..] == ["nailgun@latest"];
    assert Text.Join(pieces, ' ') == BunInstall;
    Utils.ArgvIsUnique(BunInstall, spawn, pieces);
  }
}
