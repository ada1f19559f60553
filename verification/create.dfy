/** The `create <project-name> --branch <branch>` action of
    `src/commands/create.ts` as a trace of effects: file writes, command runs
    and the seed-app clone, ending in success, `exit(1)`, or an unhandled
    rejection when the clone fails. The existence check and the outcomes of
    the installs and of the clone are parameters. */
module Create {
  import opened Wrappers
  import Utils

  const SeedRepository := "https://github.com/zodula/zodula.git"
  const DefaultName := "nailgun-project"
  const Workspaces := ["apps/*", "apps/*/ui"]

  /** What is written to a file of the new project. */
  datatype FileContent = SeededManifest(manifest: Utils.Manifest) | TsConfig | EmptyFile

  /** One effect, with paths relative to the project directory. */
  datatype Effect =
    | WriteFile(path: string, content: FileContent)
    | Run(command: string, cwd: string)
    | Clone(url: string, branch: string, cwd: string)

  /** How the action ends. `CloneRejected`: the shell `git clone` exited
      non-zero, which rejects the action's promise, and nothing handles it. */
  datatype Outcome = Created | ExitFailure | CloneRejected

  datatype CreateRun = CreateRun(effects: seq<Effect>, outcome: Outcome)

  /** The `package.json` the action writes: the project name (or the default
      when the name is empty), version 1.0.0, an ES module, the workspace
      globs, no installed apps yet and the requested default branch. */
  function SeedManifest(projectName: string, branch: string): (r: Utils.Manifest)
    ensures r.name.Some? && r.name.value != ""
    ensures projectName != "" ==> r.name == Some(projectName)
    ensures Utils.AppsOf(r) == [] && r.nailgun.Some? && r.nailgun.value.commands.NoCommands?
    ensures r.nailgun.value.branch == Some(branch)
  {
    Utils.Manifest(
      Some(if projectName == "" then DefaultName else projectName),
      Some("1.0.0"),
      Some(Workspaces),
      Some(Utils.Nailgun(Some([]), Some(branch), Utils.NoCommands, map[])),
      map["type" := "\"module\""])
  }

  /** The first four effects of every run that gets past the existence
      check. */
  function Scaffold(projectName: string, branch: string): seq<Effect>
  {
    [ WriteFile("package.json", SeededManifest(SeedManifest(projectName, branch))),
      WriteFile("tsconfig.json", TsConfig),
      WriteFile("apps/.keep", EmptyFile),
      Run("bun install", ".") ]
  }

  /** The action. Each failure stops it at once; nothing already written is
      undone. */
  function CreateAction(
    projectName: string, branch: string, targetExists: bool,
    firstInstallOk: bool, cloneOk: bool, secondInstallOk: bool): (r: CreateRun)
    ensures targetExists ==> r == CreateRun([], ExitFailure)
    ensures !targetExists ==> |r.effects| >= 4 && r.effects[..4] == Scaffold(projectName, branch)
    ensures r.outcome == Created <==> !targetExists && firstInstallOk && cloneOk && secondInstallOk
    ensures r.outcome == CloneRejected <==> !targetExists && firstInstallOk && !cloneOk
    ensures (exists i :: 0 <= i < |r.effects| && r.effects[i].Clone?) <==> !targetExists && firstInstallOk
    ensures forall e :: e in r.effects && e.Clone? ==> e == Clone(SeedRepository, branch, "apps")
  {
    var scaffold := Scaffold(projectName, branch);
    var clone := Clone(SeedRepository, branch, "apps");
    if targetExists then CreateRun([], ExitFailure)
    else if !firstInstallOk then CreateRun(scaffold, ExitFailure)
    else if !cloneOk then
      var effects := scaffold + [clone];
      assert effects[4].Clone?;
      CreateRun(effects, CloneRejected)
    else
      var effects := scaffold + [clone, Run("bun install", ".")];
      assert effects[4].Clone?;
      CreateRun(effects, if secondInstallOk then Created else ExitFailure)
  }

  /** The effects of the full successful run. */
  function FullTrace(projectName: string, branch: string): seq<Effect>
  {
    Scaffold(projectName, branch) + [Clone(SeedRepository, branch, "apps"), Run("bun install", ".")]
  }

  /** Abort ordering: whatever fails, the effects performed are a prefix of
      the successful run's (package.json, tsconfig.json, apps/.keep, install,
      clone, install), and a run that fails performs fewer of them or ends
      after the last install failed. */
  lemma EffectsArePrefix(
    projectName: string, branch: string, targetExists: bool,
    firstInstallOk: bool, cloneOk: bool, secondInstallOk: bool)
    ensures var r := CreateAction(projectName, branch, targetExists, firstInstallOk, cloneOk, secondInstallOk);
      r.effects <= FullTrace(projectName, branch)
      && (r.outcome == Created ==> r.effects == FullTrace(projectName, branch))
      && (targetExists ==> r.effects == [])
      && (!targetExists && !firstInstallOk ==> |r.effects| == 4)
  {
  }

  /** The seeded manifest is a well-formed project manifest, and adding the
      first app to it yields exactly that app while keeping the branch and
      every other field. */
  lemma SeedThenAddApp(projectName: string, branch: string, app: string)
    ensures var m := SeedManifest(projectName, branch);
      Utils.AppsOf(m) == [] && m.nailgun.value.branch == Some(branch)
      && m.name == Some(if projectName == "" then DefaultName else projectName)
      && m.version == Some("1.0.0") && m.workspaces == Some(Workspaces)
    ensures var r := Utils.AddAppToPackageJson(app, Some(SeedManifest(projectName, branch)));
      r.Written? && Utils.AppsOf(r.manifest) == [app]
      && r.manifest.nailgun.value.branch == Some(branch)
      && r.manifest.workspaces == Some(Workspaces)
  {
  }
}
