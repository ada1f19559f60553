/** The best-effort plugin loader `loadAppCommands` of `src/cli.ts`, as a
    fold over the entries of the `apps` directory. The file system and the
    dynamic `import()` are not performed: each entry carries what the file
    system reported, and an oracle gives the outcome of loading each declared
    command path. Registration into the command-line program is an
    append-only sequence. */
module Cli {
  import opened Wrappers
  import opened Utils

  /** A command descriptor a module default-exports. */
  datatype Descriptor = Descriptor(commandName: string)

  /** The outcome of loading one declared path: a descriptor, a falsy
      default export, or a throw (missing file, syntax or evaluation error).
      `MessageThrew` is a throw whose error message cannot be built, because
      the thrown value or the path has no string conversion (a `Symbol`, an
      object without a prototype, a JSON object whose `toString` and
      `valueOf` are not functions): the inner `catch` then throws in turn,
      and the per-app `catch` takes over. */
  datatype LoadOutcome = Loaded(descriptor: Descriptor) | NoDefaultExport | LoadThrew | MessageThrew

  /** What exists at `apps/<name>/package.json`. */
  datatype PackageFile = NoPackageJson | PackageJson(read: FileRead)

  /** One entry of `readdirSync(appsPath, { withFileTypes: true })`. */
  datatype DirEntry = DirEntry(name: string, isDirectory: bool, packageFile: PackageFile)

  /** What enumerating the apps directory produced. */
  datatype Listing = ListingFailed | Listed(entries: seq<DirEntry>)

  /** The warnings and errors the loader logs. `ManifestUnreadable` is the
      error `readPackageJson` itself logs, `AppFailed` the per-app warning
      "Failed to read package.json for <app>"; the others name the app too. */
  datatype LogEntry =
    | InvalidCommands(app: string)
    | CommandNotFound(app: string, path: string)
    | CommandFailed(app: string, path: string)
    | AppFailed(app: string)
    | ManifestUnreadable(why: ReadFailure)
    | AppsDirUnreadable

  predicate IsWarning(e: LogEntry)
  {
    e.InvalidCommands? || e.CommandNotFound? || e.AppFailed?
  }

  /** The registered descriptors, in registration order, and the log. */
  datatype Loading = Loading(registered: seq<Descriptor>, log: seq<LogEntry>)

  const Nothing := Loading([], [])

  function Then(x: Loading, y: Loading): Loading
  {
    Loading(x.registered + y.registered, x.log + y.log)
  }

  /** One declared command path of app `app`. */
  function LoadPath(app: string, path: string, load: (string, string) -> LoadOutcome): (r: Loading)
    ensures |r.registered| + |r.log| == 1
    ensures load(app, path).Loaded? ==> r == Loading([load(app, path).descriptor], [])
    ensures load(app, path).NoDefaultExport? ==> r == Loading([], [CommandNotFound(app, path)])
    ensures load(app, path).LoadThrew? ==> r == Loading([], [CommandFailed(app, path)])
    ensures load(app, path).MessageThrew? ==> r == Loading([], [AppFailed(app)])
  {
    match load(app, path)
    case Loaded(d) => Loading([d], [])
    case NoDefaultExport => Loading([], [CommandNotFound(app, path)])
    case LoadThrew => Loading([], [CommandFailed(app, path)])
    case MessageThrew => Loading([], [AppFailed(app)])
  }

  /** Some declared path's failure escapes to the per-app `catch`. */
  predicate Aborts(app: string, paths: seq<string>, load: (string, string) -> LoadOutcome)
  {
    exists i :: 0 <= i < |paths| && load(app, paths[i]).MessageThrew?
  }

  /** The inner `for` loop: every declared path in order. An ordinary
      failure is logged and the next path is still tried; a failure whose
      message cannot be built ends the app with the per-app warning. */
  function LoadPaths(app: string, paths: seq<string>, load: (string, string) -> LoadOutcome): (r: Loading)
    ensures |r.registered| + |r.log| <= |paths|
    ensures forall e :: e in r.log ==> e.CommandNotFound? || e.CommandFailed? || e == AppFailed(app)
  {
    if |paths| == 0 then Nothing
    else if load(app, paths[0]).MessageThrew? then LoadPath(app, paths[0], load)
    else Then(LoadPath(app, paths[0], load), LoadPaths(app, paths[1..], load))
  }

  /** Dropping the first path of a list that starts with a path whose
      failure does not escape leaves the question of escaping unchanged. */
  lemma AbortsTail(app: string, paths: seq<string>, load: (string, string) -> LoadOutcome)
    requires |paths| > 0 && !load(app, paths[0]).MessageThrew?
    ensures Aborts(app, paths, load) <==> Aborts(app, paths[1..], load)
  {
    if Aborts(app, paths, load) {
      var i :| 0 <= i < |paths| && load(app, paths[i]).MessageThrew?;
      assert paths[1..][i - 1] == paths[i];
    }
    if Aborts(app, paths[1..], load) {
      var i :| 0 <= i < |paths| - 1 && load(app, paths[1..][i]).MessageThrew?;
      assert paths[i + 1] == paths[1..][i];
    }
  }

  /** The per-app warning is logged exactly when some path's failure
      escapes, and then it is the last entry; otherwise every path
      contributes exactly one registration or one log entry. */
  lemma {:induction false} AbortIsLogged(app: string, paths: seq<string>, load: (string, string) -> LoadOutcome)
    ensures Aborts(app, paths, load) <==> AppFailed(app) in LoadPaths(app, paths, load).log
    ensures Aborts(app, paths, load) ==>
      var log := LoadPaths(app, paths, load).log; log[|log| - 1] == AppFailed(app)
    ensures !Aborts(app, paths, load) ==>
      |LoadPaths(app, paths, load).registered| + |LoadPaths(app, paths, load).log| == |paths|
    decreases |paths|
  {
    if |paths| > 0 {
      if load(app, paths[0]).MessageThrew? {
        assert load(app, paths[0 as int]).MessageThrew?;
      } else {
        AbortsTail(app, paths, load);
        AbortIsLogged(app, paths[1..], load);
      }
    }
  }

  /** One candidate app directory: a missing `package.json`, or a manifest
      without (truthy) `nailgun.commands`, registers nothing; an unreadable
      manifest leaves only the error `readPackageJson` logged; a `commands`
      that is not an array logs one warning; a list of paths loads them. */
  function LoadApp(entry: DirEntry, load: (string, string) -> LoadOutcome): (r: Loading)
    ensures entry.packageFile.NoPackageJson? ==> r == Nothing
    ensures entry.packageFile.PackageJson? && entry.packageFile.read.Failed? ==>
      r == Loading([], [ManifestUnreadable(entry.packageFile.read.why)])
    ensures entry.packageFile.PackageJson? && entry.packageFile.read.Parsed? ==>
      var m := entry.packageFile.read.manifest;
      (m.nailgun.None? || m.nailgun.value.commands.NoCommands? ==> r == Nothing)
      && (m.nailgun.Some? && m.nailgun.value.commands.NotAList? ==> r == Loading([], [InvalidCommands(entry.name)]))
      && (m.nailgun.Some? && m.nailgun.value.commands.Paths? ==>
            r == LoadPaths(entry.name, m.nailgun.value.commands.paths, load))
  {
    match entry.packageFile
    case NoPackageJson => Nothing
    case PackageJson(file) =>
      var read := ReadPackageJson(file);
      var readLog := seq(|read.errors|, i requires 0 <= i < |read.errors| => ManifestUnreadable(read.errors[i]));
      match read.manifest
      case None => Loading([], readLog)
      case Some(m) =>
        if m.nailgun.None? then Nothing
        else match m.nailgun.value.commands
          case NoCommands => Nothing
          case NotAList => Loading([], [InvalidCommands(entry.name)])
          case Paths(paths) => LoadPaths(entry.name, paths, load)
  }

  /** The directory entries that are directories, in enumeration order. */
  function AppDirs(entries: seq<DirEntry>): (r: seq<DirEntry>)
    ensures forall e :: e in r <==> e in entries && e.isDirectory
    ensures |r| <= |entries|
  {
    if |entries| == 0 then []
    else (if entries[0].isDirectory then [entries[0]] else []) + AppDirs(entries[1..])
  }

  /** The outer `for` loop over the candidate apps, in enumeration order:
      everything registered or logged comes from one of the apps. */
  function LoadApps(apps: seq<DirEntry>, load: (string, string) -> LoadOutcome): Loading
  {
    if |apps| == 0 then Nothing
    else Then(LoadApp(apps[0], load), LoadApps(apps[1..], load))
  }

  /** Everything registered or logged comes from one of the apps. */
  lemma {:induction false} LoadAppsFromApps(apps: seq<DirEntry>, load: (string, string) -> LoadOutcome)
    ensures forall d :: d in LoadApps(apps, load).registered ==>
      exists i :: 0 <= i < |apps| && d in LoadApp(apps[i], load).registered
    ensures forall e :: e in LoadApps(apps, load).log ==>
      exists i :: 0 <= i < |apps| && e in LoadApp(apps[i], load).log
    decreases |apps|
  {
    if |apps| > 0 {
      LoadAppsFromApps(apps[1..], load);
      forall i | 0 <= i < |apps| - 1
        ensures apps[1..][i] == apps[i + 1]
      {
      }
    }
  }

  /** `loadAppCommands`: no `apps` directory is a silent no-op, a failure to
      enumerate it is logged and ends loading, and otherwise every directory
      entry is tried in turn. Nothing propagates to the caller. */
  function LoadAppCommands(appsDirExists: bool, listing: Listing, load: (string, string) -> LoadOutcome): (r: Loading)
    ensures !appsDirExists ==> r == Nothing
    ensures appsDirExists && listing.ListingFailed? ==> r == Loading([], [AppsDirUnreadable])
  {
    if !appsDirExists then Nothing
    else match listing
      case ListingFailed => Loading([], [AppsDirUnreadable])
      case Listed(entries) => LoadApps(AppDirs(entries), load)
  }

  /** Apps are isolated: loading a list of apps is loading each part in turn,
      so what one app does never changes what another contributes, and
      registrations follow enumeration order. */
  lemma {:induction false} LoadAppsConcat(xs: seq<DirEntry>, ys: seq<DirEntry>, load: (string, string) -> LoadOutcome)
    ensures LoadApps(xs + ys, load) == Then(LoadApps(xs, load), LoadApps(ys, load))
    decreases |xs|
  {
    if |xs| == 0 {
      assert xs + ys == ys;
    } else {
      assert (xs + ys)[0] == xs[0];
      assert (xs + ys)[1..] == xs[1..] + ys;
      LoadAppsConcat(xs[1..], ys, load);
      ThenAssociative(LoadApp(xs[0], load), LoadApps(xs[1..], load), LoadApps(ys, load));
    }
  }

  lemma ThenAssociative(x: Loading, y: Loading, z: Loading)
    ensures Then(x, Then(y, z)) == Then(Then(x, y), z)
  {
    assert x.registered + (y.registered + z.registered) == (x.registered + y.registered) + z.registered;
    assert x.log + (y.log + z.log) == (x.log + y.log) + z.log;
  }

  /** Paths load in declaration order, each after the previous one, until
      one failure escapes to the per-app `catch`: nothing after it loads. */
  lemma {:induction false} LoadPathsConcat(app: string, xs: seq<string>, ys: seq<string>, load: (string, string) -> LoadOutcome)
    ensures LoadPaths(app, xs + ys, load) ==
      if Aborts(app, xs, load) then LoadPaths(app, xs, load)
      else Then(LoadPaths(app, xs, load), LoadPaths(app, ys, load))
    decreases |xs|
  {
    if |xs| == 0 {
      assert xs + ys == ys;
    } else {
      assert (xs + ys)[0] == xs[0];
      assert (xs + ys)[1..] == xs[1..] + ys;
      if !load(app, xs[0]).MessageThrew? {
        LoadPathsConcat(app, xs[1..], ys, load);
        AbortsTail(app, xs, load);
      } else {
        assert load(app, xs[0 as int]).MessageThrew?;
      }
    }
  }

  /** A failure whose message cannot be built ends its app: the paths after
      it are not loaded, and the app's log ends with the per-app warning. */
  lemma UnprintableFailureEndsApp(app: string, xs: seq<string>, p: string, ys: seq<string>, load: (string, string) -> LoadOutcome)
    requires !Aborts(app, xs, load) && load(app, p).MessageThrew?
    ensures LoadPaths(app, xs + [p] + ys, load) == Then(LoadPaths(app, xs, load), Loading([], [AppFailed(app)]))
  {
    LoadPathsConcat(app, xs, [p] + ys, load);
    assert xs + [p] + ys == xs + ([p] + ys);
    assert ([p] + ys)[0] == p;
  }

  lemma {:induction false} AppDirsConcat(xs: seq<DirEntry>, ys: seq<DirEntry>)
    ensures AppDirs(xs + ys) == AppDirs(xs) + AppDirs(ys)
    decreases |xs|
  {
    if |xs| == 0 {
      assert xs + ys == ys;
    } else {
      assert (xs + ys)[1..] == xs[1..] + ys;
      AppDirsConcat(xs[1..], ys);
    }
  }

  /** Only directories are candidates: a non-directory entry anywhere in the
      listing changes nothing. */
  lemma NonDirectoryIgnored(xs: seq<DirEntry>, x: DirEntry, ys: seq<DirEntry>, load: (string, string) -> LoadOutcome)
    requires !x.isDirectory
    ensures LoadAppCommands(true, Listed(xs + [x] + ys), load) == LoadAppCommands(true, Listed(xs + ys), load)
  {
    AppDirsConcat(xs + [x], ys);
    AppDirsConcat(xs, [x]);
    AppDirsConcat(xs, ys);
    assert AppDirs([x]) == [];
    assert AppDirs(xs) + [] == AppDirs(xs);
  }

  /** A descriptor is registered exactly when some declared path loads it
      and no earlier path's failure escaped to the per-app `catch`. */
  lemma {:induction false} RegisteredExactlyLoaded(app: string, paths: seq<string>, load: (string, string) -> LoadOutcome, d: Descriptor)
    ensures d in LoadPaths(app, paths, load).registered <==>
      exists i :: 0 <= i < |paths| && load(app, paths[i]) == Loaded(d) && !Aborts(app, paths[..i], load)
    decreases |paths|
  {
    if |paths| > 0 {
      if load(app, paths[0]).MessageThrew? {
        forall i | 0 < i < |paths|
          ensures Aborts(app, paths[..i], load)
        {
          assert paths[..i][0] == paths[0];
        }
      } else {
        var tail := paths[1..];
        RegisteredExactlyLoaded(app, tail, load, d);
        forall i | 0 < i <= |paths|
          ensures Aborts(app, paths[..i], load) <==> Aborts(app, tail[..i - 1], load)
        {
          assert paths[..i][0] == paths[0];
          assert paths[..i][1..] == tail[..i - 1];
          AbortsTail(app, paths[..i], load);
        }
        if exists i :: 0 < i < |paths| && load(app, paths[i]) == Loaded(d) && !Aborts(app, paths[..i], load) {
          var i :| 0 < i < |paths| && load(app, paths[i]) == Loaded(d) && !Aborts(app, paths[..i], load);
          assert tail[i - 1] == paths[i];
        }
        if exists i :: 0 <= i < |tail| && load(app, tail[i]) == Loaded(d) && !Aborts(app, tail[..i], load) {
          var i :| 0 <= i < |tail| && load(app, tail[i]) == Loaded(d) && !Aborts(app, tail[..i], load);
          assert paths[i + 1] == tail[i];
        }
        if load(app, paths[0]) == Loaded(d) {
          assert !Aborts(app, paths[..0], load);
        }
      }
    }
  }

  /** An app whose manifest is missing, unreadable, has no `nailgun`, or no
      truthy `nailgun.commands` registers nothing and logs nothing beyond
      what `readPackageJson` itself logs. */
  lemma AppWithoutCommands(entry: DirEntry, load: (string, string) -> LoadOutcome)
    requires entry.packageFile.NoPackageJson?
      || !entry.packageFile.read.Parsed?
      || entry.packageFile.read.manifest.nailgun.None?
      || entry.packageFile.read.manifest.nailgun.value.commands.NoCommands?
    ensures LoadApp(entry, load).registered == []
    ensures LoadApp(entry, load).log ==
      if entry.packageFile.PackageJson? && entry.packageFile.read.Failed?
      then [ManifestUnreadable(entry.packageFile.read.why)] else []
  {
  }

  /** A `nailgun.commands` that is not an array logs exactly one warning,
      naming the app, and registers nothing from that app. */
  lemma InvalidCommandsWarns(entry: DirEntry, load: (string, string) -> LoadOutcome)
    requires entry.packageFile.PackageJson? && entry.packageFile.read.Parsed?
    requires entry.packageFile.read.manifest.nailgun.Some?
    requires entry.packageFile.read.manifest.nailgun.value.commands.NotAList?
    ensures LoadApp(entry, load) == Loading([], [InvalidCommands(entry.name)])
    ensures forall e :: e in LoadApp(entry, load).log ==> IsWarning(e)
  {
  }

  /** The scenario of an `apps` directory holding an app without a manifest,
      an app whose `commands` is not an array, and an app whose one command
      throws on load: nothing is registered, one warning and one error are
      logged, in enumeration order, and loading completes. */
  lemma ThreeBrokenApps(a: string, b: string, c: string, path: string, other: Nailgun, load: (string, string) -> LoadOutcome)
    requires load(c, path) == LoadThrew
    ensures
      var bare := DirEntry(a, true, NoPackageJson);
      var invalid := DirEntry(b, true, PackageJson(Parsed(Manifest(None, None, None, Some(other.(commands := NotAList)), map[]))));
      var throwing := DirEntry(c, true, PackageJson(Parsed(Manifest(None, None, None, Some(other.(commands := Paths([path]))), map[]))));
      LoadAppCommands(true, Listed([bare, invalid, throwing]), load)
        == Loading([], [InvalidCommands(b), CommandFailed(c, path)])
  {
    var bare := DirEntry(a, true, NoPackageJson);
    var invalid := DirEntry(b, true, PackageJson(Parsed(Manifest(None, None, None, Some(other.(commands := NotAList)), map[]))));
    var throwing := DirEntry(c, true, PackageJson(Parsed(Manifest(None, None, None, Some(other.(commands := Paths([path]))), map[]))));
    var entries := [bare, invalid, throwing];
    assert AppDirs(entries[2..]) == [throwing];
    assert AppDirs(entries[1..]) == [invalid, throwing];
    assert AppDirs(entries) == entries;
    assert LoadApps([throwing], load) == Loading([], [CommandFailed(c, path)]);
    assert LoadApps(entries[1..], load) == Loading([], [InvalidCommands(b), CommandFailed(c, path)]);
  }
}
