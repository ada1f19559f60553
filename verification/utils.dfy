/** The manifest store and process runner of `src/utils.ts`. A `package.json`
    is an abstract record: the fields the program reads are explicit, every
    other field is kept as opaque text. File and process I/O is not performed:
    its outcome is a parameter. */
module Utils {
  import opened Wrappers
  import Text

  /** The `nailgun.commands` field of an app manifest, by how the loader
      treats it: falsy or absent, truthy but not an array, or a list. */
  datatype Commands = NoCommands | NotAList | Paths(paths: seq<string>)

  /** The `nailgun` section: the project's installed apps and default branch,
      an app's contributed commands, and any other fields. `apps == None`
      stands for a missing or falsy `apps`. */
  datatype Nailgun = Nailgun(
    apps: Option<seq<string>>,
    branch: Option<string>,
    commands: Commands,
    otherFields: map<string, string>)

  /** A parsed `package.json`. `nailgun == None` stands for a missing or falsy
      `nailgun` field; `otherFields` maps every remaining field name to its
      serialised value. */
  datatype Manifest = Manifest(
    name: Option<string>,
    version: Option<string>,
    workspaces: Option<seq<string>>,
    nailgun: Option<Nailgun>,
    otherFields: map<string, string>)

  /** Why reading a `package.json` failed: the file could not be read, or
      its text is not JSON. */
  datatype ReadFailure = CouldNotRead | CouldNotParse

  /** What reading and parsing a `package.json` file produced. */
  datatype FileRead = Failed(why: ReadFailure) | Parsed(manifest: Manifest)

  /** The result of `readPackageJson` together with the errors it logged
      ("Failed to read package.json: ..."), one per failure. */
  datatype PackageRead = PackageRead(manifest: Option<Manifest>, errors: seq<ReadFailure>)

  /** `readPackageJson`: the parsed manifest, or null (`None`) on any read or
      parse failure, which it logs as one error instead of throwing. */
  function ReadPackageJson(file: FileRead): (r: PackageRead)
    ensures |r.errors| <= 1
    ensures r.manifest.None? <==> |r.errors| == 1
    ensures file.Parsed? ==> r.manifest == Some(file.manifest)
    ensures file.Failed? ==> r.errors == [file.why]
  {
    match file
    case Parsed(m) => PackageRead(Some(m), [])
    case Failed(why) => PackageRead(None, [why])
  }

  /** The installed apps a manifest records, empty when none are recorded. */
  function AppsOf(m: Manifest): seq<string>
  {
    if m.nailgun.Some? && m.nailgun.value.apps.Some? then m.nailgun.value.apps.value else []
  }

  predicate NoDuplicates(s: seq<string>)
  {
    forall i, j :: 0 <= i < j < |s| ==> s[i] != s[j]
  }

  /** The number of occurrences of `x` in `s`. */
  function Count(s: seq<string>, x: string): nat
  {
    if |s| == 0 then 0 else Count(s[..|s| - 1], x) + (if s[|s| - 1] == x then 1 else 0)
  }

  /** What `addAppToPackageJson` does: exit with status 1 when there is no
      manifest, leave the file alone, or write back the updated manifest. */
  datatype AddOutcome = ExitFailure | Unchanged(manifest: Manifest) | Written(manifest: Manifest)

  /** `m` with `nailgun.apps` set to `apps`, creating `nailgun` as
      `{ apps }` when it is missing. */
  function SetApps(m: Manifest, apps: seq<string>): Manifest
  {
    match m.nailgun
    case None => m.(nailgun := Some(Nailgun(Some(apps), None, NoCommands, map[])))
    case Some(ng) => m.(nailgun := Some(ng.(apps := Some(apps))))
  }

  /** `addAppToPackageJson(name)`, given what reading the project manifest
      produced. Missing containers are created, the name is appended at the
      end only when absent, and only then is the file written. */
  function AddAppToPackageJson(name: string, read: Option<Manifest>): (r: AddOutcome)
    ensures read.None? <==> r.ExitFailure?
    ensures read.Some? ==> name in AppsOf(r.manifest)
    ensures read.Some? && name in AppsOf(read.value) ==> r == Unchanged(read.value)
    ensures read.Some? && name !in AppsOf(read.value) ==>
      r.Written? && AppsOf(r.manifest) == AppsOf(read.value) + [name]
    ensures read.Some? ==> SameExceptApps(read.value, r.manifest)
  {
    match read
    case None => ExitFailure
    case Some(m) =>
      var apps := AppsOf(m);
      if name in apps then Unchanged(m)
      else Written(SetApps(m, apps + [name]))
  }

  /** `after` differs from `before` at most in `nailgun.apps`: top-level
      fields are untouched, an existing `nailgun` keeps its branch, commands
      and other fields, and a created `nailgun` holds nothing but `apps`. */
  predicate SameExceptApps(before: Manifest, after: Manifest)
  {
    after.name == before.name
    && after.version == before.version
    && after.workspaces == before.workspaces
    && after.otherFields == before.otherFields
    && after.nailgun.Some?
    && match before.nailgun
       case None => after.nailgun.value == Nailgun(after.nailgun.value.apps, None, NoCommands, map[])
       case Some(ng) =>
         after.nailgun.value.branch == ng.branch
         && after.nailgun.value.commands == ng.commands
         && after.nailgun.value.otherFields == ng.otherFields
  }

  /** Reading then adding: the command exits with status 1 exactly when
      the read logged an error, and otherwise always leaves the name in the
      manifest. */
  lemma AddAfterRead(name: string, file: FileRead)
    ensures var read := ReadPackageJson(file);
      var r := AddAppToPackageJson(name, read.manifest);
      (r.ExitFailure? <==> read.errors != [])
      && (file.Parsed? ==> name in AppsOf(r.manifest) && SameExceptApps(file.manifest, r.manifest))
  {
  }

  /** Adding the same app a second time changes nothing and writes nothing. */
  lemma AddIdempotent(name: string, m: Manifest)
    ensures var first := AddAppToPackageJson(name, Some(m));
      AddAppToPackageJson(name, Some(first.manifest)) == Unchanged(first.manifest)
  {
  }

  lemma CountAppend(s: seq<string>, y: string, x: string)
    ensures Count(s + [y], x) == Count(s, x) + (if y == x then 1 else 0)
  {
    assert (s + [y])[..|s|] == s;
  }

  lemma {:induction false} CountAbsent(s: seq<string>, x: string)
    requires x !in s
    ensures Count(s, x) == 0
  {
    if |s| > 0 {
      assert x !in s[..|s| - 1];
      CountAbsent(s[..|s| - 1], x);
    }
  }

  /** Adding keeps the apps list free of duplicates, and after adding the
      name it occurs exactly once, however often it was added. */
  lemma AddKeepsNoDuplicates(name: string, m: Manifest)
    requires NoDuplicates(AppsOf(m))
    ensures var r := AddAppToPackageJson(name, Some(m));
      NoDuplicates(AppsOf(r.manifest)) && Count(AppsOf(r.manifest), name) == 1
  {
    var apps := AppsOf(m);
    var r := AddAppToPackageJson(name, Some(m));
    if name in apps {
      var k :| 0 <= k < |apps| && apps[k] == name;
      CountOfUnique(apps, k);
    } else {
      CountAbsent(apps, name);
      CountAppend(apps, name, name);
    }
  }

  /** In a list without duplicates an element present occurs exactly once. */
  lemma {:induction false} CountOfUnique(s: seq<string>, k: nat)
    requires NoDuplicates(s) && k < |s|
    ensures Count(s, s[k]) == 1
    decreases |s|
  {
    var init := s[..|s| - 1];
    if k == |s| - 1 {
      assert s[k] !in init;
      CountAbsent(init, s[k]);
    } else {
      CountOfUnique(init, k);
    }
  }

  /** How the spawned process ended: `Bun.spawn` threw (no such binary, no
      permission) or the process exited with a status. */
  datatype SpawnOutcome = SpawnThrew | Exited(status: int)

  /** What `runCommand` spawned and what it returned. */
  datatype Run = Run(argv: seq<string>, succeeded: bool)

  /** `runCommand(command)`: the argument vector is `command.split(' ')`, a
      naive split in which two neighbouring spaces make an empty argument,
      and the result is true exactly when the process exited with status 0. */
  function RunCommand(command: string, spawn: SpawnOutcome): (r: Run)
    ensures |r.argv| >= 1 && Text.Join(r.argv, ' ') == command
    ensures forall i :: 0 <= i < |r.argv| ==> ' ' !in r.argv[i]
    ensures r.succeeded <==> spawn == Exited(0)
  {
    Run(Text.Split(command, ' '), spawn.Exited? && spawn.status == 0)
  }

  /** The argument vector is the one and only way to cut the command line at
      its spaces: any space-free pieces that join to the command are it. */
  lemma ArgvIsUnique(command: string, spawn: SpawnOutcome, pieces: seq<string>)
    requires |pieces| >= 1 && Text.Join(pieces, ' ') == command
    requires forall i :: 0 <= i < |pieces| ==> ' ' !in pieces[i]
    ensures RunCommand(command, spawn).argv == pieces
  {
    Text.SplitJoin(pieces, ' ');
  }

  /** Two spaces in a row make an empty argument. */
  lemma DoubleSpaceArgv(spawn: SpawnOutcome)
    ensures RunCommand("bun  install", spawn).argv == ["bun", "", "install"]
  {
    assert Text.Join(["bun", "", "install"], ' ') == "bun  install";
    ArgvIsUnique("bun  install", spawn, ["bun", "", "install"]);
  }
}
