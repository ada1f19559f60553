# nailgun decision logic in Dafny

A model of the decision logic of nailgun, a scaffolding command-line tool.
nailgun creates workspace projects, records installed apps in the project's
`package.json` and loads extra subcommands contributed by those apps. Every
piece is modelled as a pure function. Its I/O outcomes (the registry fetch,
file reads, process exits, dynamic imports, the clone) are parameters.

- `wrappers.dfy` (`Wrappers`): `Option`, standing for `null`/`undefined`.
- `text.dfy` (`Text`): `split` with a one-character separator, its inverse
  `Join`, and `includes`.
- `js_number.dfy` (`JsNumber`): `parseInt(s, 10)`. It skips leading white
  space, takes an optional sign and the longest digit run, and gives `NaN`
  (`None`) when there are no digits.
- `version.ts` → `version.dfy` (`Version`): the dotted-version comparator,
  `checkVersion` and `displayVersionNotification`. The comparator is proved
  to be a total preorder: reflexive, antisymmetric and transitive. Missing
  parts count as 0, and parts compare as numbers.
- `utils.ts` → `utils.dfy` (`Utils`): the manifest datatype,
  `readPackageJson`, `addAppToPackageJson` and `runCommand`.
- `cli.ts` → `cli.dfy` (`Cli`): `loadAppCommands` as a fold over the
  directory entries. It produces the registered descriptors and a log.
- `commands/upgrade.ts` → `upgrade.dfy` (`Upgrade`): the `upgrade` action's
  decision tree.
- `middleware.ts` → `middleware.dfy` (`Middleware`): the once-per-session
  version check, as a two-state machine. It also includes a whole-session
  fold.
- `commands/create.ts` → `create.dfy` (`Create`): the `create` action as a
  trace of effects.

The `upgrade` and `version` commands and the middleware are not registered by
`src/cli.ts`, which registers only `create`. They are modelled as standalone
functions. Points of the code the model follows closely:
- In the loader, an unreadable app manifest is logged by `readPackageJson`
  as an error that does not name the app, and the app then contributes
  nothing. The per-app `catch` of src/cli.ts:74-76 logs a warning naming the
  app when building the inner `catch`'s error message itself throws: a
  thrown `Symbol`, or a thrown value or declared path with no string
  conversion. The app's remaining paths are then skipped.
- `create` writes `package.json` itself, then `tsconfig.json` and
  `apps/.keep`, and runs `bun install` both before and after the clone. Its
  workspaces are `["apps/*", "apps/*/ui"]`.
- Command registration is an append-only sequence. The model makes no claim
  about what happens when two commands share a name.

In `create`, an empty project name resolves to the working directory. That
directory exists, so the action stops with status 1, and the fallback name
`nailgun-project` is reachable only if that existence check says otherwise.
The model takes the existence check as a parameter.

`UpgradeAction` takes the final verification as a parameter: `AsWritten` is
the comparison in src/commands/upgrade.ts:72, and `Corrected` is the intended
one (see Findings). Both version checks report the running build's embedded
version, so with either form a successful install always ends with the "no
change" warning (`NeverReportsAdvance`).

## Model

| member | source | states |
|---|---|---|
| `Text.Split` | src/version.ts:34 | `split('.')` (and `split(' ')`) always returns at least one piece, no piece contains the separator, and joining the pieces gives back the input |
| `Text.SplitJoin` | src/version.ts:34 | splitting joined separator-free pieces returns those pieces, so `Split` is the unique such decomposition |
| `Text.Contains` | src/commands/upgrade.ts:27-28 | `includes` finds only needles no longer than the text, always finds a prefix of the text, and for a needle as long as the text holds exactly when the two are equal |
| `Text.ContainsIff` | src/commands/upgrade.ts:27-28 | `includes` holds exactly when the needle occurs at some index of the text |
| `JsNumber.ParseInt` | src/version.ts:34 | `parseInt` gives `NaN` unless the text contains a digit, and reads a non-empty string of digits as its decimal value |
| `JsNumber.Decimal` | src/version.ts:34 | the canonical rendering of a natural number is a non-empty digit string with no leading zero, denoting that number |
| `JsNumber.ParseIntDecimal` | src/version.ts:34 | `parseInt` reads a decimal rendering back exactly and ignores any text after it that does not start with a digit |
| `JsNumber.ParseIntNegative` | src/version.ts:34 | after leading white space, a minus sign negates the parsed number |
| `JsNumber.ParseIntNoDigits` | src/version.ts:34 | text whose first character is not white space, a sign or a digit is `NaN` |
| `Version.PartValue` | src/version.ts:34-42 | a part whose `parseInt` is `NaN` counts as 0 |
| `Version.ParseVersion` | src/version.ts:33-35 | a version always has at least one part, and a version without a dot is the single part it denotes, read by `parseInt(version, 10)` with `NaN` as 0 |
| `Version.CompareFrom` | src/version.ts:40-48 | the comparator's loop returns only -1, 0 or 1 |
| `Version.CompareVersions` | src/version.ts:32-49 | `compareVersions` returns only -1, 0 or 1 |
| `Version.CompareVersionsLoop` | src/version.ts:40-48 | the `for` loop with its early returns computes exactly the recursive comparator |
| `Version.CompareFirstDifference` | src/version.ts:40-46 | the first unequal pair of parts decides the result, and all later parts are ignored |
| `Version.CompareAllEqual` | src/version.ts:40-48 | parts equal at every index, with missing parts read as 0, give 0 |
| `Version.CompareZeroMeansEqual` | src/version.ts:40-48 | a result of 0 means every part is equal once missing parts read as 0 |
| `Version.CompareReflexive` | src/version.ts:40-48 | every version string compares equal to itself |
| `Version.CompareAntisymmetric` | src/version.ts:40-46 | swapping the arguments negates the result |
| `Version.CompareTransitive` | src/version.ts:40-48 | "not newer than" is transitive, so the comparator is a total preorder |
| `Version.ZeroPadding` | src/version.ts:40-42 | appending zero parts to either side never changes a comparison |
| `Version.ParseRender` | src/version.ts:33-35 | parsing the dotted rendering of a tuple of naturals yields the tuple |
| `Version.CompareRendered` | src/version.ts:32-49 | rendered tuples compare exactly as the numeric tuples do |
| `Version.NumericNotLexical` | src/version.ts:41-45 | "1.10.0" is newer than "1.9.9" |
| `Version.TrailingZeroExample` | src/version.ts:40-42 | "2.0" and "2.0.0" compare equal |
| `Version.NaNPartIsZero` | src/version.ts:34-42 | a part with no leading digits counts as 0, so "1.x" equals "1.0" |
| `Version.LeadingNumberPart` | src/version.ts:34 | the part "3-beta" counts as 3 |
| `Version.CheckVersion` | src/version.ts:54-73 | a failed or empty fetch gives latest = current and not outdated; otherwise latest is the fetched version, and it is outdated exactly when current compares below latest |
| `Version.OutdatedMeansNewer` | src/version.ts:58-66 | an outdated result means the latest version is strictly newer, and fetching the current version is never outdated |
| `Version.DisplayVersionNotification` | src/version.ts:78-84 | a notice, naming current and latest, is shown exactly when the version is outdated |
| `Version.NoticeAnnouncesNewer` | src/version.ts:54-84 | every notice from a version check announces a strictly newer version |
| `Utils.ReadPackageJson` | src/utils.ts:8-17 | never throws, and returns null exactly when it logs one error: a read or parse failure logs that failure, and a parsed manifest is returned unchanged with nothing logged |
| `Utils.AddAfterRead` | src/utils.ts:62-81 | reading the manifest and adding an app exits 1 exactly when the read logged an error; after a successful read the name is in `apps` and every other field is kept |
| `Utils.AddAppToPackageJson` | src/utils.ts:62-81 | no manifest means exit 1. Otherwise the name ends up in `nailgun.apps`: left unchanged with no write if already present, else appended at the end and written. Missing `nailgun`/`apps` are created, and every other field is kept |
| `Utils.AddIdempotent` | src/utils.ts:77-80 | adding the same name again changes nothing and writes nothing |
| `Utils.AddKeepsNoDuplicates` | src/utils.ts:77-78 | adding keeps `apps` free of duplicates and leaves exactly one occurrence of the name |
| `Utils.RunCommand` | src/utils.ts:30-43 | the spawned argv consists of the space-free pieces that join to the command line, and the result is true exactly when the process exits with status 0 (false when spawning throws) |
| `Utils.ArgvIsUnique` | src/utils.ts:32 | any space-free pieces that join to the command line are exactly the argv |
| `Utils.DoubleSpaceArgv` | src/utils.ts:32 | two neighbouring spaces produce an empty argument |
| `Cli.LoadPath` | src/cli.ts:57-75 | one declared path registers its descriptor, or logs a warning (no default export), an error (load threw) or the per-app warning (the error message could not be built), and never two of these |
| `Cli.LoadPaths` | src/cli.ts:56-76 | the declared paths yield at most one registration or log entry each, and every log entry is a path failure or the per-app warning naming this app |
| `Cli.AbortIsLogged` | src/cli.ts:56-76 | the per-app warning is logged exactly when some path's error message cannot be built, and it is then the last entry; otherwise every path yields exactly one registration or one log entry |
| `Cli.UnprintableFailureEndsApp` | src/cli.ts:69-76 | a path whose error message cannot be built ends its app: the earlier paths' results stand, the per-app warning follows, and no later path is loaded |
| `Cli.LoadApp` | src/cli.ts:35-76 | no manifest or no truthy `nailgun.commands` contributes nothing; an unreadable manifest contributes only the error `readPackageJson` logged; a non-array `commands` logs one warning naming the app; a list of paths contributes exactly what loading those paths does |
| `Cli.LoadAppsFromApps` | src/cli.ts:34-77 | everything registered or logged while loading the apps comes from one of the apps |
| `Cli.AppDirs` | src/cli.ts:30-32 | the candidates are exactly the directory entries |
| `Cli.LoadAppCommands` | src/cli.ts:21-81 | no apps directory registers and logs nothing; a failure enumerating it logs one error and registers nothing, without propagating |
| `Cli.LoadAppsConcat` | src/cli.ts:34-77 | apps are isolated: loading a list of apps is loading its parts in turn, in enumeration order |
| `Cli.LoadPathsConcat` | src/cli.ts:56-76 | paths load in declaration order, each independent of the others, until a failure escapes to the per-app `catch`, after which nothing more loads |
| `Cli.NonDirectoryIgnored` | src/cli.ts:30-32 | a non-directory entry anywhere in the listing changes nothing |
| `Cli.RegisteredExactlyLoaded` | src/cli.ts:56-76 | a descriptor is registered exactly when some declared path of the app loads it and no earlier path's failure escaped to the per-app `catch` |
| `Cli.AppWithoutCommands` | src/cli.ts:39-47 | a missing, unreadable or command-less manifest registers nothing, and logs only `readPackageJson`'s own error |
| `Cli.InvalidCommandsWarns` | src/cli.ts:50-53 | a non-array `commands` logs exactly one warning naming the app and registers nothing from it |
| `Cli.ThreeBrokenApps` | src/cli.ts:34-77 | with an app lacking a manifest, one with non-array commands and one whose command throws, nothing is registered and one warning then one error are logged |
| `Upgrade.IsUsingBun` | src/commands/upgrade.ts:27-28 | bun is detected exactly when "bun" occurs in the user agent or in `argv[0]` |
| `Upgrade.VerifiedAsWritten` | src/commands/upgrade.ts:72 | as written, success is reported exactly when the version after the install compares below the one before |
| `Upgrade.AsWrittenIsInverted` | src/commands/upgrade.ts:72-77 | as written, every genuine upgrade is reported as "no change" and every downgrade as a success |
| `Upgrade.UpgradeFromOneZero` | src/commands/upgrade.ts:72 | "1.0.0" compares below "1.1.0", and as written the upgrade from 1.0.0 to 1.1.0 is reported as "no change" |
| `Upgrade.VerifiedAdvance` | src/commands/upgrade.ts:68-77 | corrected verification: success is reported exactly when the version before the install compares below the one after |
| `Upgrade.UpgradeAction` | src/commands/upgrade.ts:10-78 | not outdated and not forced means return with no install. With bun only the bun install is tried; otherwise npm first and yarn only if npm fails. Exit 1 exactly when every attempted install failed. A successful install ends with the chosen verification applied to the two version checks, both made for the same running version |
| `Upgrade.NeverReportsAdvance` | src/commands/upgrade.ts:69-77 | since both checks report the same running version, neither the written nor the corrected verification ever reports that the version advanced |
| `Upgrade.InstallArgv` | src/commands/upgrade.ts:32 | the bun install command line splits into its four expected arguments |
| `Middleware.VersionCheckMiddleware` | src/middleware.ts:9-28 | an earlier successful check, or "upgrade" in argv, skips the check with the flag unchanged. A check that returns sets the flag; one that throws leaves it clear. A notice appears only for an outdated version |
| `Middleware.RunSession` | src/middleware.ts:9-28 | over a session of invocations, notices never outnumber completed checks, completed checks never outnumber invocations, and a set flag stays set |
| `Middleware.OncePerSession` | src/middleware.ts:7-28 | over any session at most one check completes and at most one notice is shown; once set, the flag stays set |
| `Create.CreateAction` | src/commands/create.ts:14-113 | an existing target means exit 1 with no effects. Otherwise package.json, tsconfig.json and apps/.keep are written, then install. The clone at the requested branch happens only after a successful first install, and success requires every step to succeed |
| `Create.EffectsArePrefix` | src/commands/create.ts:21-102 | any run's effects are a prefix of the successful run's (write, write, write, install, clone, install), with no rollback |
| `Create.SeedManifest` | src/commands/create.ts:26-38 | the seeded manifest always has a non-empty name (the project name when that is non-empty), no apps, no commands, and the requested branch |
| `Create.SeedThenAddApp` | src/commands/create.ts:26-38 | the seeded manifest has no apps, the requested branch, the workspace globs, version 1.0.0 and the project name or its default; adding a first app yields exactly that app and keeps the branch |

## Left out

- The registry fetch of `fetchLatestVersion` (src/version.ts:13-26) is network I/O. Its result is the `Option<string>` parameter of `CheckVersion`. A non-string `version` field is not modelled.
- `parseInt` results are exact integers. Float rounding above 2^53 and `Infinity` for very long digit runs are not modelled.
- `Bun.spawn`, `Bun.write`, `Bun.file`, `existsSync`, `readdirSync`, `mkdirSync` and the Bun shell clone are file-system and process I/O. They appear as outcome parameters or trace effects.
- `writePackageJson` (src/utils.ts:20-27) is a file write whose failure is only logged. It appears as the `Written` outcome.
- `ensureAppsDirectory`, `checkAppExists` and `createAppDirectory` (src/utils.ts:46-59, 83-88) are pure file-system calls and have no callers in the modelled files.
- The dynamic `import()` of src/cli.ts:59 is an oracle giving each path's outcome, not module evaluation.
- commander's `addCommand`, `parse` and `requiredOption` are outside the model. Registration is an append-only sequence, with no claim about duplicate names.
- JSON parsing and serialisation are outside the model. A manifest is an abstract record whose unread fields are opaque text. A `package.json` that parses to something other than an object is not modelled, nor is a `nailgun` or `apps` that is truthy but not an object or array.
- The `tsconfig.json` contents, logger messages and their formatting, and the full path in the "Command file not found" warning are outside the model. Log entries carry the app and the declared path.
- A failing `Bun.write` in `create` (an unhandled rejection, like a failing clone) is not modelled.
- Middleware.OncePerSession: invocations are taken one after another. The flag is set only after `await checkVersion()` returns (src/middleware.ts:20-23), so two invocations that overlap both pass the guard and both check and notify. The once-per-session claims, here and in `Middleware.RunSession`, hold only for invocations that do not overlap.
- `src/commands/version.ts` is only logging around `checkVersion` and is not part of this model.

## Findings

| source | as written | input that shows it | evidently intended | confidence | as-written member | corrected member |
|---|---|---|---|---|---|---|
| src/commands/upgrade.ts:72 | success is reported when `compareVersions(versionInfo.current, newVersionInfo.current) > 0`, that is, when the version before the install is newer than the one after | before 1.0.0, after 1.1.0: reported as "no change"; the reverse downgrade is reported as a successful upgrade | report success when the installed version is strictly newer than the previous one | medium, not executed | `Upgrade.AsWrittenIsInverted` | `Upgrade.VerifiedAdvance` |
