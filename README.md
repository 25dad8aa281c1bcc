# semantic-release-monorepo: configuration check and version update

This project models the core of a semantic-release plugin that version-bumps
a monorepo. The plugin has two entry points:

- The **validator** (`verifyConfig`) checks the plugin configuration. It expects
  a root `type` (yarn, npm or maven) and a `dependencies` array of packages,
  each with a `pkgRoot` directory and a `type`. It returns every problem it
  finds, as error objects from a fixed catalog of four codes.
- The **orchestrator** (`prepare`) runs the backend's version command for the
  root package first. It then runs it for each dependency, in declaration
  order, in the dependency's resolved directory. Each command is awaited
  before the next one starts, and the first failure ends the run.

The modules follow the source files:

| module | file | form |
|---|---|---|
| `Wrappers`, `JsValues`, `Config` | shared | datatypes: `Option`; JavaScript values (undefined, null, strings, other values with their rendering and truthiness); the configuration records |
| `Util` | lib/util.js | functions: the install probe, `isNonEmptyString` over the ECMA-262 whitespace set, and `getResolvedPath` as split, normalise and join over `/` |
| `ErrorDefinitions` | lib/definitions/errors.js | functions: the catalog entries and a decoder that reads the subject back from a message; lemmas that the texts carry the offending value and that the details tell the four entries apart |
| `ReleaseError` | lib/get-error.js | function: `getError`, a lookup by code name that fails for a name the catalog does not export |
| `VerifyConfig` | lib/verify-config.js | specification functions `TypeErrors`, `ListErrors` and `ConfigErrors`, with methods `ValidateType`, `ValidateDependencies` and `Validate` that build the error list step by step and are proved equal to them |
| `Prepare` | lib/prepare.js | functions for the five command builders and the `updateVersion` switch (`UpdateAction`), the update plan (`Plan`) and its sequential execution (`Run`); a class `Orchestrator` whose `log` of spawned commands is updated in place by `Spawn`, `UpdateVersion` and `Prepare`, each proved against `Run` |

The environment is represented by oracles passed as parameters:

- `installed: string -> bool` stands for the validator's install probe. `Util.IsTypeInstalled` models that probe over `probeSucceeds: Probe -> bool`.
- `existing: string -> bool` stands for the filesystem. It is asked only about the resolved path.
- `fails: Command -> bool` says which spawned commands exit with an error. It is a field of the `Orchestrator`.

`Config.Dependencies` has one case per shape `dependencies` can take: `Missing` (undefined), `NullList` (null), `NotArray` and `List`. `NotArray` holds a `PresentValue`, a value that is neither null nor undefined, so no model state stands for two JavaScript states.

Mismatches inside the code, each modelled as written:

- **yarn-berry.** The update step and the install probe handle the type; the validator and its error text do not:
  - `updateVersion` (lib/prepare.js:60) and `isTypeInstalled` (lib/util.js:15) handle `'yarn-berry'` (`Prepare.YarnBerryDispatchedButRejected`);
  - the validator's list (lib/verify-config.js:36) is `['yarn', 'npm', 'maven']`, so `'yarn-berry'` is reported as `EINVALIDTYPE` (`VerifyConfig.YarnBerryRejected`);
  - the `EINVALIDTYPE` details (lib/definitions/errors.js:9) also name only yarn, npm and maven.
- **The validator and the update step treat missing values differently.**
  - The validator skips `null` dependencies, but `prepare` throws while iterating them (`Prepare.NullDependenciesThrowAfterRoot`).
  - The validator reports a dependency with no `type` as `Invalid package type option: undefined`, but `prepare` gives it the `yarn` default.
- **The custom-property command.** The program string of the custom-property maven command is the single string `mvn versions:set-property`. It is kept as written. `execa` takes its first argument as the file to run (lib/prepare.js:154, 158), so the code asks for a program literally named `mvn versions:set-property`. Whether that spawn succeeds is left to the `fails` oracle.

## Model

| member | source | states |
|---|---|---|
| Util.IsTypeInstalled | lib/util.js:11-29 | a type outside yarn, yarn-berry, npm and maven is reported as installed without running any probe |
| Util.ProbesPerType | lib/util.js:13-24 | yarn and yarn-berry share the probe `yarn --version` and so always get the same answer; npm asks `npm --version`, maven asks `mvn --version` |
| Util.UnlistedTypeNotProbed | lib/util.js:13-25 | a type outside the switch is installed whatever the probes answer |
| Util.TrimStart | lib/util.js:50 | trimming from the start leaves nothing exactly when the string is all whitespace, and otherwise leaves no leading whitespace |
| Util.TrimStartSuffix | lib/util.js:50 | trimming from the start keeps a suffix of the string and removes only whitespace |
| Util.TrimEnd | lib/util.js:50 | trimming from the end leaves nothing exactly when the string is all whitespace, otherwise no trailing whitespace; it keeps a prefix and removes only whitespace |
| Util.Trim | lib/util.js:50 | `trim()` leaves nothing exactly when the string is all whitespace, and otherwise leaves neither leading nor trailing whitespace |
| Util.IsNonEmptyString | lib/util.js:49-51 | true exactly for a string that holds at least one character outside the JavaScript whitespace set; only the truthiness of the returned value is modelled, which is all lib/verify-config.js:54 uses |
| Util.Split | lib/util.js:61 | splitting yields at least one part, and no part contains the separator |
| Util.JoinSplit | lib/util.js:61 | joining the parts of a split with the same separator gives back the original string |
| Util.SplitJoin | lib/util.js:61 | splitting a join of separator-free parts gives back the parts |
| Util.NormalizeOnto | lib/util.js:61 | normalising separator-free segments onto a normalised stack leaves only plain segments: no empty, `.` or `..` segment |
| Util.GetResolvedPath | lib/util.js:59-62 | the result is always absolute, and an absolute input is returned unchanged |
| Util.ResolveUnderCwd | lib/util.js:59-62 | a relative path of plain segments, with or without a leading `./`, resolves to the working directory followed by those segments |
| Util.PathExists | lib/util.js:37-42 | for an absolute path the answer is whether the filesystem holds exactly that path |
| Util.PathExistsChecksResolvedPath | lib/util.js:37-42 | the existence check is made on the resolved path (`./pkg` under `cwd` is looked up as `cwd/pkg`), never on the raw input |
| ErrorDefinitions.Lookup | lib/get-error.js:5 | a name is found exactly when it is one of the four exported code names, and the code found carries that name |
| ErrorDefinitions.LookupCodeName | lib/definitions/errors.js:6-47 | every exported entry is found again under its own name |
| ErrorDefinitions.InvalidTypeText | lib/definitions/errors.js:6-11 | `InvalidType`'s message carries the type's rendering after `Invalid package type option: `; its details are the same for every type |
| ErrorDefinitions.TypeNotInstalledText | lib/definitions/errors.js:18-23 | `TypeNotInstalled`'s message carries the type's rendering before ` is not installed`, and its details name that same value: `Please install <v> package and try again` |
| ErrorDefinitions.InvalidPkgRootText | lib/definitions/errors.js:30-35 | `InvalidPkgRoot`'s message carries the root's rendering after `Invalid package root: `, and its details name that same value: `The package root <v> does not exist` |
| ErrorDefinitions.InvalidDependencyText | lib/definitions/errors.js:42-47 | `InvalidDependency` ignores its argument, and its message is `Invalid dependency list` |
| ErrorDefinitions.MessageCarriesOption | lib/definitions/errors.js:6-35 | the invalid-type, not-installed and invalid-root messages carry the offending value's rendering verbatim, so an absent value reads `undefined`; the dependency-list message carries no value; this is what `Catalog(code, option)` builds for each code |
| ErrorDefinitions.DetailsMarks | lib/definitions/errors.js:9-45 | whatever the value, the invalid-type details start with `The type`, the not-installed details with `Please`, the invalid-root details with `The package` and the dependency-list details with `The dependency`; their first and fifth characters already tell the four texts apart |
| ErrorDefinitions.DetailsDistinguishCodes | lib/definitions/errors.js:6-47 | the details of two different entries differ, whatever values they are built from: the details text alone tells the entry |
| ErrorDefinitions.CatalogDeterminesCode | lib/definitions/errors.js:6-47 | two catalog errors with the same message and details come from the same entry |
| ReleaseError.GetError | lib/get-error.js:4-7 | an error is built exactly for the four catalog names; it carries the requested code, and its message and details are that entry's text for the given value |
| ReleaseError.GetErrorFaithful | lib/get-error.js:4-7 | the built error's code, the subject of its message and the entry its details identify all agree with the request |
| VerifyConfig.Error | lib/verify-config.js:38 | an error built from a catalog code has that code's name and that entry's text |
| VerifyConfig.TypeErrors | lib/verify-config.js:34-45 | `validateType` gives at most one error (`TypeCheckCases` states which) |
| VerifyConfig.IsValidPath | lib/verify-config.js:53-55 | a package root is valid exactly when it is a string with a non-whitespace character and its resolved path exists |
| VerifyConfig.PkgRootErrors | lib/verify-config.js:67-68 | a dependency's root check gives at most one error |
| VerifyConfig.DependencyErrors | lib/verify-config.js:67-69 | one dependency gives at most two errors |
| VerifyConfig.ListErrors | lib/verify-config.js:66-70 | a list of n dependencies gives at most 2n errors |
| VerifyConfig.DependenciesErrors | lib/verify-config.js:63-72 | an array of n dependencies gives at most 2n errors, any other value at most one |
| VerifyConfig.ConfigErrors | lib/verify-config.js:15-27 | a configuration gives at most one root error plus two per dependency (one for a value that is not an array) |
| VerifyConfig.ValidateType | lib/verify-config.js:34-45 | builds exactly the type errors of the specification function `TypeErrors` |
| VerifyConfig.ValidateDependencies | lib/verify-config.js:63-72 | a value that is not an array gives one dependency-list error; an array is walked in order, and the loop builds exactly `ListErrors` of the items |
| VerifyConfig.Validate | lib/verify-config.js:15-27 | returns the root type's errors (when a type is given) followed by the dependencies' errors (when dependencies are given), equal to `ConfigErrors` |
| VerifyConfig.TypeCheckCases | lib/verify-config.js:34-45 | at most one type error: `EINVALIDTYPE` exactly for a type outside {yarn, npm, maven}, `ETYPENOTINSTALLED` exactly for a supported type whose probe fails, never both; with the literal messages |
| VerifyConfig.UnsupportedTypeNotProbed | lib/verify-config.js:37-42 | an unsupported type's errors do not depend on the install probe |
| VerifyConfig.SupportedTypeProbed | lib/verify-config.js:39-42 | with `installed` given by `isTypeInstalled` (lib/util.js:11-29), a supported type is probed with its own tool's `--version`, and it gets `ETYPENOTINSTALLED` exactly when that probe fails and no error otherwise |
| VerifyConfig.YarnRootNeedsYarnProbe | lib/verify-config.js:17-26 | with that oracle, a `yarn` root type puts `ETYPENOTINSTALLED` ahead of the dependencies' errors exactly when `yarn --version` fails, and adds nothing otherwise |
| VerifyConfig.EmptyTypeIsInvalid | lib/verify-config.js:19-21 | an empty-string root type is not skipped as absent: it gives one `EINVALIDTYPE` error |
| VerifyConfig.NilRootTypeUnchecked | lib/verify-config.js:19-25 | a null or undefined root type contributes no error; only the dependencies are checked |
| VerifyConfig.EmptyConfigIsValid | lib/verify-config.js:15-27 | a configuration with no type and no (or null) dependencies has no errors |
| VerifyConfig.YarnBerryRejected | lib/verify-config.js:36-38 | the type `yarn-berry` gives exactly one `EINVALIDTYPE` error |
| VerifyConfig.NotArrayIsOneError | lib/verify-config.js:64 | a non-array `dependencies` adds exactly one `Invalid dependency list` error after the root's errors |
| VerifyConfig.PathProbeOnlyForStrings | lib/verify-config.js:54 | a package root that is not a non-blank string is invalid whatever the filesystem holds |
| VerifyConfig.DependencyErrorsShape | lib/verify-config.js:66-70 | each dependency gives at most two errors, the package-root error first (with the root's literal rendering, `undefined` when absent), then a type error; an absent type is reported as `undefined` |
| VerifyConfig.ListErrorsAppend | lib/verify-config.js:66-70 | the errors of a concatenated list are the errors of the first part followed by those of the second |
| VerifyConfig.ErrorsInDeclarationOrder | lib/verify-config.js:66-70 | dependency k's errors sit after those of the dependencies before it and before those after it |
| VerifyConfig.ListErrorsEmptyIff | lib/verify-config.js:63-72 | a dependency list has no errors exactly when every dependency has a valid root and a supported, installed type |
| VerifyConfig.DependencyErrorsEmptyIff | lib/verify-config.js:67-69 | one dependency gives no error exactly when its root is valid and its type is supported and installed |
| VerifyConfig.ConfigValidIff | lib/verify-config.js:15-72 | a configuration passes exactly when its root type is absent or supported and installed, and its dependencies are absent, null, or an array of accepted dependencies |
| VerifyConfig.TwoFaultyDependencies | lib/verify-config.js:66-70 | two faulty dependencies give two errors in declaration order: the scan does not stop at the first problem |
| Prepare.YarnCommand | lib/prepare.js:88-98 | the vector `['version', '--new-version=V', '--no-git-tag-version', '--allow-same-version']` for `yarn` in the package directory, no env: the contract fixes the program, the directory, the absence of env, four arguments starting with `version`, V read back from `--new-version=`, and both flags |
| Prepare.YarnBerryCommand | lib/prepare.js:109-114 | the vector `['version', V]` for `yarn` in the package directory, no env: exactly two arguments, `version` first and V read back second |
| Prepare.NpmCommand | lib/prepare.js:125-135 | the vector `['version', V, '--no-git-tag-version', '--allow-same-version']` for `npm` in the package directory, no env: four arguments starting with `version`, V second, and both flags |
| Prepare.CustomVersionPropertyCommand | lib/prepare.js:147-162 | the vector `['-Dproperty=P', '-DnewVersion=V']` for the single program string `mvn versions:set-property` in the package directory, with env: P read back is the rendering of `customVersionProperty`, V read back is the release's version |
| Prepare.MavenCommand | lib/prepare.js:174-184 | the vector `['versions:set', '-DnewVersion=V']` for `mvn` in the package directory, with env: two arguments, `versions:set` first, V read back, no property set |
| Prepare.UpdateActionCases | lib/prepare.js:47-77 | `UpdateAction`: a package root that is neither absent nor a string throws; yarn, yarn-berry, npm and maven spawn a command; every other type, null included, does nothing; a spawned command runs in an absolute directory and sets the release's version |
| Prepare.DependencyActions | lib/prepare.js:22-32 | one update per dependency, the i-th for the i-th dependency |
| Prepare.PlanShape | lib/prepare.js:16-33 | `Plan`: the root's update comes first; then nothing for absent dependencies, a throw for null ones, and one update per array entry, in order |
| Prepare.RunSpawnsPrefix | lib/prepare.js:20-32 | what `Run` spawns is always a prefix of the actions' commands, all of them when it ends normally; a failed run ends with the failing command |
| Prepare.RunAbort | lib/prepare.js:21-32 | once an update has failed or thrown, later updates change neither the log nor the outcome |
| Prepare.RunWithoutFailure | lib/prepare.js:21-32 | a run in which nothing throws or fails ends normally, having spawned every command in order |
| Prepare.StopEndsRun | lib/prepare.js:21-32 | the first failing command or throw ends the run: the log ends with that command and the outcome names it |
| Prepare.DefaultParameters | lib/prepare.js:50 | an absent type acts as `yarn` and an absent package root as `cwd`; a null type is not defaulted and spawns nothing |
| Prepare.CommandRunsInResolvedPath | lib/prepare.js:55-76 | every command runs in the resolved package root, an absolute path; the root package runs in `cwd` itself when `cwd` is absolute |
| Prepare.ToolMatchesType | lib/prepare.js:88-184 | the program matches the type (yarn for yarn and yarn-berry, npm for npm, a maven program for maven), and only the maven commands receive the environment |
| Prepare.CustomPropertyBranch | lib/prepare.js:66-74 | a maven package sets a property exactly when a truthy `customVersionProperty` is given; then the program is `mvn versions:set-property` and the property string is that value's rendering; otherwise the command is `mvn versions:set` |
| Prepare.RepeatableVersionFlags | lib/prepare.js:88-135 | the yarn and npm commands pass `--no-git-tag-version` and `--allow-same-version`; the yarn-berry command passes only `version` and the version |
| Prepare.UnknownTypeIsSilentNoOp | lib/prepare.js:56-76 | a type no case names is skipped: nothing is spawned and the run goes on |
| Prepare.YarnBerryDispatchedButRejected | lib/prepare.js:60-62 | a yarn-berry package is updated with `yarn version <v>`, yet the validator gives that type an `EINVALIDTYPE` error |
| Prepare.RootUpdatedFirst | lib/prepare.js:20-21 | the first update is the root package's, and its command, when it has one, is the first one spawned, in `cwd` |
| Prepare.DependenciesInDeclarationOrder | lib/prepare.js:22-32 | when every update spawns and none fails, the log is the root's command followed by one command per dependency, in declaration order |
| Prepare.EmptyConfigUpdatesRootWithYarn | lib/prepare.js:16-58 | an empty configuration runs `yarn version --new-version=<v> --no-git-tag-version --allow-same-version` in `cwd` and nothing else |
| Prepare.NullDependenciesThrowAfterRoot | lib/prepare.js:17-22 | with null dependencies the root is updated and then the run throws; it never ends normally |
| Prepare.ValidatedConfigUpdatesEveryPackage | lib/prepare.js:21-76 | for a configuration the validator accepts, `dependencies` is absent, null or an array; every dependency in an array spawns a command; the root spawns exactly when its type is not null |
| Prepare.Orchestrator.Spawn | lib/prepare.js:90-97 | the command is appended to the log, and it succeeds exactly when the environment lets it |
| Prepare.Orchestrator.UpdateVersion | lib/prepare.js:47-77 | appends to the log the command `UpdateAction` chooses, if any, and reports its outcome |
| Prepare.Orchestrator.Prepare | lib/prepare.js:16-33 | the log grows by exactly the commands of `Run(Plan(...))`, and the outcome is that run's: root first, dependencies in order, stopping at the first failure |
| Prepare.Orchestrator.UpdateDependencies | lib/prepare.js:22-32 | the loop over an array of dependencies, entered after the root's update ended normally: the log grows by each dependency's command in order and the outcome is that of the whole `Run(Plan(...))`, stopping at the first failure or throw |

## Left out

- Logging (`logger.log`) and the piping of child output to `stdout`/`stderr` are left out. They do not affect results.
- The `preferLocal` option is left out. It can change which binary `execa` runs, for example a locally installed `yarn`. Choosing the binary sits behind the spawn abstraction: a `Command` names the program, not the file that runs.
- Asynchrony is not modelled. Every `await` is sequential, so the model runs its steps in that order.
- Process spawning is left out. A spawned command is a `Command` value appended to the log. Its exit status comes from the `fails` oracle, which is deterministic per command.
- The contents of the environment are opaque. The model records only whether `env` is passed.
- The filesystem and the tool probes are oracles (`existing`, `installed`, `probeSucceeds`).
- `VerifyConfig` takes `installed` on the type string directly. `VerifyConfig.InstalledByProbe` builds that oracle from `Util.IsTypeInstalled`, and `VerifyConfig.SupportedTypeProbed` and `VerifyConfig.YarnRootNeedsYarnProbe` state the validator's results under it.
- Paths are POSIX only. A relative `cwd` is resolved as if rooted at `/`, because the process working directory that `path.resolve` would add is not modelled. Windows paths are not modelled.
- Prepare.Orchestrator.Prepare, Prepare.Plan, Prepare.PlanShape, Prepare.RootUpdatedFirst, Prepare.PlanRoot and Prepare.PlanEnd: require that `dependencies` is absent, null or an array. A `for...of` over another value (which iterates a string's characters, or throws) is not modelled.
- Dependency entries are always records (`PackageSpec`). A `null` or `undefined` entry makes both the validator and `prepare` throw when they read its fields; this is not modelled. Other primitive entries (`5`, `'x'`, `true`) do not throw: reading their fields gives `undefined`. They are covered as `PackageSpec(Undefined, Undefined, NoOptions)`. The validator then reports `Invalid package root: undefined` and `Invalid package type option: undefined`, and `prepare` runs the yarn command in `cwd`.
- Values other than strings, `null` and `undefined` carry their rendering and truthiness as data. JavaScript's conversion rules are not modelled.
- `SemanticReleaseError` is modelled as its three fields (message, code, details). The class from `@semantic-release/error` is not part of this model.
- index.js is not part of this model. It wires the two entry points behind a process-wide `verified` flag.
- The test helpers are not part of this model.
