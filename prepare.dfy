/**
 * lib/prepare.js: updates the version of the root package and then of each
 * dependency, in declaration order, by running the backend's version
 * command in the package's directory. Spawning a process is modelled as
 * appending a Command to the log of an Orchestrator; an oracle `fails` says
 * which commands exit with an error, and an error ends the run.
 */
module Prepare {
  import opened Wrappers
  import opened JsValues
  import opened Util
  import opened Config
  import VerifyConfig

  /** One process spawn: program, argument vector, working directory, and
      whether the release environment is passed to it. */
  datatype Command = Command(tool: string, args: seq<string>, cwd: string, forwardsEnv: bool)

  // ---------------------------------------------------------------------------
  // The five command builders

  /** updateVersionWithYarn: yarn in the package directory, without the
      environment, setting the version with both idempotency flags. */
  function YarnCommand(version: string, basePath: string): (c: Command)
    ensures c.tool == "yarn" && c.cwd == basePath && !c.forwardsEnv
    ensures |c.args| == 4 && c.args[0] == "version" && VersionOf(c) == Some(version)
    ensures "--no-git-tag-version" in c.args && "--allow-same-version" in c.args
  {
    StripPrefixOf("--new-version=", version);
    Command("yarn", ["version", "--new-version=" + version, "--no-git-tag-version", "--allow-same-version"], basePath, false)
  }

  /** updateVersionWithYarnBerry: yarn in the package directory, without the
      environment, setting the version with no further flag. */
  function YarnBerryCommand(version: string, basePath: string): (c: Command)
    ensures c.tool == "yarn" && c.cwd == basePath && !c.forwardsEnv
    ensures |c.args| == 2 && c.args[0] == "version" && VersionOf(c) == Some(version)
  {
    Command("yarn", ["version", version], basePath, false)
  }

  /** updateVersionWithNpm: npm in the package directory, without the
      environment, setting the version with both idempotency flags. */
  function NpmCommand(version: string, basePath: string): (c: Command)
    ensures c.tool == "npm" && c.cwd == basePath && !c.forwardsEnv
    ensures |c.args| == 4 && c.args[0] == "version" && VersionOf(c) == Some(version)
    ensures "--no-git-tag-version" in c.args && "--allow-same-version" in c.args
  {
    Command("npm", ["version", version, "--no-git-tag-version", "--allow-same-version"], basePath, false)
  }

  /** updateCustomVersionProperty: the program name is the one string
      'mvn versions:set-property'; it runs in the package directory with the
      environment and sets the given property to the version. */
  function CustomVersionPropertyCommand(version: string, basePath: string, property: JsValue): (c: Command)
    ensures c.tool == "mvn versions:set-property" && c.cwd == basePath && c.forwardsEnv
    ensures VersionOf(c) == Some(version) && PropertyOf(c) == Some(Render(property))
  {
    StripPrefixOf("-DnewVersion=", version);
    StripPrefixOf("-Dproperty=", Render(property));
    Command("mvn versions:set-property", ["-Dproperty=" + Render(property), "-DnewVersion=" + version], basePath, true)
  }

  /** updateVersionWithMaven: mvn versions:set in the package directory,
      with the environment, setting no property. */
  function MavenCommand(version: string, basePath: string): (c: Command)
    ensures c.tool == "mvn" && c.cwd == basePath && c.forwardsEnv
    ensures |c.args| == 2 && c.args[0] == "versions:set"
    ensures VersionOf(c) == Some(version) && PropertyOf(c).None?
  {
    StripPrefixOf("-DnewVersion=", version);
    Command("mvn", ["versions:set", "-DnewVersion=" + version], basePath, true)
  }

  // ---------------------------------------------------------------------------
  // updateVersion

  /** What one updateVersion call does: spawn a command, do nothing (a type
      no case of the switch names), or throw before the switch (a package
      root that is not a string, which path.isAbsolute rejects). */
  datatype Action = Spawn(command: Command) | Skip | Throw

  /** The `type = 'yarn'` default parameter: it replaces undefined only. */
  function EffectiveType(t: JsValue): JsValue
  {
    if t.Undefined? then Str("yarn") else t
  }

  /** The `pkgRoot = cwd` default parameter: it replaces undefined only. */
  function EffectivePkgRoot(pkgRoot: JsValue, cwd: string): JsValue
  {
    if pkgRoot.Undefined? then Str(cwd) else pkgRoot
  }

  /** `versioningOptions && versioningOptions.customVersionProperty`. */
  predicate UsesCustomProperty(options: VersioningOptions)
  {
    options.Options? && Truthy(options.customVersionProperty)
  }

  const DispatchedTypes: set<JsValue> := {Str("yarn"), Str("yarn-berry"), Str("npm"), Str("maven")}

  /** updateVersion: what one call does (UpdateActionCases states the cases). */
  function UpdateAction(version: string, cwd: string, spec: PackageSpec): Action
  {
    var pkgRoot := EffectivePkgRoot(spec.pkgRoot, cwd);
    if !pkgRoot.Str? then Throw
    else
      var resolvedPath := GetResolvedPath(pkgRoot.s, cwd);
      var t := EffectiveType(spec.pkgType);
      if t == Str("yarn") then Spawn(YarnCommand(version, resolvedPath))
      else if t == Str("yarn-berry") then Spawn(YarnBerryCommand(version, resolvedPath))
      else if t == Str("npm") then Spawn(NpmCommand(version, resolvedPath))
      else if t == Str("maven") then
        if UsesCustomProperty(spec.versioningOptions)
        then Spawn(CustomVersionPropertyCommand(version, resolvedPath, spec.versioningOptions.customVersionProperty))
        else Spawn(MavenCommand(version, resolvedPath))
      else Skip
  }

  // ---------------------------------------------------------------------------
  // Reading a command back

  function StripPrefix(prefix: string, s: string): Option<string>
  {
    if prefix <= s then Some(s[|prefix|..]) else None
  }

  /** The version a version command sets, read back from its arguments. */
  function VersionOf(c: Command): Option<string>
  {
    if c.tool == "yarn" && |c.args| == 4 then StripPrefix("--new-version=", c.args[1])
    else if (c.tool == "yarn" || c.tool == "npm") && |c.args| >= 2 && c.args[0] == "version" then Some(c.args[1])
    else if (c.tool == "mvn" || c.tool == "mvn versions:set-property") && |c.args| == 2
    then StripPrefix("-DnewVersion=", c.args[1])
    else None
  }

  /** The maven property a command sets, if it sets one. */
  function PropertyOf(c: Command): Option<string>
  {
    if c.tool == "mvn versions:set-property" && |c.args| == 2 then StripPrefix("-Dproperty=", c.args[0]) else None
  }

  lemma {:induction false} StripPrefixOf(prefix: string, v: string)
    ensures StripPrefix(prefix, prefix + v) == Some(v)
  {
  }

  // ---------------------------------------------------------------------------
  // The run

  datatype Outcome = Done | Failed(command: Command) | Threw

  /** The commands spawned by a run and how it ended. */
  datatype Trace = Trace(log: seq<Command>, outcome: Outcome)

  function Step(t: Trace, a: Action, fails: Command -> bool): Trace
  {
    match a
    case Spawn(c) => Trace(t.log + [c], if fails(c) then Failed(c) else Done)
    case Skip => t
    case Throw => Trace(t.log, Threw)
  }

  /** Awaiting the actions one after the other: the first failure or throw
      ends the run (RunSpawnsPrefix states what it spawns). */
  function Run(actions: seq<Action>, fails: Command -> bool): Trace
    decreases |actions|
  {
    if |actions| == 0 then Trace([], Done)
    else
      var before := Run(actions[..|actions| - 1], fails);
      if before.outcome.Done? then Step(before, actions[|actions| - 1], fails) else before
  }

  /** The root package: the configuration's type and versioning options, no pkgRoot. */
  function RootSpec(config: PluginConfig): PackageSpec
  {
    PackageSpec(config.pkgType, Undefined, config.versioningOptions)
  }

  /** One update per dependency, in declaration order. */
  function DependencyActions(version: string, cwd: string, items: seq<PackageSpec>): (actions: seq<Action>)
    ensures |actions| == |items|
    ensures forall i :: 0 <= i < |items| ==> actions[i] == UpdateAction(version, cwd, items[i])
    decreases |items|
  {
    if |items| == 0 then []
    else
      var init := items[..|items| - 1];
      assert forall i :: 0 <= i < |init| ==> init[i] == items[i];
      DependencyActions(version, cwd, init) + [UpdateAction(version, cwd, items[|items| - 1])]
  }

  /** The updates of the default export, in the order it awaits them: the
      root, then each dependency; iterating null dependencies throws
      (PlanShape states this). */
  function Plan(config: PluginConfig, version: string, cwd: string): seq<Action>
    requires !config.dependencies.NotArray?
  {
    [UpdateAction(version, cwd, RootSpec(config))]
    + (match config.dependencies
       case Missing => []
       case NullList => [Throw]
       case List(items) => DependencyActions(version, cwd, items))
  }

  /** The root's update comes first; then nothing for absent dependencies,
      a throw for null ones, and one update per array entry, in order. */
  lemma {:induction false} PlanShape(config: PluginConfig, version: string, cwd: string)
    requires !config.dependencies.NotArray?
    ensures var plan := Plan(config, version, cwd);
            && |plan| >= 1 && plan[0] == UpdateAction(version, cwd, RootSpec(config))
            && (config.dependencies.Missing? ==> |plan| == 1)
            && (config.dependencies.NullList? ==> plan == [plan[0], Throw])
            && (config.dependencies.List? ==>
                  && |plan| == 1 + |config.dependencies.items|
                  && forall i :: 0 <= i < |config.dependencies.items| ==>
                       plan[i + 1] == UpdateAction(version, cwd, config.dependencies.items[i]))
  {
  }

  lemma {:induction false} RunSnoc(p: seq<Action>, a: Action, fails: Command -> bool)
    requires Run(p, fails).outcome.Done?
    ensures Run(p + [a], fails) == Step(Run(p, fails), a, fails)
  {
  }

  /** Once a run has failed or thrown, nothing after it happens. */
  lemma {:induction false} RunAbort(p: seq<Action>, q: seq<Action>, fails: Command -> bool)
    requires !Run(p, fails).outcome.Done?
    ensures Run(p + q, fails) == Run(p, fails)
    decreases |q|
  {
    if |q| == 0 {
      assert p + q == p;
    } else {
      RunAbort(p, q[..|q| - 1], fails);
      assert (p + q)[..|p + q| - 1] == p + q[..|q| - 1];
    }
  }

  /** The commands of the spawning actions, in order. */
  function Spawned(actions: seq<Action>): seq<Command>
    decreases |actions|
  {
    if |actions| == 0 then []
    else
      var last := actions[|actions| - 1];
      Spawned(actions[..|actions| - 1]) + (if last.Spawn? then [last.command] else [])
  }

  /** What a run has spawned is always a prefix of the actions' commands, all
      of them when the run ends normally; a failed run ends with the failing
      command. */
  lemma {:induction false} RunSpawnsPrefix(actions: seq<Action>, fails: Command -> bool)
    ensures var r := Run(actions, fails);
            && r.log <= Spawned(actions)
            && (r.outcome.Done? ==> r.log == Spawned(actions))
            && (r.outcome.Failed? ==> |r.log| > 0 && r.log[|r.log| - 1] == r.outcome.command && fails(r.outcome.command))
    decreases |actions|
  {
    if |actions| > 0 {
      RunSpawnsPrefix(actions[..|actions| - 1], fails);
    }
  }

  /** No action throws and no spawned command fails. */
  predicate NeverStops(actions: seq<Action>, fails: Command -> bool)
  {
    forall i :: 0 <= i < |actions| ==> !actions[i].Throw? && (actions[i].Spawn? ==> !fails(actions[i].command))
  }

  /** Without a failure or a throw, a run spawns every command, in order. */
  lemma {:induction false} RunWithoutFailure(actions: seq<Action>, fails: Command -> bool)
    requires NeverStops(actions, fails)
    ensures Run(actions, fails) == Trace(Spawned(actions), Done)
    decreases |actions|
  {
    if |actions| > 0 {
      var init := actions[..|actions| - 1];
      assert forall i :: 0 <= i < |init| ==> init[i] == actions[i];
      RunWithoutFailure(init, fails);
    }
  }

  /** When every action spawns, the spawned commands are the actions' commands. */
  lemma {:induction false} SpawnedAllSpawn(actions: seq<Action>)
    requires forall i :: 0 <= i < |actions| ==> actions[i].Spawn?
    ensures |Spawned(actions)| == |actions|
    ensures forall i :: 0 <= i < |actions| ==> Spawned(actions)[i] == actions[i].command
    decreases |actions|
  {
    if |actions| > 0 {
      var init := actions[..|actions| - 1];
      assert forall i :: 0 <= i < |init| ==> init[i] == actions[i];
      SpawnedAllSpawn(init);
    }
  }

  /** What a run has spawned is never taken back by later actions. */
  lemma {:induction false} RunLogGrows(actions: seq<Action>, k: nat, fails: Command -> bool)
    requires k <= |actions|
    ensures Run(actions[..k], fails).log <= Run(actions, fails).log
    decreases |actions|
  {
    if k == |actions| {
      assert actions[..k] == actions;
    } else {
      var init := actions[..|actions| - 1];
      RunLogGrows(init, k, fails);
      assert init[..k] == actions[..k];
    }
  }

  /** The first failing command or throw ends the run: the log stops with
      that command and no later update is spawned. */
  lemma {:induction false} StopEndsRun(actions: seq<Action>, k: nat, fails: Command -> bool)
    requires k < |actions|
    requires Run(actions[..k], fails).outcome.Done?
    requires actions[k].Throw? || (actions[k].Spawn? && fails(actions[k].command))
    ensures Run(actions, fails).log
              == Run(actions[..k], fails).log + (if actions[k].Spawn? then [actions[k].command] else [])
    ensures Run(actions, fails).outcome == if actions[k].Throw? then Threw else Failed(actions[k].command)
  {
    assert actions[..k + 1] == actions[..k] + [actions[k]];
    RunSnoc(actions[..k], actions[k], fails);
    RunAbort(actions[..k + 1], actions[k + 1..], fails);
    assert actions[..k + 1] + actions[k + 1..] == actions;
  }

  // ---------------------------------------------------------------------------
  // Properties of one update


  /** A package root that is neither absent nor a string throws; yarn,
      yarn-berry, npm and maven spawn a command that sets the version in an
      absolute directory; every other type, null included, does nothing. */
  lemma {:induction false} UpdateActionCases(version: string, cwd: string, spec: PackageSpec)
    ensures var a := UpdateAction(version, cwd, spec);
            && (a.Throw? <==> !(spec.pkgRoot.Undefined? || spec.pkgRoot.Str?))
            && (a.Skip? <==> (spec.pkgRoot.Undefined? || spec.pkgRoot.Str?) && EffectiveType(spec.pkgType) !in DispatchedTypes)
            && (a.Spawn? ==> IsAbsolute(a.command.cwd) && VersionOf(a.command) == Some(version))
  {
  }

  /** An absent type is yarn and an absent package root is cwd; a null type
      is not defaulted and updates nothing. */
  lemma {:induction false} DefaultParameters(version: string, cwd: string, spec: PackageSpec)
    ensures UpdateAction(version, cwd, spec.(pkgType := Undefined))
              == UpdateAction(version, cwd, spec.(pkgType := Str("yarn")))
    ensures UpdateAction(version, cwd, spec.(pkgRoot := Undefined))
              == UpdateAction(version, cwd, spec.(pkgRoot := Str(cwd)))
    ensures !UpdateAction(version, cwd, spec.(pkgType := Null)).Spawn?
  {
  }

  /** Every spawned command runs in the resolved package root, an absolute
      path; the root package runs in cwd itself when cwd is absolute. */
  lemma {:induction false} CommandRunsInResolvedPath(version: string, cwd: string, spec: PackageSpec)
    ensures var a := UpdateAction(version, cwd, spec);
            a.Spawn? ==> && a.command.cwd == GetResolvedPath(EffectivePkgRoot(spec.pkgRoot, cwd).s, cwd)
                         && IsAbsolute(a.command.cwd)
                         && (spec.pkgRoot.Undefined? && IsAbsolute(cwd) ==> a.command.cwd == cwd)
  {
  }


  /** The program matches the type: yarn for yarn and yarn-berry, npm for
      npm, one of the two maven programs for maven; and only the maven
      commands receive the release environment. */
  lemma {:induction false} ToolMatchesType(version: string, cwd: string, spec: PackageSpec)
    ensures var a := UpdateAction(version, cwd, spec);
            var t := EffectiveType(spec.pkgType);
            a.Spawn? ==> && (a.command.tool == "yarn" <==> t == Str("yarn") || t == Str("yarn-berry"))
                         && (a.command.tool == "npm" <==> t == Str("npm"))
                         && (a.command.tool in {"mvn", "mvn versions:set-property"} <==> t == Str("maven"))
                         && (a.command.forwardsEnv <==> t == Str("maven"))
  {
  }

  /** A maven package sets its custom property, rendered as written, exactly
      when versioningOptions carries a truthy customVersionProperty; the
      program string is then 'mvn versions:set-property'; otherwise it runs
      versions:set. */
  lemma {:induction false} CustomPropertyBranch(version: string, cwd: string, spec: PackageSpec)
    requires EffectiveType(spec.pkgType) == Str("maven") && (spec.pkgRoot.Undefined? || spec.pkgRoot.Str?)
    ensures var c := UpdateAction(version, cwd, spec).command;
            && (UsesCustomProperty(spec.versioningOptions) <==> PropertyOf(c).Some?)
            && (UsesCustomProperty(spec.versioningOptions) ==>
                  && c.tool == "mvn versions:set-property"
                  && PropertyOf(c) == Some(Render(spec.versioningOptions.customVersionProperty)))
            && (!UsesCustomProperty(spec.versioningOptions) ==> c.tool == "mvn" && c.args[0] == "versions:set")
  {
  }

  /** yarn (classic) and npm are told not to tag and to accept an unchanged
      version; the yarn-berry command passes the version and nothing else. */
  lemma {:induction false} RepeatableVersionFlags(version: string, cwd: string, spec: PackageSpec)
    ensures var a := UpdateAction(version, cwd, spec);
            var t := EffectiveType(spec.pkgType);
            a.Spawn? ==> && (t == Str("yarn") || t == Str("npm") ==>
                               "--no-git-tag-version" in a.command.args && "--allow-same-version" in a.command.args)
                         && (t == Str("yarn-berry") ==> a.command.args == ["version", version])
  {
  }

  /** A package of a type the switch does not name is skipped without error. */
  lemma {:induction false} UnknownTypeIsSilentNoOp(version: string, cwd: string, spec: PackageSpec, fails: Command -> bool)
    requires spec.pkgRoot.Undefined? || spec.pkgRoot.Str?
    requires EffectiveType(spec.pkgType) !in DispatchedTypes
    ensures Run([UpdateAction(version, cwd, spec)], fails) == Trace([], Done)
  {
  }

  /** yarn-berry is dispatched to its own command here, yet the validator
      lists it as an invalid type. */
  lemma {:induction false} YarnBerryDispatchedButRejected(version: string, cwd: string, spec: PackageSpec,
                                                          installed: string -> bool)
    requires spec.pkgType == Str("yarn-berry") && (spec.pkgRoot.Undefined? || spec.pkgRoot.Str?)
    ensures UpdateAction(version, cwd, spec).Spawn?
    ensures UpdateAction(version, cwd, spec).command.args == ["version", version]
    ensures VerifyConfig.TypeErrors(spec.pkgType, installed) != []
    ensures VerifyConfig.TypeErrors(spec.pkgType, installed)[0].code == "EINVALIDTYPE"
  {
  }

  // ---------------------------------------------------------------------------
  // Properties of the whole run

  /** The root package is the first update, run in cwd resolved against itself. */
  lemma {:induction false} RootUpdatedFirst(config: PluginConfig, version: string, cwd: string, fails: Command -> bool)
    requires !config.dependencies.NotArray?
    ensures Plan(config, version, cwd)[0] == UpdateAction(version, cwd, RootSpec(config))
    ensures var a := UpdateAction(version, cwd, RootSpec(config));
            a.Spawn? ==> && |Run(Plan(config, version, cwd), fails).log| > 0
                         && Run(Plan(config, version, cwd), fails).log[0] == a.command
                         && a.command.cwd == GetResolvedPath(cwd, cwd)
  {
    var plan := Plan(config, version, cwd);
    var a := UpdateAction(version, cwd, RootSpec(config));
    if a.Spawn? {
      assert plan[..1] == [] + [a];
      assert [a][..0] == [];
      RunSnoc([], a, fails);
      RunLogGrows(plan, 1, fails);
    }
  }

  /** When every update spawns and none fails, the log holds the root's
      command and then one command per dependency, in declaration order. */
  lemma {:induction false} DependenciesInDeclarationOrder(config: PluginConfig, version: string, cwd: string,
                                                          fails: Command -> bool)
    requires config.dependencies.List?
    requires var a := UpdateAction(version, cwd, RootSpec(config));
             a.Spawn? && !fails(a.command)
    requires forall i :: 0 <= i < |config.dependencies.items| ==>
               var a := UpdateAction(version, cwd, config.dependencies.items[i]);
               a.Spawn? && !fails(a.command)
    ensures var items := config.dependencies.items;
            var r := Run(Plan(config, version, cwd), fails);
            && r.outcome == Done
            && |r.log| == 1 + |items|
            && r.log[0] == UpdateAction(version, cwd, RootSpec(config)).command
            && forall i :: 0 <= i < |items| ==> r.log[i + 1] == UpdateAction(version, cwd, items[i]).command
  {
    var plan := Plan(config, version, cwd);
    var items := config.dependencies.items;
    PlanShape(config, version, cwd);
    assert forall i :: 0 <= i < |plan| ==> plan[i].Spawn? && !fails(plan[i].command) by {
      forall i | 0 <= i < |plan|
        ensures plan[i].Spawn? && !fails(plan[i].command)
      {
        if i > 0 {
          assert plan[i] == UpdateAction(version, cwd, items[i - 1]);
        }
      }
    }
    RunWithoutFailure(plan, fails);
    SpawnedAllSpawn(plan);
  }

  /** A configuration without type, options or dependencies updates the root
      package with yarn in cwd, and nothing else. */
  lemma {:induction false} EmptyConfigUpdatesRootWithYarn(version: string, cwd: string, fails: Command -> bool)
    requires IsAbsolute(cwd)
    ensures var c := YarnCommand(version, cwd);
            && Plan(PluginConfig(Undefined, NoOptions, Missing), version, cwd) == [Spawn(c)]
            && Run([Spawn(c)], fails) == Trace([c], if fails(c) then Failed(c) else Done)
  {
  }

  /** With null dependencies the root package is updated and then the loop
      throws: the run never ends normally. */
  lemma {:induction false} NullDependenciesThrowAfterRoot(config: PluginConfig, version: string, cwd: string,
                                                          fails: Command -> bool)
    requires config.dependencies.NullList?
    ensures var r := Run(Plan(config, version, cwd), fails);
            && !r.outcome.Done?
            && r.log == Run([UpdateAction(version, cwd, RootSpec(config))], fails).log
  {
  }

  /** A dependency the validator accepts has a string root and a dispatched type. */
  lemma {:induction false} AcceptedDependencySpawns(version: string, cwd: string, dep: PackageSpec,
                                                    installed: string -> bool, existing: string -> bool)
    requires VerifyConfig.DependencyAccepted(dep, cwd, installed, existing)
    ensures UpdateAction(version, cwd, dep).Spawn?
  {
    assert dep.pkgRoot.Str?;
    assert dep.pkgType.s in VerifyConfig.SupportedTypes;
  }

  /** A configuration the validator accepts never throws in the update loop
      and spawns a command for every dependency; the root spawns unless its
      type is null. */
  lemma {:induction false} ValidatedConfigUpdatesEveryPackage(config: PluginConfig, version: string, cwd: string,
                                                              installed: string -> bool, existing: string -> bool)
    requires VerifyConfig.ConfigErrors(config, cwd, installed, existing) == []
    ensures !config.dependencies.NotArray?
    ensures UpdateAction(version, cwd, RootSpec(config)).Spawn? <==> !config.pkgType.Null?
    ensures config.dependencies.List? ==>
              forall i :: 0 <= i < |config.dependencies.items| ==>
                UpdateAction(version, cwd, config.dependencies.items[i]).Spawn?
  {
    VerifyConfig.ConfigValidIff(config, cwd, installed, existing);
    if config.dependencies.List? {
      var items := config.dependencies.items;
      forall i | 0 <= i < |items|
        ensures UpdateAction(version, cwd, items[i]).Spawn?
      {
        AcceptedDependencySpawns(version, cwd, items[i], installed, existing);
      }
    }
  }

  /** Running the first update of a plan is one step from the empty run. */
  lemma {:induction false} PlanRoot(config: PluginConfig, version: string, cwd: string, fails: Command -> bool)
    requires !config.dependencies.NotArray?
    ensures var plan := Plan(config, version, cwd);
            && |plan| >= 1
            && Run(plan[..1], fails) == Step(Trace([], Done), UpdateAction(version, cwd, RootSpec(config)), fails)
  {
    var plan := Plan(config, version, cwd);
    assert plan[..1] == [] + [plan[0]];
    RunSnoc([], plan[0], fails);
  }

  /** Running one more update of a plan with dependencies, while the run
      so far has ended normally, is one more step. */
  lemma {:induction false} PlanStep(config: PluginConfig, version: string, cwd: string, i: nat, fails: Command -> bool)
    requires config.dependencies.List? && i < |config.dependencies.items|
    requires Run(Plan(config, version, cwd)[..i + 1], fails).outcome.Done?
    ensures var plan := Plan(config, version, cwd);
            Run(plan[..i + 2], fails)
              == Step(Run(plan[..i + 1], fails), UpdateAction(version, cwd, config.dependencies.items[i]), fails)
  {
    var plan := Plan(config, version, cwd);
    var rest := DependencyActions(version, cwd, config.dependencies.items);
    assert plan[i + 1] == rest[i];
    assert plan[..i + 2] == plan[..i + 1] + [plan[i + 1]];
    RunSnoc(plan[..i + 1], plan[i + 1], fails);
  }

  /** Once the root's update and every dependency's have run normally, what
      is left of the plan: nothing, or the throw of null dependencies. */
  lemma {:induction false} PlanEnd(config: PluginConfig, version: string, cwd: string, fails: Command -> bool)
    requires !config.dependencies.NotArray?
    ensures var plan := Plan(config, version, cwd);
            && (config.dependencies.Missing? ==> plan[..1] == plan)
            && (config.dependencies.NullList? && Run(plan[..1], fails).outcome.Done? ==>
                  Run(plan, fails) == Trace(Run(plan[..1], fails).log, Threw))
            && (config.dependencies.List? ==> plan[..|config.dependencies.items| + 1] == plan)
  {
    var plan := Plan(config, version, cwd);
    if config.dependencies.NullList? && Run(plan[..1], fails).outcome.Done? {
      assert plan == plan[..1] + [Throw];
      RunSnoc(plan[..1], Throw, fails);
    }
  }

  /** A step after a normal run appends what the step alone spawns, and ends
      as the step alone ends. */
  lemma {:induction false} StepFromDone(t: Trace, a: Action, fails: Command -> bool)
    requires t.outcome.Done?
    ensures Step(t, a, fails).log == t.log + Step(Trace([], Done), a, fails).log
    ensures Step(t, a, fails).outcome == Step(Trace([], Done), a, fails).outcome
  {
  }

  /** A run that has stopped after the first k actions is the whole run. */
  lemma {:induction false} StoppedPrefixIsRun(actions: seq<Action>, k: nat, fails: Command -> bool)
    requires k <= |actions| && !Run(actions[..k], fails).outcome.Done?
    ensures Run(actions, fails) == Run(actions[..k], fails)
  {
    RunAbort(actions[..k], actions[k..], fails);
    assert actions[..k] + actions[k..] == actions;
  }

  // ---------------------------------------------------------------------------
  // The orchestrator

  class Orchestrator {
    /** The commands spawned so far, oldest first. */
    var log: seq<Command>
    /** Which commands exit with an error in this environment. */
    const fails: Command -> bool

    constructor (fails: Command -> bool)
      ensures log == [] && this.fails == fails
    {
      this.fails := fails;
      log := [];
    }

    /** execa: spawn the command and wait for it to exit. */
    method Spawn(command: Command) returns (ok: bool)
      modifies this
      ensures log == old(log) + [command]
      ensures ok == !fails(command)
    {
      log := log + [command];
      ok := !fails(command);
    }

    /** updateVersion. */
    method UpdateVersion(version: string, cwd: string, spec: PackageSpec) returns (outcome: Outcome)
      modifies this
      ensures log == old(log) + Step(Trace([], Done), UpdateAction(version, cwd, spec), fails).log
      ensures outcome == Step(Trace([], Done), UpdateAction(version, cwd, spec), fails).outcome
    {
      match UpdateAction(version, cwd, spec)
      case Spawn(command) =>
        var ok := Spawn(command);
        outcome := if ok then Done else Failed(command);
      case Skip =>
        outcome := Done;
      case Throw =>
        outcome := Threw;
    }

    /** The default export: the root first, then each dependency in order,
        each update awaited before the next starts. */
    method Prepare(config: PluginConfig, version: string, cwd: string) returns (outcome: Outcome)
      requires !config.dependencies.NotArray?
      modifies this
      ensures log == old(log) + Run(Plan(config, version, cwd), fails).log
      ensures outcome == Run(Plan(config, version, cwd), fails).outcome
    {
      ghost var plan := Plan(config, version, cwd);
      PlanRoot(config, version, cwd, fails);
      outcome := UpdateVersion(version, cwd, RootSpec(config));
      if !outcome.Done? {
        StoppedPrefixIsRun(plan, 1, fails);
        return;
      }
      match config.dependencies
      case Missing =>
        PlanEnd(config, version, cwd, fails);
      case NullList =>
        PlanEnd(config, version, cwd, fails);
        outcome := Threw;
      case List(_) =>
        outcome := UpdateDependencies(config, version, cwd, old(log));
    }

    /** The default export's for...of loop over an array of dependencies,
        entered once the root's update has ended normally; `before` is the
        log from before the root's update. */
    method UpdateDependencies(config: PluginConfig, version: string, cwd: string, ghost before: seq<Command>)
      returns (outcome: Outcome)
      requires config.dependencies.List?
      requires |Plan(config, version, cwd)| >= 1
      requires log == before + Run(Plan(config, version, cwd)[..1], fails).log
      requires Run(Plan(config, version, cwd)[..1], fails).outcome.Done?
      modifies this
      ensures log == before + Run(Plan(config, version, cwd), fails).log
      ensures outcome == Run(Plan(config, version, cwd), fails).outcome
    {
      ghost var plan := Plan(config, version, cwd);
      var items := config.dependencies.items;
      outcome := Done;
      for i := 0 to |items|
        invariant log == before + Run(plan[..i + 1], fails).log
        invariant Run(plan[..i + 1], fails).outcome.Done? && outcome.Done?
      {
        PlanStep(config, version, cwd, i, fails);
        StepFromDone(Run(plan[..i + 1], fails), UpdateAction(version, cwd, items[i]), fails);
        outcome := UpdateVersion(version, cwd, items[i]);
        if !outcome.Done? {
          StoppedPrefixIsRun(plan, i + 2, fails);
          return;
        }
      }
      PlanEnd(config, version, cwd, fails);
    }
  }
}
