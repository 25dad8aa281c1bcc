/**
 * lib/verify-config.js: checks the plugin configuration and returns every
 * problem it finds, in a fixed order, without stopping at the first one and
 * without throwing. The two environment questions are oracles:
 * `installed(t)` is isTypeInstalled for a supported type `t`, and
 * `existing(p)` says whether the resolved path `p` exists.
 */
module VerifyConfig {
  import opened Wrappers
  import opened JsValues
  import opened Util
  import opened ErrorDefinitions
  import opened ReleaseError
  import opened Config

  /** The types the validator accepts (`yarn-berry` is not among them). */
  const SupportedTypes: seq<string> := ["yarn", "npm", "maven"]

  predicate IsSupportedType(t: JsValue)
  {
    t.Str? && t.s in SupportedTypes
  }

  /** getError with one of the catalog's own codes, whose lookup always succeeds. */
  function Error(code: ErrorCode, option: JsValue): (e: SemanticReleaseError)
    ensures e.code == CodeName(code)
    ensures ErrorText(e.message, e.details) == Catalog(code, option)
  {
    LookupCodeName(code);
    GetError(CodeName(code), option).value
  }

  predicate IsNilList(deps: Dependencies)
  {
    deps.Missing? || deps.NullList?
  }

  // ---------------------------------------------------------------------------
  // What the validator returns

  /** validateType's result: at most one error (TypeCheckCases gives the cases). */
  function TypeErrors(t: JsValue, installed: string -> bool): (errors: seq<SemanticReleaseError>)
    ensures |errors| <= 1
  {
    if !IsSupportedType(t) then [Error(EINVALIDTYPE, t)]
    else if !installed(t.s) then [Error(ETYPENOTINSTALLED, t)]
    else []
  }

  /** isValidPath: a non-nil, non-blank string whose resolved path exists. The
      existence oracle is reached only through the short-circuit. */
  function IsValidPath(pkgRoot: JsValue, cwd: string, existing: string -> bool): (valid: bool)
    ensures valid <==> && pkgRoot.Str?
                       && (exists i :: 0 <= i < |pkgRoot.s| && !IsJsWhitespace(pkgRoot.s[i]))
                       && existing(GetResolvedPath(pkgRoot.s, cwd))
  {
    !IsNil(pkgRoot) && IsNonEmptyString(pkgRoot) && PathExists(pkgRoot.s, cwd, existing)
  }

  function PkgRootErrors(dep: PackageSpec, cwd: string, existing: string -> bool): (errors: seq<SemanticReleaseError>)
    ensures |errors| <= 1
  {
    if IsValidPath(dep.pkgRoot, cwd, existing) then [] else [Error(EINVALIDPKGROOT, dep.pkgRoot)]
  }

  /** One dependency: its package-root error first, then its type errors. */
  function DependencyErrors(dep: PackageSpec, cwd: string, installed: string -> bool, existing: string -> bool)
    : (errors: seq<SemanticReleaseError>)
    ensures |errors| <= 2
  {
    PkgRootErrors(dep, cwd, existing) + TypeErrors(dep.pkgType, installed)
  }

  /** The dependencies of a list, one after the other: at most two errors
      per dependency. */
  function ListErrors(deps: seq<PackageSpec>, cwd: string, installed: string -> bool, existing: string -> bool)
    : (errors: seq<SemanticReleaseError>)
    ensures |errors| <= 2 * |deps|
    decreases |deps|
  {
    if |deps| == 0 then []
    else ListErrors(deps[..|deps| - 1], cwd, installed, existing)
         + DependencyErrors(deps[|deps| - 1], cwd, installed, existing)
  }

  /** validateDependencies' result: a value that is not an array is one
      dependency-list error and nothing else. */
  function DependenciesErrors(deps: Dependencies, cwd: string, installed: string -> bool, existing: string -> bool)
    : (errors: seq<SemanticReleaseError>)
    ensures |errors| <= if deps.List? then 2 * |deps.items| else 1
  {
    match deps
    case List(items) => ListErrors(items, cwd, installed, existing)
    case _ => [Error(EINVALIDDEPENDENCY, DependenciesValue(deps))]
  }

  /** The default export's result: the root type's errors, when it has a
      type, then the dependencies' errors, when there are dependencies. That
      is at most one error for the root and two per dependency (one for a
      value that is not an array). */
  function ConfigErrors(config: PluginConfig, cwd: string, installed: string -> bool, existing: string -> bool)
    : (errors: seq<SemanticReleaseError>)
    ensures |errors| <= 1 + (if config.dependencies.List? then 2 * |config.dependencies.items| else 1)
  {
    (if IsNil(config.pkgType) then [] else TypeErrors(config.pkgType, installed))
    + (if IsNilList(config.dependencies) then [] else DependenciesErrors(config.dependencies, cwd, installed, existing))
  }

  // ---------------------------------------------------------------------------
  // The validator

  /** validateType. */
  method ValidateType(t: JsValue, installed: string -> bool) returns (errors: seq<SemanticReleaseError>)
    ensures errors == TypeErrors(t, installed)
  {
    errors := [];
    if !IsSupportedType(t) {
      errors := errors + [Error(EINVALIDTYPE, t)];
    } else if !installed(t.s) {
      errors := errors + [Error(ETYPENOTINSTALLED, t)];
    }
  }

  /** One more dependency of a list adds its package-root errors and then
      its type errors at the end. */
  lemma {:induction false} ListErrorsStep(items: seq<PackageSpec>, i: nat, cwd: string, installed: string -> bool,
                                          existing: string -> bool, before: seq<SemanticReleaseError>,
                                          rootErrors: seq<SemanticReleaseError>, typeErrors: seq<SemanticReleaseError>)
    requires i < |items| && before == ListErrors(items[..i], cwd, installed, existing)
    requires rootErrors == PkgRootErrors(items[i], cwd, existing)
    requires typeErrors == TypeErrors(items[i].pkgType, installed)
    ensures before + rootErrors + typeErrors == ListErrors(items[..i + 1], cwd, installed, existing)
  {
    assert items[..i + 1][..i] == items[..i];
    assert before + rootErrors + typeErrors == before + (rootErrors + typeErrors);
  }

  /** validateDependencies: the array is walked in order, each dependency's
      package root checked before its type. */
  method ValidateDependencies(deps: Dependencies, cwd: string, installed: string -> bool, existing: string -> bool)
    returns (errors: seq<SemanticReleaseError>)
    ensures errors == DependenciesErrors(deps, cwd, installed, existing)
  {
    if !deps.List? {
      return [Error(EINVALIDDEPENDENCY, DependenciesValue(deps))];
    }
    var items := deps.items;
    errors := [];
    for i := 0 to |items|
      invariant errors == ListErrors(items[..i], cwd, installed, existing)
    {
      var dep := items[i];
      ghost var before := errors;
      if !IsValidPath(dep.pkgRoot, cwd, existing) {
        errors := errors + [Error(EINVALIDPKGROOT, dep.pkgRoot)];
      }
      ghost var rootErrors := errors[|before|..];
      assert errors == before + rootErrors && rootErrors == PkgRootErrors(dep, cwd, existing);
      var typeErrors := ValidateType(dep.pkgType, installed);
      errors := errors + typeErrors;
      ListErrorsStep(items, i, cwd, installed, existing, before, rootErrors, typeErrors);
    }
    assert items[..|items|] == items;
  }

  /** The default export: every error of the configuration, root first. */
  method Validate(config: PluginConfig, cwd: string, installed: string -> bool, existing: string -> bool)
    returns (errors: seq<SemanticReleaseError>)
    ensures errors == ConfigErrors(config, cwd, installed, existing)
  {
    errors := [];
    if !IsNil(config.pkgType) {
      var typeErrors := ValidateType(config.pkgType, installed);
      errors := errors + typeErrors;
    }
    ghost var rootErrors := errors;
    assert rootErrors == if IsNil(config.pkgType) then [] else TypeErrors(config.pkgType, installed);
    if !IsNilList(config.dependencies) {
      var depErrors := ValidateDependencies(config.dependencies, cwd, installed, existing);
      errors := errors + depErrors;
    }
  }

  // ---------------------------------------------------------------------------
  // Properties

  /** A type outside exactly {yarn, npm, maven} is one invalid-type error; a
      supported one is one not-installed error exactly when the probe says
      no; the two never come together. */
  lemma {:induction false} TypeCheckCases(t: JsValue, installed: string -> bool)
    ensures var errors := TypeErrors(t, installed);
            && |errors| <= 1
            && ((errors != [] && errors[0].code == "EINVALIDTYPE")
                  <==> t !in {Str("yarn"), Str("npm"), Str("maven")})
            && ((errors != [] && errors[0].code == "ETYPENOTINSTALLED")
                  <==> t in {Str("yarn"), Str("npm"), Str("maven")} && !installed(t.s))
            && (errors != [] && errors[0].code == "EINVALIDTYPE" ==>
                  errors[0].message == "Invalid package type option: " + Render(t))
            && (errors != [] && errors[0].code == "ETYPENOTINSTALLED" ==>
                  errors[0].message == Render(t) + " is not installed"
                  && errors[0].details == "Please install " + Render(t) + " package and try again")
  {
  }

  /** An unsupported type never consults the install probe. */
  lemma {:induction false} UnsupportedTypeNotProbed(t: JsValue, installed: string -> bool, other: string -> bool)
    requires !IsSupportedType(t)
    ensures TypeErrors(t, installed) == TypeErrors(t, other)
  {
  }

  /** lib/util.js's isTypeInstalled as the validator's install oracle: a type
      string is installed when its probe command succeeds. */
  function InstalledByProbe(probeSucceeds: Probe -> bool): string -> bool
  {
    t => IsTypeInstalled(Str(t), probeSucceeds)
  }

  /** With that oracle a supported type is probed with its own tool, and it is
      reported as not installed exactly when that probe fails. */
  lemma {:induction false} SupportedTypeProbed(t: JsValue, probeSucceeds: Probe -> bool)
    requires IsSupportedType(t)
    ensures ProbeFor(t).Some? && ProbeFor(t).value.args == ["--version"]
    ensures TypeErrors(t, InstalledByProbe(probeSucceeds))
              == if probeSucceeds(ProbeFor(t).value) then [] else [Error(ETYPENOTINSTALLED, t)]
  {
  }

  /** A `yarn` root type makes the configuration open with `ETYPENOTINSTALLED`
      exactly when `yarn --version` fails; the dependencies' errors follow
      either way. */
  lemma {:induction false} YarnRootNeedsYarnProbe(config: PluginConfig, cwd: string, probeSucceeds: Probe -> bool,
                                                  existing: string -> bool)
    requires config.pkgType == Str("yarn")
    ensures var installed := InstalledByProbe(probeSucceeds);
            var rest := if IsNilList(config.dependencies) then []
                        else DependenciesErrors(config.dependencies, cwd, installed, existing);
            ConfigErrors(config, cwd, installed, existing)
              == if probeSucceeds(Probe("yarn", ["--version"])) then rest
                 else [Error(ETYPENOTINSTALLED, Str("yarn"))] + rest
  {
  }

  /** An empty root type is checked like any other value and is invalid. */
  lemma {:induction false} EmptyTypeIsInvalid(installed: string -> bool, existing: string -> bool, cwd: string)
    ensures var errors := ConfigErrors(PluginConfig(Str(""), NoOptions, Missing), cwd, installed, existing);
            |errors| == 1 && errors[0].code == "EINVALIDTYPE" && errors[0].message == "Invalid package type option: "
  {
  }

  /** A null or undefined root type is not checked at all: the root
      contributes no error, whatever the oracles say. */
  lemma {:induction false} NilRootTypeUnchecked(config: PluginConfig, cwd: string, installed: string -> bool, existing: string -> bool)
    requires IsNil(config.pkgType)
    ensures ConfigErrors(config, cwd, installed, existing)
              == (if IsNilList(config.dependencies) then [] else DependenciesErrors(config.dependencies, cwd, installed, existing))
  {
  }

  /** An empty configuration has no errors; so has one whose dependencies
      are null. */
  lemma {:induction false} EmptyConfigIsValid(config: PluginConfig, cwd: string, installed: string -> bool, existing: string -> bool)
    requires IsNil(config.pkgType) && IsNilList(config.dependencies)
    ensures ConfigErrors(config, cwd, installed, existing) == []
  {
  }

  /** The validator rejects `yarn-berry`, a type the orchestrator dispatches. */
  lemma {:induction false} YarnBerryRejected(installed: string -> bool)
    ensures var errors := TypeErrors(Str("yarn-berry"), installed);
            |errors| == 1 && errors[0].code == "EINVALIDTYPE"
  {
  }

  /** A non-nil `dependencies` that is not an array is exactly one
      dependency-list error after the root's errors, and no dependency is looked at. */
  lemma {:induction false} NotArrayIsOneError(config: PluginConfig, cwd: string, installed: string -> bool, existing: string -> bool)
    requires config.dependencies.NotArray?
    ensures var errors := ConfigErrors(config, cwd, installed, existing);
            var root := if IsNil(config.pkgType) then [] else TypeErrors(config.pkgType, installed);
            && |errors| == |root| + 1
            && errors[..|root|] == root
            && errors[|root|].code == "EINVALIDDEPENDENCY"
            && errors[|root|].message == "Invalid dependency list"
  {
  }

  /** The existence oracle is consulted only for a non-blank string. */
  lemma {:induction false} PathProbeOnlyForStrings(pkgRoot: JsValue, cwd: string, e1: string -> bool, e2: string -> bool)
    requires !IsNonEmptyString(pkgRoot)
    ensures !IsValidPath(pkgRoot, cwd, e1) && !IsValidPath(pkgRoot, cwd, e2)
  {
  }

  /** An invalid package root is reported with its literal value, also when
      it is absent ("undefined"); each dependency gives at most two errors,
      the package-root error first; its type is checked even when absent. */
  lemma {:induction false} DependencyErrorsShape(dep: PackageSpec, cwd: string, installed: string -> bool, existing: string -> bool)
    ensures var errors := DependencyErrors(dep, cwd, installed, existing);
            && |errors| <= 2
            && (!IsValidPath(dep.pkgRoot, cwd, existing) <==> errors != [] && errors[0].code == "EINVALIDPKGROOT")
            && (errors != [] && errors[0].code == "EINVALIDPKGROOT" ==>
                  errors[0].message == "Invalid package root: " + Render(dep.pkgRoot))
            && (dep.pkgRoot == Undefined ==> errors[0].message == "Invalid package root: undefined")
            && (|errors| == 2 ==> errors[1].code in {"EINVALIDTYPE", "ETYPENOTINSTALLED"})
            && (dep.pkgType == Undefined ==>
                  errors[|errors| - 1].message == "Invalid package type option: undefined")
  {
    var errors := DependencyErrors(dep, cwd, installed, existing);
    var rootErrors := PkgRootErrors(dep, cwd, existing);
    var typeErrors := TypeErrors(dep.pkgType, installed);
    assert errors == rootErrors + typeErrors;
    assert dep.pkgRoot == Undefined ==> !IsValidPath(dep.pkgRoot, cwd, existing);
    assert dep.pkgType == Undefined ==> !IsSupportedType(dep.pkgType);
  }

  /** A non-empty list's errors: those of all but the last dependency, then the last one's. */
  lemma {:induction false} ListErrorsUnfold(deps: seq<PackageSpec>, cwd: string, installed: string -> bool,
                                            existing: string -> bool)
    requires |deps| > 0
    ensures ListErrors(deps, cwd, installed, existing)
              == ListErrors(deps[..|deps| - 1], cwd, installed, existing)
                 + DependencyErrors(deps[|deps| - 1], cwd, installed, existing)
  {
  }

  lemma SeqAssoc(x: seq<SemanticReleaseError>, y: seq<SemanticReleaseError>, z: seq<SemanticReleaseError>)
    ensures (x + y) + z == x + (y + z)
  {
  }

  /** Errors follow declaration order: the errors of a list are those of its
      first part followed by those of the rest. */
  lemma {:induction false} ListErrorsAppend(a: seq<PackageSpec>, b: seq<PackageSpec>, cwd: string,
                                            installed: string -> bool, existing: string -> bool)
    ensures ListErrors(a + b, cwd, installed, existing)
              == ListErrors(a, cwd, installed, existing) + ListErrors(b, cwd, installed, existing)
    decreases |b|
  {
    if |b| == 0 {
      assert a + b == a;
    } else {
      var init := b[..|b| - 1];
      var last := b[|b| - 1];
      assert (a + b)[..|a + b| - 1] == a + init;
      assert (a + b)[|a + b| - 1] == last;
      ListErrorsAppend(a, init, cwd, installed, existing);
      ListErrorsUnfold(a + b, cwd, installed, existing);
      ListErrorsUnfold(b, cwd, installed, existing);
      SeqAssoc(ListErrors(a, cwd, installed, existing), ListErrors(init, cwd, installed, existing),
               DependencyErrors(last, cwd, installed, existing));
    }
  }

  /** So dependency k's errors sit between those of the dependencies before
      it and those after it. */
  lemma {:induction false} ErrorsInDeclarationOrder(items: seq<PackageSpec>, k: nat, cwd: string,
                                                    installed: string -> bool, existing: string -> bool)
    requires k < |items|
    ensures ListErrors(items, cwd, installed, existing)
              == ListErrors(items[..k], cwd, installed, existing)
                 + DependencyErrors(items[k], cwd, installed, existing)
                 + ListErrors(items[k + 1..], cwd, installed, existing)
  {
    assert items == items[..k + 1] + items[k + 1..];
    ListErrorsAppend(items[..k + 1], items[k + 1..], cwd, installed, existing);
    assert items[..k + 1][..k] == items[..k];
  }

  /** Every dependency of a non-empty list is accepted exactly when all but
      the last are and the last is. */
  lemma {:induction false} AllAcceptedSnoc(items: seq<PackageSpec>, init: seq<PackageSpec>, cwd: string,
                                           installed: string -> bool, existing: string -> bool)
    requires |items| > 0 && init == items[..|items| - 1]
    ensures (forall i :: 0 <= i < |items| ==> DependencyAccepted(items[i], cwd, installed, existing))
            <==> && (forall i :: 0 <= i < |init| ==> DependencyAccepted(init[i], cwd, installed, existing))
                 && DependencyAccepted(items[|items| - 1], cwd, installed, existing)
  {
    assert forall i :: 0 <= i < |init| ==> init[i] == items[i];
  }

  /** A dependency is accepted when its package root is valid and its type is
      supported and installed. */
  predicate DependencyAccepted(dep: PackageSpec, cwd: string, installed: string -> bool, existing: string -> bool)
  {
    IsValidPath(dep.pkgRoot, cwd, existing) && IsSupportedType(dep.pkgType) && installed(dep.pkgType.s)
  }

  lemma {:induction false} ListErrorsEmptyIff(items: seq<PackageSpec>, cwd: string, installed: string -> bool, existing: string -> bool)
    ensures (ListErrors(items, cwd, installed, existing) == [])
              <==> (forall i :: 0 <= i < |items| ==> DependencyAccepted(items[i], cwd, installed, existing))
    decreases |items|
  {
    if |items| > 0 {
      var init := items[..|items| - 1];
      var last := items[|items| - 1];
      ListErrorsEmptyIff(init, cwd, installed, existing);
      DependencyErrorsEmptyIff(last, cwd, installed, existing);
      ListErrorsUnfold(items, cwd, installed, existing);
      AllAcceptedSnoc(items, init, cwd, installed, existing);
    }
  }

  /** One dependency has no errors exactly when it is accepted. */
  lemma {:induction false} DependencyErrorsEmptyIff(dep: PackageSpec, cwd: string, installed: string -> bool, existing: string -> bool)
    ensures DependencyErrors(dep, cwd, installed, existing) == [] <==> DependencyAccepted(dep, cwd, installed, existing)
  {
  }

  /** The configuration passes exactly when the root type is absent or
      supported and installed, and `dependencies` is absent, null, or an
      array of accepted dependencies. */
  lemma {:induction false} ConfigValidIff(config: PluginConfig, cwd: string, installed: string -> bool, existing: string -> bool)
    ensures ConfigErrors(config, cwd, installed, existing) == []
            <==> && (IsNil(config.pkgType) || (IsSupportedType(config.pkgType) && installed(config.pkgType.s)))
                 && !config.dependencies.NotArray?
                 && (config.dependencies.List? ==>
                       forall i :: 0 <= i < |config.dependencies.items| ==>
                         DependencyAccepted(config.dependencies.items[i], cwd, installed, existing))
  {
    if config.dependencies.List? {
      ListErrorsEmptyIff(config.dependencies.items, cwd, installed, existing);
    }
  }

  /** Two dependencies, one of unsupported type at an existing path and one
      of an installed type at a path that does not exist, give two errors,
      in that order: nothing stops the scan at the first. */
  lemma {:induction false} TwoFaultyDependencies(d0: PackageSpec, d1: PackageSpec, cwd: string,
                                                 installed: string -> bool, existing: string -> bool)
    requires IsValidPath(d0.pkgRoot, cwd, existing) && !IsSupportedType(d0.pkgType)
    requires !IsValidPath(d1.pkgRoot, cwd, existing) && IsSupportedType(d1.pkgType) && installed(d1.pkgType.s)
    ensures var errors := ConfigErrors(PluginConfig(Undefined, NoOptions, List([d0, d1])), cwd, installed, existing);
            && |errors| == 2
            && errors[0].code == "EINVALIDTYPE" && errors[0].message == "Invalid package type option: " + Render(d0.pkgType)
            && errors[1].code == "EINVALIDPKGROOT" && errors[1].message == "Invalid package root: " + Render(d1.pkgRoot)
  {
    var deps := [d0, d1];
    assert deps[..1] == [d0] && deps[1] == d1;
    assert [d0][..0] == [];
    assert ListErrors([d0], cwd, installed, existing) == DependencyErrors(d0, cwd, installed, existing);
    assert ListErrors(deps, cwd, installed, existing)
             == DependencyErrors(d0, cwd, installed, existing) + DependencyErrors(d1, cwd, installed, existing);
  }
}
