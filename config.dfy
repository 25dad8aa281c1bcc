/**
 * The plugin configuration both lib/verify-config.js and lib/prepare.js read:
 * a root package type and versioning options, and a list of dependency
 * packages.
 */
module Config {
  import opened JsValues

  /** `versioningOptions`: absent (or falsy), or an object whose only field
      the modelled code reads is `customVersionProperty`. */
  datatype VersioningOptions = NoOptions | Options(customVersionProperty: JsValue)

  /** One package: its `type`, its `pkgRoot` and its `versioningOptions`. */
  datatype PackageSpec = PackageSpec(pkgType: JsValue, pkgRoot: JsValue, versioningOptions: VersioningOptions)

  /** A value that is neither null nor undefined. */
  type PresentValue = v: JsValue | !IsNil(v) witness Str("")

  /** `dependencies`: undefined, null, some other value that is not an array,
      or an array of package records. */
  datatype Dependencies =
    | Missing
    | NullList
    | NotArray(value: PresentValue)
    | List(items: seq<PackageSpec>)

  datatype PluginConfig = PluginConfig(pkgType: JsValue, versioningOptions: VersioningOptions, dependencies: Dependencies)

  /** The value the `dependencies` field holds, for the cases that are not an array. */
  function DependenciesValue(deps: Dependencies): JsValue
    requires !deps.List?
  {
    match deps
    case Missing => Undefined
    case NullList => Null
    case NotArray(v) => v
  }
}
