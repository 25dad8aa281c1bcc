/**
 * lib/definitions/errors.js: the error catalog. Each entry turns the value
 * it is given into a message and a details text; none keeps state.
 */
module ErrorDefinitions {
  import opened Wrappers
  import opened JsValues

  /** The four names the catalog module exports. */
  datatype ErrorCode = EINVALIDTYPE | ETYPENOTINSTALLED | EINVALIDPKGROOT | EINVALIDDEPENDENCY

  datatype ErrorText = ErrorText(message: string, details: string)

  function CodeName(code: ErrorCode): string
  {
    match code
    case EINVALIDTYPE => "EINVALIDTYPE"
    case ETYPENOTINSTALLED => "ETYPENOTINSTALLED"
    case EINVALIDPKGROOT => "EINVALIDPKGROOT"
    case EINVALIDDEPENDENCY => "EINVALIDDEPENDENCY"
  }

  /** Looking a code up by name among the module's exports. */
  function Lookup(name: string): (code: Option<ErrorCode>)
    ensures code.Some? ==> CodeName(code.value) == name
    ensures code.None? ==> forall c: ErrorCode :: CodeName(c) != name
  {
    if name == "EINVALIDTYPE" then Some(EINVALIDTYPE)
    else if name == "ETYPENOTINSTALLED" then Some(ETYPENOTINSTALLED)
    else if name == "EINVALIDPKGROOT" then Some(EINVALIDPKGROOT)
    else if name == "EINVALIDDEPENDENCY" then Some(EINVALIDDEPENDENCY)
    else None
  }

  const InvalidTypePrefix: string := "Invalid package type option: "
  // The two long details texts are written in two pieces: the verifier reads
  // the characters of a short literal but not of a long one.
  const InvalidTypeDetails: string := "The type option" + " must be one of yarn, npm or maven"
  const NotInstalledSuffix: string := " is not installed"
  const InvalidPkgRootPrefix: string := "Invalid package root: "
  const InvalidDependencyMessage: string := "Invalid dependency list"
  const InvalidDependencyDetails: string := "The dependency" + " must be an array of objects with pkgRoot and type properties"

  function InvalidType(pkgType: JsValue): ErrorText
  {
    ErrorText(InvalidTypePrefix + Render(pkgType), InvalidTypeDetails)
  }

  function TypeNotInstalled(pkgType: JsValue): ErrorText
  {
    ErrorText(Render(pkgType) + NotInstalledSuffix, "Please install " + Render(pkgType) + " package and try again")
  }

  function InvalidPkgRoot(pkgRoot: JsValue): ErrorText
  {
    ErrorText(InvalidPkgRootPrefix + Render(pkgRoot), "The package root " + Render(pkgRoot) + " does not exist")
  }

  /** The argument is accepted and ignored. */
  function InvalidDependency(dependencies: JsValue): ErrorText
  {
    ErrorText(InvalidDependencyMessage, InvalidDependencyDetails)
  }

  /** `ERRORDEFINITIONS[code](option)` for a code the module exports. */
  function Catalog(code: ErrorCode, option: JsValue): ErrorText
  {
    match code
    case EINVALIDTYPE => InvalidType(option)
    case ETYPENOTINSTALLED => TypeNotInstalled(option)
    case EINVALIDPKGROOT => InvalidPkgRoot(option)
    case EINVALIDDEPENDENCY => InvalidDependency(option)
  }

  /** Every exported name is found again under its own name. */
  lemma {:induction false} LookupCodeName(code: ErrorCode)
    ensures Lookup(CodeName(code)) == Some(code)
  {
  }

  /** The value an error message is about, read back from the message; the
      dependency-list error is about no value. */
  function Subject(code: ErrorCode, message: string): Option<string>
  {
    match code
    case EINVALIDTYPE =>
      if InvalidTypePrefix <= message then Some(message[|InvalidTypePrefix|..]) else None
    case ETYPENOTINSTALLED =>
      if |NotInstalledSuffix| <= |message| && message[|message| - |NotInstalledSuffix|..] == NotInstalledSuffix
      then Some(message[..|message| - |NotInstalledSuffix|]) else None
    case EINVALIDPKGROOT =>
      if InvalidPkgRootPrefix <= message then Some(message[|InvalidPkgRootPrefix|..]) else None
    case EINVALIDDEPENDENCY => None
  }

  /** EINVALIDTYPE names the rejected value, which reads back from the
      message; its details are one fixed text, whatever the value. */
  lemma {:induction false} InvalidTypeText(pkgType: JsValue, other: JsValue)
    ensures Subject(EINVALIDTYPE, InvalidType(pkgType).message) == Some(Render(pkgType))
    ensures InvalidType(pkgType).details == InvalidType(other).details
  {
  }

  /** ETYPENOTINSTALLED: the type reads back from the message, and the
      details ask to install that same type. */
  lemma {:induction false} TypeNotInstalledText(pkgType: JsValue)
    ensures Subject(ETYPENOTINSTALLED, TypeNotInstalled(pkgType).message) == Some(Render(pkgType))
    ensures TypeNotInstalled(pkgType).details
              == "Please install " + Subject(ETYPENOTINSTALLED, TypeNotInstalled(pkgType).message).value + " package and try again"
  {
  }

  /** EINVALIDPKGROOT: the package root reads back from the message, and the
      details say that same root does not exist. */
  lemma {:induction false} InvalidPkgRootText(pkgRoot: JsValue)
    ensures Subject(EINVALIDPKGROOT, InvalidPkgRoot(pkgRoot).message) == Some(Render(pkgRoot))
    ensures InvalidPkgRoot(pkgRoot).details
              == "The package root " + Subject(EINVALIDPKGROOT, InvalidPkgRoot(pkgRoot).message).value + " does not exist"
  {
  }

  /** EINVALIDDEPENDENCY ignores its argument: one text for every value. */
  lemma {:induction false} InvalidDependencyText(dependencies: JsValue, other: JsValue)
    ensures InvalidDependency(dependencies) == InvalidDependency(other)
    ensures InvalidDependency(dependencies).message == "Invalid dependency list"
  {
  }

  /** Through the catalog: the message of every entry that takes a value
      carries that value's rendering verbatim (so `undefined` reads as
      "undefined"), and the dependency-list entry carries none. */
  lemma {:induction false} MessageCarriesOption(code: ErrorCode, option: JsValue)
    ensures Subject(code, Catalog(code, option).message)
              == if code == EINVALIDDEPENDENCY then None else Some(Render(option))
  {
  }

  /** Each entry's details text opens with fixed words, whatever the value;
      its first and fifth characters already tell the four texts apart. */
  lemma {:induction false} DetailsMarks(code: ErrorCode, option: JsValue)
    ensures var d := Catalog(code, option).details;
            && |d| > 4
            && (code == EINVALIDTYPE ==> "The type" <= d && d[0] == 'T' && d[4] == 't')
            && (code == ETYPENOTINSTALLED ==> "Please" <= d && d[0] == 'P')
            && (code == EINVALIDPKGROOT ==> "The package" <= d && d[0] == 'T' && d[4] == 'p')
            && (code == EINVALIDDEPENDENCY ==> "The dependency" <= d && d[0] == 'T' && d[4] == 'd')
  {
  }

  /** The details texts of two different entries never coincide, whatever
      values they are given: the details alone tell which entry built an error. */
  lemma {:induction false} DetailsDistinguishCodes(c1: ErrorCode, o1: JsValue, c2: ErrorCode, o2: JsValue)
    requires c1 != c2
    ensures Catalog(c1, o1).details != Catalog(c2, o2).details
  {
    DetailsMarks(c1, o1);
    DetailsMarks(c2, o2);
  }

  /** Hence two catalog errors with the same text come from the same entry. */
  lemma {:induction false} CatalogDeterminesCode(c1: ErrorCode, o1: JsValue, c2: ErrorCode, o2: JsValue)
    requires Catalog(c1, o1) == Catalog(c2, o2)
    ensures c1 == c2
  {
    if c1 != c2 {
      DetailsDistinguishCodes(c1, o1, c2, o2);
    }
  }
}
