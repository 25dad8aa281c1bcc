/**
 * lib/get-error.js: builds a SemanticReleaseError from an error code and the
 * value the error is about, through the catalog entry of that code.
 */
module ReleaseError {
  import opened Wrappers
  import opened JsValues
  import opened ErrorDefinitions

  /** The fields of the error object the plugin reports. */
  datatype SemanticReleaseError = SemanticReleaseError(message: string, code: string, details: string)

  /** getError(code, option). A name the catalog does not export has no entry;
      calling that missing entry throws, which is `None` here. */
  function GetError(code: string, option: JsValue): (e: Option<SemanticReleaseError>)
    ensures e.Some? <==> code in {"EINVALIDTYPE", "ETYPENOTINSTALLED", "EINVALIDPKGROOT", "EINVALIDDEPENDENCY"}
    ensures e.Some? ==> e.value.code == code
    ensures e.Some? ==> exists c :: CodeName(c) == code
                                 && ErrorText(e.value.message, e.value.details) == Catalog(c, option)
  {
    match Lookup(code)
    case None => None
    case Some(c) =>
      var text := Catalog(c, option);
      Some(SemanticReleaseError(text.message, code, text.details))
  }

  /** The built error is the catalog's text for the requested code and for the
      option exactly as given: its code names the entry, its message's subject
      is the option, and no other entry has the same details for any value. */
  lemma {:induction false} GetErrorFaithful(c: ErrorCode, option: JsValue)
    ensures GetError(CodeName(c), option).Some?
    ensures var e := GetError(CodeName(c), option).value;
            && Lookup(e.code) == Some(c)
            && ErrorText(e.message, e.details) == Catalog(c, option)
            && (c != EINVALIDDEPENDENCY ==> Subject(c, e.message) == Some(Render(option)))
            && forall c2: ErrorCode, o2: JsValue :: c2 != c ==> Catalog(c2, o2).details != e.details
  {
    LookupCodeName(c);
    MessageCarriesOption(c, option);
    forall c2: ErrorCode, o2: JsValue | c2 != c
      ensures Catalog(c2, o2).details != Catalog(c, option).details
    {
      DetailsDistinguishCodes(c2, o2, c, option);
    }
  }
}
