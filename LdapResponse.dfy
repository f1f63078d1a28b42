/**
 * LdapResponse: the result envelope of the library's public calls, with the values a freshly
 * constructed envelope holds.
 */
module LdapResponse {
  import LdapExceptions

  datatype LdapResponse = LdapResponse(
    success: bool,
    errorNumber: int,
    errorMessage: string,
    resultString: string,
    resultArray: seq<string>,
    resultBool: bool)

  /** The field initialisers of `new LdapResponse()`. */
  function DefaultResponse(): LdapResponse {
    LdapResponse(true, 0, "", "", [], false)
  }

  /** An envelope whose success flag agrees with its error number ("0 = no error"). */
  predicate Consistent(r: LdapResponse) {
    r.success <==> r.errorNumber == 0
  }

  /** An envelope that carries no result and no error text. */
  predicate Empty(r: LdapResponse) {
    r.errorMessage == "" && r.resultString == "" && r.resultArray == [] && !r.resultBool
  }

  /**
   * A fresh envelope reports success with error number 0 and carries nothing; every code of
   * the exception table is nonzero, so an envelope carrying one cannot be confused with it.
   */
  lemma DefaultResponseSucceeds(e: LdapExceptions.LdapError)
    ensures DefaultResponse().success && Consistent(DefaultResponse()) && Empty(DefaultResponse())
    ensures LdapExceptions.ErrorNumber(e) != DefaultResponse().errorNumber
  {
  }
}
