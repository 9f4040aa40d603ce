/**
 * `_handle_response`: turns one HTTP response into the text body or one of
 * the integration's two error kinds. A response counts as successful when
 * its status is 200 or below 400 (aiohttp's `response.ok`); a successful
 * response whose body is a full HTML page showing the portal's login or
 * access-denied screen is an authentication failure in disguise.
 */
module Responses {
  import opened Wrappers
  import opened Text

  /** The parts of a response the integration looks at. `headerDump` is how the header collection prints. */
  datatype Response = Response(status: int, reason: string, location: Option<string>, headerDump: string, body: string)

  /**
   * `IntegrationAuthError` (the caller must obtain new session tokens) and
   * `IntegrationAPIError`, each with its message and the status code passed
   * to it, if any.
   */
  datatype Error =
    | AuthError(message: string, statusCode: Option<int>)
    | ApiError(message: string, statusCode: Option<int>)

  const DoctypeMarker: string := "<!DOCTYPE html>"
  const AccessDeniedMarker: string := "Access is denied"
  const LoginMarker: string := "Brightree Login"

  /** The error a disguised login page raises. */
  const Unauthorized: Error := AuthError("Unauthorized", Some(401))

  /** aiohttp's `response.ok`, as the source tests it: `status == 200 or ok`. */
  predicate IsOk(status: int) {
    status == 200 || status < 400
  }

  /** The body test of the success branch, written with Python's `in`. */
  predicate IsLoginPage(body: string) {
    Contains(body, DoctypeMarker) && (Contains(body, AccessDeniedMarker) || Contains(body, LoginMarker))
  }

  /** `marker` occurs somewhere in `body`. */
  ghost predicate Shows(body: string, marker: string) {
    exists i :: OccursAt(body, marker, i)
  }

  /** A full HTML page that shows the access-denied or the login screen. */
  ghost predicate ShowsLoginPage(body: string) {
    Shows(body, DoctypeMarker) && (Shows(body, AccessDeniedMarker) || Shows(body, LoginMarker))
  }

  lemma IsLoginPageIff(body: string)
    ensures IsLoginPage(body) <==> ShowsLoginPage(body)
  {
    ContainsIff(body, DoctypeMarker);
    ContainsIff(body, AccessDeniedMarker);
    ContainsIff(body, LoginMarker);
  }

  /** The message of the authentication error raised for a 4xx status. */
  function ClientErrorMessage(status: int, reason: string): (message: string) {
    "Brightree: " + IntToDecimal(status) + " - " + reason
  }

  /** The message of the API error raised for any other failing status. */
  function ServerErrorMessage(status: int, headerDump: string): (message: string) {
    "Brightree: " + IntToDecimal(status) + " - " + headerDump
  }

  /**
   * `_handle_response`. The classification is total and its three outcomes
   * exclude each other: the body of a successful non-login response, an
   * authentication error (login page on success, or any 4xx), or an API
   * error carrying the failing status (everything from 500 on).
   */
  function HandleResponse(r: Response): (out: Result<string, Error>)
    ensures out.Success? <==> r.status < 400 && !ShowsLoginPage(r.body)
    ensures out.Success? ==> out.value == r.body
    ensures out.Failure? && out.error.AuthError? <==>
      (r.status < 400 && ShowsLoginPage(r.body)) || 400 <= r.status < 500
    ensures out.Failure? && out.error.ApiError? <==> r.status >= 500
    ensures r.status < 400 && ShowsLoginPage(r.body) ==> out == Failure(AuthError("Unauthorized", Some(401)))
    ensures 400 <= r.status < 500 ==> out == Failure(AuthError(ClientErrorMessage(r.status, r.reason), None))
    ensures r.status >= 500 ==> out.Failure? && out.error.statusCode == Some(r.status)
  {
    IsLoginPageIff(r.body);
    if IsOk(r.status) then
      if IsLoginPage(r.body) then Failure(Unauthorized)
      else Success(r.body)
    else if 400 <= r.status < 500 then
      Failure(AuthError(ClientErrorMessage(r.status, r.reason), None))
    else
      Failure(ApiError(ServerErrorMessage(r.status, r.headerDump), Some(r.status)))
  }

  /** A 4xx failure names its status in the message: the decimal after `Brightree: ` reads back as the status. */
  lemma ClientErrorNamesStatus(r: Response)
    requires 400 <= r.status < 500
    ensures var m := HandleResponse(r).error.message;
      var digits := NatToDecimal(r.status);
      && m[..11] == "Brightree: "
      && m[11..11 + |digits|] == digits
      && DecimalValue(digits) == r.status
  {
    NatToDecimalRoundTrip(r.status);
    var digits := NatToDecimal(r.status);
    var m := ClientErrorMessage(r.status, r.reason);
    assert m == "Brightree: " + digits + " - " + r.reason;
    assert m[11..11 + |digits|] == digits;
  }
}
