/**
 * The password check endpoint (api/auth.js): a POST carrying `{password}` is compared,
 * as strings, against the deployment's configured password.
 */
module Auth {
  import opened Common
  import Strings

  /** The JavaScript values a JSON body can carry in its `password` field (objects and arrays aside). */
  datatype JsValue = Undefined | Null | Str(s: string) | Num(n: SafeInteger) | Bool(b: bool)

  /** `String(v)`. */
  function JsString(v: JsValue): string {
    match v
    case Undefined => "undefined"
    case Null => "null"
    case Str(s) => s
    case Num(n) => Strings.IntToString(n)
    case Bool(b) => if b then "true" else "false"
  }

  const DefaultPassword: string := "1234"

  /** `process.env.VITE_APP_PASSWORD || "1234"`: an unset or empty setting falls back to the default. */
  function ExpectedPassword(env: Option<string>): (p: string)
    ensures p != ""
    ensures env.Some? && env.value != "" ==> p == env.value
    ensures env.None? || env.value == "" ==> p == DefaultPassword
  {
    if env.Some? && env.value != "" then env.value else DefaultPassword
  }

  /** The HTTP status and, where the reply has one, its `success` field. */
  datatype Response = Response(status: int, success: Option<bool>)

  /**
   * `handler(request, response)`. `password` is `None` when `request.body` is null or
   * undefined, so that destructuring it throws; otherwise it is the body's `password`
   * field (`Undefined` when the field is absent).
   */
  function Handler(httpMethod: string, password: Option<JsValue>, env: Option<string>): (r: Response)
    ensures r.status == 405 <==> httpMethod != "POST"
    ensures r.status == 500 <==> httpMethod == "POST" && password.None?
    ensures r.status == 200 <==> httpMethod == "POST" && password.Some? && JsString(password.value) == ExpectedPassword(env)
    ensures r.status == 401 <==> httpMethod == "POST" && password.Some? && JsString(password.value) != ExpectedPassword(env)
    ensures r.success == Some(true) <==> r.status == 200
    ensures r.success == Some(false) <==> r.status == 401
  {
    if httpMethod != "POST" then Response(405, None)
    else if password.None? then Response(500, None)
    else if JsString(password.value) == ExpectedPassword(env) then Response(200, Some(true))
    else Response(401, Some(false))
  }

  /** A numeric password is judged exactly as the text of its decimal digits would be. */
  lemma NumberJudgedAsItsDigits(httpMethod: string, n: SafeInteger, env: Option<string>)
    ensures Handler(httpMethod, Some(Num(n)), env) == Handler(httpMethod, Some(Str(Strings.IntToString(n))), env)
    ensures httpMethod == "POST" ==>
      (Handler(httpMethod, Some(Num(n)), env).status == 200 <==> Strings.IntToString(n) == ExpectedPassword(env))
  {
  }

  /** The comparison is on strings: with no password configured, the number 1234 is accepted too. */
  lemma NumericDefaultAccepted()
    ensures Handler("POST", Some(Num(1234)), None).status == 200
    ensures Handler("POST", Some(Str("1234")), Some("")).status == 200
  {
    assert Strings.IntToString(1234) == "1234" by {
      assert Strings.NatToString(1) == "1";
      assert Strings.NatToString(12) == "12";
      assert Strings.NatToString(123) == "123";
    }
  }
}
