/**
 * What the controllers send back: a status, a JSON body, and at most one cookie; and the
 * JavaScript values a request body may carry where only their truthiness matters.
 */
module Http {
  import opened Wrappers
  import opened JsText
  import opened Store

  datatype Body =
    | MessageBody(message: string)              // `{ message }`
    | UserBody(user: PublicUser)                // the user itself
    | LoginBody(user: PublicUser, token: string) // `{ user, token }`
    | TokenBody(token: string)                  // `{ token }`

  datatype Response = Response(status: nat, body: Body)

  /** `res.cookie(name, value, { httpOnly, secure, sameSite, maxAge })`; `maxAge` in milliseconds. */
  datatype Cookie = Cookie(
    name: string, value: string, httpOnly: bool, secure: bool, sameSite: string, maxAge: Option<nat>)

  /** A JSON request field as JavaScript sees it. */
  datatype JsValue = Undefined | Null | Bool(b: bool) | Num(n: JsNumber) | Str(s: string) | Object

  /** JavaScript truthiness: `false`, `0`, `NaN`, `""`, `null` and `undefined` are falsy. */
  predicate Truthy(v: JsValue) {
    match v
    case Undefined => false
    case Null => false
    case Bool(b) => b
    case Num(n) => n.Finite? && n.value != 0.0
    case Str(s) => s != ""
    case Object => true
  }
}
