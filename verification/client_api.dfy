/**
 * How the web client talks to the API. A request is one of the POSTs the auth
 * pages make; the outcome of a request is whatever the server (or the network)
 * answers, and is an input to the page logic. The body the client reads has an
 * `IsSuccess` flag and an optional `message`. This is the client's own reading
 * of a reply: the server envelope names its flag `success`, and the model does
 * not connect the two.
 */
module ClientApi {
  import opened Optional

  datatype Request =
    | VerifyEmail(email: string)
    | SendEmailOtp(email: string)
    | VerifyEmailOtp(email: string, enteredOtp: string)
    | ResetPassword(email: string, newPassword: string)
    | Register(firstName: string, lastName: string, email: string, password: string)
    | Login(email: string, password: string)

  /** The JSON body of a reply as the client reads it. */
  datatype Reply = Reply(isSuccess: bool, message: Option<string>)

  /** axios resolves on a 2xx status, rejects with the body on any other status, and rejects bare when nothing came back. */
  datatype Call = Ok(body: Reply) | HttpError(body: Reply) | NoResponse

  /** The server as the client experiences it: an answer for every request. */
  type Server = Request -> Call

  /**
   * The helpers of internship/src/utils/authUtils.ts return the body whatever
   * the status and rethrow only when no response arrived (`None`).
   */
  function BodyOrThrow(c: Call): (r: Option<Reply>)
    ensures r.None? <==> c.NoResponse?
    ensures r.Some? ==> r.value == c.body
  {
    match c
    case Ok(b) => Some(b)
    case HttpError(b) => Some(b)
    case NoResponse => None
  }

  /** The server answered, and the body it sent has `IsSuccess` set. */
  predicate Accepted(c: Call)
  {
    !c.NoResponse? && c.body.isSuccess
  }

  /** `m || fallback`: an absent or empty message gives way to the fallback. */
  function OrElse(m: Option<string>, fallback: string): string
  {
    if m.Some? && |m.value| > 0 then m.value else fallback
  }

  /** `${m}` in a template literal: an absent message prints as `undefined`. */
  function Interpolate(m: Option<string>): string
  {
    m.GetOr("undefined")
  }

  /** `setErrorMessage(m)`: an absent message displays as nothing. */
  function Shown(m: Option<string>): string
  {
    m.GetOr("")
  }
}
