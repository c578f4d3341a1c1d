/**
 * The login page (internship/src/pages/auth/LoginPage.tsx): an existence check
 * followed by the login request, and the message `handleSubmit` finally shows.
 */
module LoginPage {
  import opened Optional
  import opened ClientApi

  datatype Page = Page(email: string, password: string, errorMessage: string, successMessage: string)

  datatype Step = Step(page: Page, log: seq<Request>)

  const LoginFailedMsg := "Login failed. Please try again."
  const UnexpectedMsg := "An unexpected error occurred. Please try again."
  const LoggedInMsg := "Login Successful! Redirecting..."
  const PleaseSignup := ", Please Signup"

  /** What `login()` ends with: a body to inspect, nothing (`undefined`), or a rethrown failure. */
  datatype LoginOutcome = Returned(body: Reply) | ReturnedNothing(shown: string) | Threw(shown: string)

  /**
   * `login`: an unknown email stops before the login request, with a message
   * that `handleSubmit` then replaces; a login reply of any status is returned.
   */
  function Login(email: string, password: string, server: Server): (r: (LoginOutcome, seq<Request>))
    ensures 1 <= |r.1| <= 2 && r.1[0] == VerifyEmail(email)
    ensures |r.1| == 2 <==> Accepted(server(VerifyEmail(email)))
    ensures |r.1| == 2 ==> r.1[1] == ClientApi.Login(email, password)
    ensures r.0.Returned? ==> |r.1| == 2 && (server(r.1[1]) == Ok(r.0.body) || server(r.1[1]) == HttpError(r.0.body))
    ensures r.0.ReturnedNothing? <==> |r.1| == 1 && !server(VerifyEmail(email)).NoResponse?
    ensures r.0.ReturnedNothing? ==> r.0.shown == Interpolate(server(VerifyEmail(email)).body.message) + PleaseSignup
    ensures Accepted(server(VerifyEmail(email))) && !server(ClientApi.Login(email, password)).NoResponse? ==>
              r.0 == Returned(server(ClientApi.Login(email, password)).body)
    ensures Accepted(server(VerifyEmail(email))) && server(ClientApi.Login(email, password)).NoResponse? ==>
              r.0 == Threw(UnexpectedMsg)
    ensures server(VerifyEmail(email)).NoResponse? ==> r.0 == Threw("")
  {
    var check := VerifyEmail(email);
    match BodyOrThrow(server(check))
    case None => (Threw(""), [check])
    case Some(known) =>
      if !known.isSuccess then
        (ReturnedNothing(Interpolate(known.message) + PleaseSignup), [check])
      else
        var req := ClientApi.Login(email, password);
        match BodyOrThrow(server(req))
        case None => (Threw(UnexpectedMsg), [check, req])
        case Some(body) => (Returned(body), [check, req])
  }

  /** `handleSubmit`: clear both messages, run `login`, and report its outcome. */
  function HandleSubmit(p: Page, server: Server): (r: Step)
    ensures r.page.email == p.email && r.page.password == p.password
    ensures 1 <= |r.log| <= 2 && r.log[0] == VerifyEmail(p.email)
    ensures ClientApi.Login(p.email, p.password) in r.log <==> Accepted(server(VerifyEmail(p.email)))
    ensures !server(VerifyEmail(p.email)).NoResponse? && !Accepted(server(VerifyEmail(p.email))) ==>
              r.page.errorMessage == LoginFailedMsg && r.page.successMessage == ""
    ensures r.page.successMessage != "" <==>
              Accepted(server(VerifyEmail(p.email))) && Accepted(server(ClientApi.Login(p.email, p.password)))
    ensures r.page.successMessage != "" ==> r.page.successMessage == LoggedInMsg && r.page.errorMessage == ""
    ensures Accepted(server(VerifyEmail(p.email))) && server(ClientApi.Login(p.email, p.password)).NoResponse? ==>
              r.page.errorMessage == UnexpectedMsg
    ensures Accepted(server(VerifyEmail(p.email))) && !server(ClientApi.Login(p.email, p.password)).NoResponse?
            && !server(ClientApi.Login(p.email, p.password)).body.isSuccess ==>
              r.page.errorMessage == OrElse(server(ClientApi.Login(p.email, p.password)).body.message, LoginFailedMsg)
  {
    var p0 := p.(errorMessage := "", successMessage := "");
    var (outcome, log) := Login(p.email, p.password, server);
    match outcome
    case Returned(res) =>
      if res.isSuccess then Step(p0.(successMessage := LoggedInMsg), log)
      else Step(p0.(errorMessage := OrElse(res.message, LoginFailedMsg)), log)
    case ReturnedNothing(_) => Step(p0.(errorMessage := LoginFailedMsg), log)
    case Threw(shown) => Step(p0.(errorMessage := shown), log)
  }

  /** The messages on screen before a submit never influence it. */
  lemma SubmitForgetsMessages(p: Page, error: string, success: string, server: Server)
    ensures HandleSubmit(p.(errorMessage := error, successMessage := success), server) == HandleSubmit(p, server)
  {
  }

  /** The two messages are never both shown. */
  lemma MessagesExclusive(p: Page, server: Server)
    ensures HandleSubmit(p, server).page.errorMessage == "" || HandleSubmit(p, server).page.successMessage == ""
  {
  }
}
