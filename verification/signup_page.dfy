/**
 * The sign-up page (internship/src/pages/auth/SignupPage.tsx): an ordered
 * validation chain, an existence check, then the registration request. The
 * server's answers are an input; the step returns the requests made.
 */
module SignupPage {
  import opened Optional
  import opened ClientApi
  import opened Patterns

  datatype SignupForm = SignupForm(
    firstName: string,
    lastName: string,
    email: string,
    otp: string,
    password: string,
    confirmPassword: string)

  datatype Page = Page(form: SignupForm, errorMessage: string, successMessage: string)

  datatype Step = Step(page: Page, log: seq<Request>)

  const InvalidEmailMsg := "Please enter a valid email address."
  const WeakPasswordMsg := "Password must be at least 8 characters long and include uppercase, lowercase, number, and special character."
  const MismatchMsg := "Passwords do not match."
  const PleaseLogin := ", Please Login"
  const RegistrationFailedMsg := "Registration failed. Please try again."
  const RegisteredMsg := "Registration Successful! Redirecting to login..."

  /** The form passes all three client-side checks. */
  predicate FormValid(f: SignupForm)
  {
    EmailRegex(f.email) && StrongPassword(f.password) && f.password == f.confirmPassword
  }

  function RegisterRequest(f: SignupForm): Request
  {
    Register(f.firstName, f.lastName, f.email, f.password)
  }

  /**
   * `registerUser`: refuse an email the server already knows, otherwise post
   * the registration. A failure it rethrows is swallowed by `handleSubmit`.
   */
  function RegisterUser(p: Page, server: Server): (r: Step)
    ensures r.page.form == p.form
    ensures 1 <= |r.log| <= 2 && r.log[0] == VerifyEmail(p.form.email)
    ensures |r.log| == 2 <==> BodyOrThrow(server(VerifyEmail(p.form.email))).Some?
                              && !server(VerifyEmail(p.form.email)).body.isSuccess
    ensures |r.log| == 2 ==> r.log[1] == RegisterRequest(p.form)
    ensures Accepted(server(VerifyEmail(p.form.email))) ==>
              r.page.errorMessage == Interpolate(server(VerifyEmail(p.form.email)).body.message) + PleaseLogin
              && r.page.successMessage == ""
    ensures r.page.successMessage != "" <==>
              |r.log| == 2 && server(r.log[1]).Ok? && server(r.log[1]).body.isSuccess
    ensures r.page.successMessage != "" ==> r.page.successMessage == RegisteredMsg && r.page.errorMessage == ""
    ensures |r.log| == 2 && server(r.log[1]).HttpError? ==>
              r.page.errorMessage == OrElse(server(r.log[1]).body.message, RegistrationFailedMsg)
    ensures |r.log| == 2 && server(r.log[1]).NoResponse? ==> r.page.errorMessage == RegistrationFailedMsg
  {
    var p0 := p.(errorMessage := "", successMessage := "");
    var check := VerifyEmail(p.form.email);
    match BodyOrThrow(server(check))
    case None => Step(p0, [check])
    case Some(known) =>
      if known.isSuccess then
        Step(p0.(errorMessage := Interpolate(known.message) + PleaseLogin), [check])
      else
        var req := RegisterRequest(p.form);
        var log := [check, req];
        match server(req)
        case Ok(body) =>
          // `handleSubmit` reacts only to a body with `IsSuccess`; any other 2xx body shows nothing
          if body.isSuccess then Step(p0.(successMessage := RegisteredMsg), log) else Step(p0, log)
        case HttpError(body) => Step(p0.(errorMessage := OrElse(body.message, RegistrationFailedMsg)), log)
        case NoResponse => Step(p0.(errorMessage := RegistrationFailedMsg), log)
  }

  /** `handleSubmit`: email, then password strength, then confirmation; the first failure stops the chain. */
  function HandleSubmit(p: Page, server: Server): (r: Step)
    ensures r.page.form == p.form
    ensures !EmailRegex(p.form.email) ==>
              r == Step(p.(errorMessage := InvalidEmailMsg, successMessage := ""), [])
    ensures EmailRegex(p.form.email) && !StrongPassword(p.form.password) ==>
              r == Step(p.(errorMessage := WeakPasswordMsg, successMessage := ""), [])
    ensures EmailRegex(p.form.email) && StrongPassword(p.form.password) && p.form.password != p.form.confirmPassword ==>
              r == Step(p.(errorMessage := MismatchMsg, successMessage := ""), [])
    ensures r.log != [] <==> FormValid(p.form)
    ensures FormValid(p.form) ==> r.log[0] == VerifyEmail(p.form.email)
    ensures RegisterRequest(p.form) in r.log ==>
              FormValid(p.form) && BodyOrThrow(server(VerifyEmail(p.form.email))).Some?
              && !Accepted(server(VerifyEmail(p.form.email)))
    ensures r.page.successMessage != "" ==>
              r.page.successMessage == RegisteredMsg && r.page.errorMessage == ""
              && server(RegisterRequest(p.form)).Ok? && server(RegisterRequest(p.form)).body.isSuccess
  {
    var p0 := p.(errorMessage := "", successMessage := "");
    if !EmailRegex(p.form.email) then
      Step(p0.(errorMessage := InvalidEmailMsg), [])
    else if !StrongPassword(p.form.password) then
      Step(p0.(errorMessage := WeakPasswordMsg), [])
    else if p.form.password != p.form.confirmPassword then
      Step(p0.(errorMessage := MismatchMsg), [])
    else
      RegisterUser(p0, server)
  }

  /** Both messages are cleared first, so the messages on screen before a submit never influence it. */
  lemma SubmitForgetsMessages(p: Page, error: string, success: string, server: Server)
    ensures HandleSubmit(p.(errorMessage := error, successMessage := success), server) == HandleSubmit(p, server)
  {
  }

  /** A known email is refused on the client: nothing is registered and the user is sent to log in. */
  lemma KnownEmailIsNotRegistered(p: Page, server: Server)
    requires FormValid(p.form) && Accepted(server(VerifyEmail(p.form.email)))
    ensures HandleSubmit(p, server).log == [VerifyEmail(p.form.email)]
    ensures HandleSubmit(p, server).page.errorMessage
            == Interpolate(server(VerifyEmail(p.form.email)).body.message) + PleaseLogin
  {
  }
}
