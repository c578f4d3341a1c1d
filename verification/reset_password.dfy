/**
 * The reset-password page (internship/src/pages/auth/resetPassword.tsx) as a
 * state machine. Its state is the form, the two OTP flags, the three loading
 * flags, the resend countdown and the two messages. Every handler is a pure
 * step from a page to a page; the server's answers are an input, and each step
 * also returns the requests it made, in order, each with the loading flags
 * that were on screen while it was pending.
 */
module ResetPassword {
  import opened Optional
  import opened JsText
  import opened ClientApi
  import opened Patterns

  datatype ResetForm = ResetForm(email: string, enteredOtp: string, newPassword: string, confirmPassword: string)

  datatype OtpStatus = OtpStatus(isOtpSent: bool, isOtpVerified: bool)

  datatype Loading = Loading(sendingOtp: bool, verifyingOtp: bool, resettingPassword: bool)

  datatype Page = Page(
    form: ResetForm,
    otp: OtpStatus,
    loading: Loading,
    otpTimer: int,
    errorMessage: string,
    successMessage: string)

  /** A request the page made and the loading flags shown while it was pending. */
  datatype Exchange = Exchange(request: Request, loadingWhile: Loading)

  datatype Step = Step(page: Page, log: seq<Exchange>)

  /** What the user or the browser can do to the page. */
  datatype Event = Submit | ClickResend | TimerTick | TypeOtp(raw: string)

  const Idle := Loading(false, false, false)
  const Sending := Loading(true, false, false)
  const Verifying := Loading(false, true, false)
  const Resetting := Loading(false, false, true)

  /** Seconds before the OTP may be resent. */
  const Cooldown := 60
  const OtpLength := 6

  const InvalidEmailMsg := "Please enter a valid email address."
  const EmailNotFoundMsg := "Email not found. Please check your email or sign up."
  const OtpSentMsg := "OTP sent successfully! Please check your email."
  const SendFailedMsg := "Failed to send OTP. Please try again."
  const OtpResentMsg := "OTP resent successfully! Please check your email."
  const ResendFailedMsg := "Failed to resend OTP. Please try again."
  const InvalidOtpMsg := "Please enter a valid 6-digit OTP."
  const OtpVerifiedMsg := "OTP verified successfully! Please set your new password."
  const VerifyFailedMsg := "Failed to verify OTP. Please try again."
  const WeakPasswordMsg := "Password must be at least 8 characters long and include uppercase, lowercase, number, and special character."
  const MismatchMsg := "Passwords do not match."
  const ResetDoneMsg := "Password reset successfully! Redirecting to login..."
  const ResetRefusedMsg := "Failed to reset password."
  const ResetFailedMsg := "Failed to reset password. Please try again."

  const Initial := Page(ResetForm("", "", "", ""), OtpStatus(false, false), Idle, 0, "", "")

  /** Any loading flag is on; the submit button is disabled. */
  predicate Busy(l: Loading)
  {
    l.sendingOtp || l.verifyingOtp || l.resettingPassword
  }

  predicate AtMostOneLoading(l: Loading)
  {
    !(l.sendingOtp && l.verifyingOtp) && !(l.sendingOtp && l.resettingPassword) && !(l.verifyingOtp && l.resettingPassword)
  }

  /** Both messages blanked, as every handler does first. */
  function Cleared(p: Page): Page
  {
    p.(errorMessage := "", successMessage := "")
  }

  // ---------------------------------------------------------------- OTP input

  /** `replace(/\D/g, "")`: the digits of `s`, in order. */
  function DigitsOf(s: string): (r: string)
    ensures |r| <= |s|
    ensures forall k | 0 <= k < |r| :: IsDigit(r[k])
    ensures (forall k | 0 <= k < |s| :: IsDigit(s[k])) ==> r == s
    ensures forall c :: multiset(r)[c] == if IsDigit(c) then multiset(s)[c] else 0
    decreases |s|
  {
    assert |s| > 0 ==> s == [s[0]] + s[1..];
    if |s| == 0 then []
    else if IsDigit(s[0]) then [s[0]] + DigitsOf(s[1..])
    else DigitsOf(s[1..])
  }

  /** The OTP field's change handler: keep the digits, then the first six of them. */
  function SanitizeOtp(raw: string): (r: string)
    ensures |r| <= OtpLength
    ensures forall k | 0 <= k < |r| :: IsDigit(r[k])
    ensures |raw| <= OtpLength && (forall k | 0 <= k < |raw| :: IsDigit(raw[k])) ==> r == raw
    ensures |r| == (if |DigitsOf(raw)| < OtpLength then |DigitsOf(raw)| else OtpLength)
    ensures r == DigitsOf(raw)[..|r|]
  {
    var d := DigitsOf(raw);
    if |d| <= OtpLength then d else d[..OtpLength]
  }

  /** Removing non-digits distributes over concatenation. */
  lemma {:induction false} DigitsOfAppend(a: string, b: string)
    ensures DigitsOf(a + b) == DigitsOf(a) + DigitsOf(b)
    decreases |a|
  {
    if |a| > 0 {
      assert (a + b)[1..] == a[1..] + b;
      DigitsOfAppend(a[1..], b);
    } else {
      assert a + b == b;
    }
  }

  /** Sanitising is idempotent. */
  lemma SanitizeIdempotent(raw: string)
    ensures SanitizeOtp(SanitizeOtp(raw)) == SanitizeOtp(raw)
  {
  }

  /** Typing more after six digits does not change what the field holds. */
  lemma {:induction false} SanitizeIgnoresTail(raw: string, more: string)
    requires |DigitsOf(raw)| >= OtpLength
    ensures SanitizeOtp(raw + more) == SanitizeOtp(raw)
  {
    DigitsOfAppend(raw, more);
    assert (DigitsOf(raw) + DigitsOf(more))[..OtpLength] == DigitsOf(raw)[..OtpLength];
  }

  // ---------------------------------------------------------------- handlers

  /** `handleSendOtp`: validate the email, check that it exists, then request an OTP. */
  function HandleSendOtp(p: Page, server: Server): (r: Step)
    ensures r.page.form == p.form && r.page.otp.isOtpVerified == p.otp.isOtpVerified
    ensures !EmailRegex(p.form.email) ==>
              r.log == [] && r.page == p.(errorMessage := InvalidEmailMsg, successMessage := "")
    ensures EmailRegex(p.form.email) ==>
              1 <= |r.log| <= 2 && r.log[0] == Exchange(VerifyEmail(p.form.email), p.loading)
    ensures |r.log| == 2 <==> EmailRegex(p.form.email) && Accepted(server(VerifyEmail(p.form.email)))
    ensures |r.log| == 2 ==> r.log[1] == Exchange(SendEmailOtp(p.form.email), Sending) && r.page.loading == Idle
    ensures |r.log| < 2 ==> r.page.loading == p.loading && r.page.otp == p.otp && r.page.otpTimer == p.otpTimer
    ensures (EmailRegex(p.form.email) && BodyOrThrow(server(VerifyEmail(p.form.email))).Some?
             && !Accepted(server(VerifyEmail(p.form.email)))) ==> r.page.errorMessage == EmailNotFoundMsg
    ensures |r.log| == 2 && Accepted(server(SendEmailOtp(p.form.email))) ==>
              r.page.otp.isOtpSent && r.page.otpTimer == Cooldown
              && r.page.errorMessage == "" && r.page.successMessage == OtpSentMsg
    ensures |r.log| == 2 && server(SendEmailOtp(p.form.email)).NoResponse? ==> r.page.errorMessage == SendFailedMsg
    ensures |r.log| == 2 && !server(SendEmailOtp(p.form.email)).NoResponse?
            && !server(SendEmailOtp(p.form.email)).body.isSuccess ==>
              r.page.errorMessage == Shown(server(SendEmailOtp(p.form.email)).body.message)
    ensures !(|r.log| == 2 && Accepted(server(SendEmailOtp(p.form.email)))) ==>
              r.page.otp == p.otp && r.page.otpTimer == p.otpTimer && r.page.successMessage == ""
  {
    var p0 := Cleared(p);
    var email := p.form.email;
    if !EmailRegex(email) then
      Step(p0.(errorMessage := InvalidEmailMsg), [])
    else
      var check := Exchange(VerifyEmail(email), p.loading);
      match BodyOrThrow(server(VerifyEmail(email)))
      case None => Step(p0, [check])
      case Some(exists_) =>
        if !exists_.isSuccess then
          Step(p0.(errorMessage := EmailNotFoundMsg), [check])
        else
          var log := [check, Exchange(SendEmailOtp(email), Sending)];
          var p1 := p0.(loading := Idle);
          match BodyOrThrow(server(SendEmailOtp(email)))
          case None => Step(p1.(errorMessage := SendFailedMsg), log)
          case Some(reply) =>
            if !reply.isSuccess then
              Step(p1.(errorMessage := Shown(reply.message)), log)
            else
              Step(p1.(otp := p.otp.(isOtpSent := true), otpTimer := Cooldown, successMessage := OtpSentMsg), log)
  }

  /** `handleResendOtp`: request a fresh OTP for the same email and clear the code typed so far. */
  function HandleResendOtp(p: Page, server: Server): (r: Step)
    ensures r.log == [Exchange(SendEmailOtp(p.form.email), Sending)]
    ensures r.page.otp == p.otp && r.page.loading == Idle
    ensures Accepted(server(SendEmailOtp(p.form.email))) ==>
              r.page.otpTimer == Cooldown && r.page.form == p.form.(enteredOtp := "")
              && r.page.errorMessage == "" && r.page.successMessage == OtpResentMsg
    ensures !Accepted(server(SendEmailOtp(p.form.email))) ==>
              r.page.otpTimer == p.otpTimer && r.page.form == p.form
              && r.page.successMessage == ""
    ensures server(SendEmailOtp(p.form.email)).NoResponse? ==> r.page.errorMessage == ResendFailedMsg
  {
    var p0 := Cleared(p).(loading := Idle);
    var log := [Exchange(SendEmailOtp(p.form.email), Sending)];
    match BodyOrThrow(server(SendEmailOtp(p.form.email)))
    case None => Step(p0.(errorMessage := ResendFailedMsg), log)
    case Some(reply) =>
      if !reply.isSuccess then
        Step(p0.(errorMessage := Shown(reply.message)), log)
      else
        Step(p0.(otpTimer := Cooldown, successMessage := OtpResentMsg, form := p.form.(enteredOtp := "")), log)
  }

  /** `handleVerifyOtp`: a code that is not six characters long never reaches the server. */
  function HandleVerifyOtp(p: Page, server: Server): (r: Step)
    ensures r.page.form == p.form && r.page.otpTimer == p.otpTimer && r.page.otp.isOtpSent == p.otp.isOtpSent
    ensures |p.form.enteredOtp| != OtpLength ==>
              r.log == [] && r.page == p.(errorMessage := InvalidOtpMsg, successMessage := "")
    ensures |p.form.enteredOtp| == OtpLength ==>
              r.log == [Exchange(VerifyEmailOtp(p.form.email, p.form.enteredOtp), Verifying)]
              && r.page.loading == Idle
    ensures r.page.otp.isOtpVerified != p.otp.isOtpVerified ==>
              |p.form.enteredOtp| == OtpLength && Accepted(server(VerifyEmailOtp(p.form.email, p.form.enteredOtp)))
    ensures |p.form.enteredOtp| == OtpLength && Accepted(server(VerifyEmailOtp(p.form.email, p.form.enteredOtp))) ==>
              r.page.otp.isOtpVerified && r.page.successMessage == OtpVerifiedMsg && r.page.errorMessage == ""
  {
    var p0 := Cleared(p);
    if |p.form.enteredOtp| != OtpLength then
      Step(p0.(errorMessage := InvalidOtpMsg), [])
    else
      var req := VerifyEmailOtp(p.form.email, p.form.enteredOtp);
      var log := [Exchange(req, Verifying)];
      var p1 := p0.(loading := Idle);
      match BodyOrThrow(server(req))
      case None => Step(p1.(errorMessage := VerifyFailedMsg), log)
      case Some(reply) =>
        if !reply.isSuccess then
          Step(p1.(errorMessage := Shown(reply.message)), log)
        else
          Step(p1.(otp := p.otp.(isOtpVerified := true), successMessage := OtpVerifiedMsg), log)
  }

  /**
   * `handleResetPassword`: the password policy is checked first, then the
   * confirmation; only a password passing both is sent.
   */
  function HandleResetPassword(p: Page, server: Server): (r: Step)
    ensures r.page.form == p.form && r.page.otp == p.otp && r.page.otpTimer == p.otpTimer
    ensures !StrongPassword(p.form.newPassword) ==>
              r.log == [] && r.page == p.(errorMessage := WeakPasswordMsg, successMessage := "")
    ensures StrongPassword(p.form.newPassword) && p.form.newPassword != p.form.confirmPassword ==>
              r.log == [] && r.page == p.(errorMessage := MismatchMsg, successMessage := "")
    ensures r.log != [] <==> StrongPassword(p.form.newPassword) && p.form.newPassword == p.form.confirmPassword
    ensures r.log != [] ==>
              r.log == [Exchange(ResetPassword(p.form.email, p.form.newPassword), Resetting)] && r.page.loading == Idle
    ensures r.page.successMessage != "" <==>
              r.log != [] && server(r.log[0].request).Ok? && server(r.log[0].request).body.isSuccess
    ensures r.page.successMessage != "" ==> r.page.successMessage == ResetDoneMsg && r.page.errorMessage == ""
    ensures r.log != [] && server(r.log[0].request).NoResponse? ==> r.page.errorMessage == ResetFailedMsg
  {
    var p0 := Cleared(p);
    if !StrongPassword(p.form.newPassword) then
      Step(p0.(errorMessage := WeakPasswordMsg), [])
    else if p.form.newPassword != p.form.confirmPassword then
      Step(p0.(errorMessage := MismatchMsg), [])
    else
      var req := ResetPassword(p.form.email, p.form.newPassword);
      var log := [Exchange(req, Resetting)];
      var p1 := p0.(loading := Idle);
      match server(req)
      case Ok(body) =>
        if body.isSuccess then Step(p1.(successMessage := ResetDoneMsg), log)
        else Step(p1.(errorMessage := OrElse(body.message, ResetRefusedMsg)), log)
      case HttpError(body) => Step(p1.(errorMessage := OrElse(body.message, ResetFailedMsg)), log)
      case NoResponse => Step(p1.(errorMessage := ResetFailedMsg), log)
  }

  // ---------------------------------------------------------------- events

  /** Which of the three steps a submit runs, as the heading and progress bar show it. */
  datatype Stage = SendStage | VerifyStage | ResetStage

  function StageOf(otp: OtpStatus): Stage
  {
    if !otp.isOtpSent then SendStage else if !otp.isOtpVerified then VerifyStage else ResetStage
  }

  /** The step a request belongs to. */
  function StageOfRequest(q: Request): Option<Stage>
  {
    match q
    case VerifyEmail(_) => Some(SendStage)
    case SendEmailOtp(_) => Some(SendStage)
    case VerifyEmailOtp(_, _) => Some(VerifyStage)
    case ResetPassword(_, _) => Some(ResetStage)
    case _ => None
  }

  /** `handleSubmit`, behind a submit button that is disabled while any request is pending. */
  function HandleSubmit(p: Page, server: Server): (r: Step)
    ensures Busy(p.loading) ==> r == Step(p, [])
    ensures !Busy(p.loading) ==>
              forall k | 0 <= k < |r.log| :: StageOfRequest(r.log[k].request) == Some(StageOf(p.otp))
    ensures StageOf(p.otp) == SendStage ==> r.page.otp.isOtpVerified == p.otp.isOtpVerified
    ensures StageOf(p.otp) == VerifyStage ==> r.page.otp.isOtpSent == p.otp.isOtpSent
    ensures StageOf(p.otp) == ResetStage ==> r.page.otp == p.otp
    ensures !Busy(p.loading) && StageOf(p.otp) == SendStage ==>
              if EmailRegex(p.form.email) then |r.log| >= 1 && r.log[0].request == VerifyEmail(p.form.email)
              else r.log == [] && r.page.errorMessage == InvalidEmailMsg
    ensures !Busy(p.loading) && StageOf(p.otp) == SendStage && EmailRegex(p.form.email)
            && Accepted(server(VerifyEmail(p.form.email))) && Accepted(server(SendEmailOtp(p.form.email))) ==>
              r.page.otp.isOtpSent && r.page.otpTimer == Cooldown
    ensures !Busy(p.loading) && StageOf(p.otp) == VerifyStage ==>
              if |p.form.enteredOtp| == OtpLength
              then r.log == [Exchange(VerifyEmailOtp(p.form.email, p.form.enteredOtp), Verifying)]
              else r.log == [] && r.page.errorMessage == InvalidOtpMsg
    ensures !Busy(p.loading) && StageOf(p.otp) == VerifyStage && |p.form.enteredOtp| == OtpLength
            && Accepted(server(VerifyEmailOtp(p.form.email, p.form.enteredOtp))) ==>
              r.page.otp.isOtpVerified
    ensures !Busy(p.loading) && StageOf(p.otp) == ResetStage ==>
              if !StrongPassword(p.form.newPassword) then r.log == [] && r.page.errorMessage == WeakPasswordMsg
              else if p.form.newPassword != p.form.confirmPassword then r.log == [] && r.page.errorMessage == MismatchMsg
              else r.log == [Exchange(ResetPassword(p.form.email, p.form.newPassword), Resetting)]
  {
    if Busy(p.loading) then Step(p, [])
    else if !p.otp.isOtpSent then HandleSendOtp(p, server)
    else if p.otp.isOtpSent && !p.otp.isOtpVerified then HandleVerifyOtp(p, server)
    else HandleResetPassword(p, server)
  }

  /** The resend link is shown only while an OTP awaits verification, and is disabled during the cooldown or a send. */
  predicate ResendEnabled(p: Page)
  {
    p.otp.isOtpSent && !p.otp.isOtpVerified && !(p.otpTimer > 0 || p.loading.sendingOtp)
  }

  function HandleResendClick(p: Page, server: Server): (r: Step)
    ensures !ResendEnabled(p) ==> r == Step(p, [])
    ensures ResendEnabled(p) ==> r.log == [Exchange(SendEmailOtp(p.form.email), Sending)]
  {
    if ResendEnabled(p) then HandleResendOtp(p, server) else Step(p, [])
  }

  /** The countdown effect: one second later, a positive timer is one less. */
  function Tick(p: Page): (r: Page)
    ensures p.otpTimer >= 0 ==> r.otpTimer >= 0
    ensures p.otpTimer > 0 ==> r.otpTimer == p.otpTimer - 1
    ensures p.otpTimer <= 0 ==> r == p
    ensures r.(otpTimer := p.otpTimer) == p
  {
    if p.otpTimer > 0 then p.(otpTimer := p.otpTimer - 1) else p
  }

  /** The OTP field exists only while an OTP awaits verification. */
  function TypeIntoOtp(p: Page, raw: string): (r: Page)
    ensures p.otp.isOtpSent && !p.otp.isOtpVerified ==> r.form.enteredOtp == SanitizeOtp(raw)
    ensures !(p.otp.isOtpSent && !p.otp.isOtpVerified) ==> r == p
    ensures r.(form := p.form) == p && r.form.(enteredOtp := p.form.enteredOtp) == p.form
  {
    if p.otp.isOtpSent && !p.otp.isOtpVerified then p.(form := p.form.(enteredOtp := SanitizeOtp(raw))) else p
  }

  function Handle(p: Page, e: Event, server: Server): Step
  {
    match e
    case Submit => HandleSubmit(p, server)
    case ClickResend => HandleResendClick(p, server)
    case TimerTick => Step(Tick(p), [])
    case TypeOtp(raw) => Step(TypeIntoOtp(p, raw), [])
  }

  /** Run a sequence of events from `p`, collecting every request made. */
  function Run(p: Page, events: seq<Event>, server: Server): Step
    decreases |events|
  {
    if |events| == 0 then Step(p, [])
    else
      var s := Handle(p, events[0], server);
      var rest := Run(s.page, events[1..], server);
      Step(rest.page, s.log + rest.log)
  }

  // ---------------------------------------------------------------- properties

  /** The page between events: verified implies sent, no request pending, a non-negative countdown. */
  predicate Inv(p: Page)
  {
    (p.otp.isOtpVerified ==> p.otp.isOtpSent) && p.loading == Idle && p.otpTimer >= 0
  }

  predicate LoadingExclusive(log: seq<Exchange>)
  {
    forall k | 0 <= k < |log| :: AtMostOneLoading(log[k].loadingWhile)
  }

  /** Every event keeps the invariant, and no pending request ever shows two loading flags. */
  lemma HandlePreservesInv(p: Page, e: Event, server: Server)
    requires Inv(p)
    ensures Inv(Handle(p, e, server).page)
    ensures LoadingExclusive(Handle(p, e, server).log)
  {
  }

  /** The countdown changes only by ticking down, or by being reset to 60 after an accepted (re)send. */
  lemma CooldownOnlyAfterAcceptedSend(p: Page, e: Event, server: Server)
    requires Inv(p)
    ensures var r := Handle(p, e, server);
            r.page.otpTimer != p.otpTimer ==>
              (e == TimerTick && r.page.otpTimer == p.otpTimer - 1)
              || (r.page.otpTimer == Cooldown
                  && exists k | 0 <= k < |r.log| ::
                       r.log[k].request == SendEmailOtp(p.form.email) && Accepted(server(r.log[k].request)))
  {
    var r := Handle(p, e, server);
    if r.page.otpTimer != p.otpTimer && e != TimerTick {
      if e == Submit {
        assert r.log[1].request == SendEmailOtp(p.form.email);
      } else {
        assert r.log[0].request == SendEmailOtp(p.form.email);
      }
    }
  }

  /** Ticking `n` times from `t` leaves `max(t - n, 0)`: one second per tick, never below zero. */
  lemma {:induction false} TicksCountDown(p: Page, n: nat)
    requires p.otpTimer >= 0
    ensures TickN(p, n).otpTimer == if p.otpTimer >= n then p.otpTimer - n else 0
    ensures TickN(p, n).(otpTimer := p.otpTimer) == p
    decreases n
  {
    if n > 0 {
      TicksCountDown(Tick(p), n - 1);
    }
  }

  function TickN(p: Page, n: nat): Page
    decreases n
  {
    if n == 0 then p else TickN(Tick(p), n - 1)
  }

  /** Every page reachable from the initial one satisfies the invariant; no request ever shows two loading flags. */
  lemma {:induction false} RunPreservesInv(p: Page, events: seq<Event>, server: Server)
    requires Inv(p)
    ensures Inv(Run(p, events, server).page)
    ensures LoadingExclusive(Run(p, events, server).log)
    decreases |events|
  {
    if |events| > 0 {
      var s := Handle(p, events[0], server);
      HandlePreservesInv(p, events[0], server);
      RunPreservesInv(s.page, events[1..], server);
      var rest := Run(s.page, events[1..], server);
      assert Run(p, events, server).log == s.log + rest.log;
      forall k | 0 <= k < |s.log + rest.log|
        ensures AtMostOneLoading((s.log + rest.log)[k].loadingWhile)
      {
        if k >= |s.log| {
          assert (s.log + rest.log)[k] == rest.log[k - |s.log|];
        }
      }
    }
  }

  lemma InitialSatisfiesInv()
    ensures Inv(Initial) && StageOf(Initial.otp) == SendStage
  {
  }

  /** Every reset request in `log` comes after an accepted OTP verification. */
  predicate ResetFollowsVerification(log: seq<Exchange>, server: Server)
  {
    forall k | 0 <= k < |log| && log[k].request.ResetPassword? :: AcceptedVerificationBefore(log, server, k)
  }

  predicate AcceptedVerificationBefore(log: seq<Exchange>, server: Server, k: int)
    requires 0 <= k <= |log|
  {
    exists j | 0 <= j < k :: log[j].request.VerifyEmailOtp? && Accepted(server(log[j].request))
  }

  /** No new password is sent unless an OTP verification was accepted earlier in the session. */
  lemma {:induction false} ResetRequestsOnlyAfterVerification(p: Page, events: seq<Event>, server: Server)
    requires Inv(p) && !p.otp.isOtpVerified
    ensures ResetFollowsVerification(Run(p, events, server).log, server)
    decreases |events|
  {
    if |events| > 0 {
      var s := Handle(p, events[0], server);
      HandlePreservesInv(p, events[0], server);
      var rest := Run(s.page, events[1..], server);
      var all := s.log + rest.log;
      assert Run(p, events, server).log == all;
      assert forall k | 0 <= k < |s.log| :: !s.log[k].request.ResetPassword?;
      if s.page.otp.isOtpVerified {
        // this very event verified the OTP, so its one request was accepted
        assert s.log == [Exchange(VerifyEmailOtp(p.form.email, p.form.enteredOtp), Verifying)];
        forall k | 0 <= k < |all| && all[k].request.ResetPassword?
          ensures AcceptedVerificationBefore(all, server, k)
        {
          assert all[0] == s.log[0];
        }
      } else {
        ResetRequestsOnlyAfterVerification(s.page, events[1..], server);
        forall k | 0 <= k < |all| && all[k].request.ResetPassword?
          ensures AcceptedVerificationBefore(all, server, k)
        {
          var k' := k - |s.log|;
          assert all[k] == rest.log[k'];
          assert AcceptedVerificationBefore(rest.log, server, k');
          var j :| 0 <= j < k' && rest.log[j].request.VerifyEmailOtp? && Accepted(server(rest.log[j].request));
          assert all[j + |s.log|] == rest.log[j];
        }
      }
    }
  }
}
