# Social-platform auth and feed logic, modelled in Dafny

This project models the deterministic core of a small social-platform web
application: an Express/Mongoose API with a user-registration service, and a
React client with sign-up, login and reset-password forms, a post feed and a
profile card.

- **Server.** `UserService.findByEmail` and `UserService.register` run over an
  abstract user store. The store is a map from email to the saved document.
  The Mongoose `User` schema becomes the store's well-formedness: three required
  string paths, an optional `lastName`, and a unique `email`. Both operations
  return the `{statusCode, success, message, data}` envelope together with the
  store afterwards (`UserModel`, `ApiResponses`, `AuthService`).
- **Client auth forms.** Each handler is a pure step function from page state
  to page state. The server is an input: a function from request to outcome.
  An outcome is a 2xx body, a non-2xx body, or no response, and a body has
  `IsSuccess` and an optional `message`. Each step returns the requests it
  made, in order. "No request is made" is therefore a statement about that
  log. The reset page also records the loading flags shown while each request
  was pending.
  - `ResetPassword` holds the send → verify → reset state machine, the resend
    countdown, the mutually exclusive loading flags, and the OTP input
    sanitiser.
  - `SignupPage` and `LoginPage` hold the validation chains and the
    existence gates.
  - `Patterns` writes the two regular expressions as predicates over
    characters.
  - `ClientApi` holds the request and reply shapes.
- **Feed and profile.** `PostCard` holds the like toggle and the integer
  time-ago buckets, with the clock passed in. `Feed` holds the category
  filter. `UserProfile` holds the full-name and initials derivation.
  `JsText` holds the JavaScript string behaviour these rely on: the `\s`/`trim`
  whitespace set, trimming, ASCII upper-casing, and decimal rendering.

The client reads a flag named `IsSuccess`. The server envelope names its flag
`success`. The two sides are therefore modelled separately, and no contract
connects a server envelope to a client reply.

Three facts about the server code shape the model:
- `register` classifies every save failure as 500 "Failed to register user".
  It never answers 409 or 400.
- The schema has no pre-save hook, so the password is stored exactly as
  supplied.
- The only server operations are `findByEmail` and `register`.

On the login page, `login()` returns an unknown email as
`ReturnedNothing("<message>, Please Signup")`, the message it sets. The
`handleSubmit` step then replaces it with "Login failed. Please try again.".

## Model

| member | source | states |
|---|---|---|
| UserModel.MissingPaths | api/src/models/userModel.ts:6-9 | exactly the required paths (`firstName`, `email`, `password`) that are absent or empty are reported; `lastName` never is |
| UserModel.Save | api/src/models/userModel.ts:4-10 | a save succeeds iff every required path is non-empty and the email is not yet stored; the stored document carries the supplied fields verbatim (no pre-save transformation) and the store gains exactly that entry |
| UserModel.SavePreservesWellFormed | api/src/models/userModel.ts:8 | a successful save keeps every document valid and filed under its own email, so no two stored users share an email |
| UserModel.RequiredPathsAndUniqueEmail | api/src/models/userModel.ts:6-9 | a document missing `firstName`, `email` or `password`, or reusing a stored email, is never saved |
| UserModel.LastNameOptional | api/src/models/userModel.ts:7 | a complete new document without `lastName` is saved |
| AuthService.FindByEmail | api/src/services/auth.service.ts:6-17 | 400 "Email is required" for a missing or empty email, 404 "User not found" for an unknown one, 200 "User Already Exists" for a stored one; `success` is true exactly for 200/201; the store is unchanged |
| AuthService.Register | api/src/services/auth.service.ts:19-28 | status is 201 or 500 only; on success the store gains the new user under its email and nothing else changes; on failure 500 "Failed to register user" with the store unchanged; `success` is true exactly for 200/201 |
| AuthService.RegisterSucceedsIff | api/src/services/auth.service.ts:20-27 | registration succeeds exactly for a complete document whose email is not stored |
| AuthService.DuplicateRegistrationFails | api/src/services/auth.service.ts:24-27 | registering an already stored email answers 500 and leaves the store, and so the existing user, untouched |
| AuthService.RegisterStoresInputVerbatim | api/src/services/auth.service.ts:20-23 | after a successful registration the stored user holds the supplied fields, the password included |
| AuthService.RegisterPreservesWellFormed | api/src/services/auth.service.ts:20-27 | registration keeps the store well formed (unique emails, required fields present) |
| AuthService.FindByEmailIgnoresStoreWithoutEmail | api/src/services/auth.service.ts:8-10 | without an email the answer is the same whatever the store holds |
| AuthService.RegisterThenFind | api/src/services/auth.service.ts:12-23 | after a successful `register(u)`, `findByEmail(u.email)` answers 200 with `success` |
| AuthService.RegisterAffectsOnlyItsEmail | api/src/services/auth.service.ts:12-23 | a registration does not change the lookup answer for any other email |
| ClientApi.BodyOrThrow | internship/src/utils/authUtils.ts:6-19 | the client helpers yield the reply body for 2xx and non-2xx answers alike and throw only when no response arrived |
| Patterns.EmailRegex | internship/src/pages/auth/SignupPage.tsx:65-66 | a matching email has at least 5 characters and contains both `@` and `.` |
| Patterns.StrongPassword | internship/src/pages/auth/SignupPage.tsx:71-73 | a matching password consists of printable ASCII characters between `!` and `z`, none of them whitespace |
| Patterns.EmailRegexIsShape | internship/src/pages/auth/SignupPage.tsx:65-66 | the email regex accepts exactly the strings with no whitespace, exactly one `@`, a non-empty part before it, and a domain with a `.` that is neither its first nor its last character |
| Patterns.MatchEmail | internship/src/pages/auth/resetPassword.tsx:47-48 | a single scan decides the email regex, and agrees with both its structural and its shape reading |
| Patterns.MatchPassword | internship/src/pages/auth/SignupPage.tsx:71-73 | a single scan decides the password regex: at least 8 characters, all from `[A-Za-z0-9@$!%*?&]`, with a lowercase, an uppercase, a digit and one of `@$!%*?&` |
| ResetPassword.DigitsOf | internship/src/pages/auth/resetPassword.tsx:280 | `replace(/\D/g, "")` keeps every digit as often as it occurs and drops every other character |
| ResetPassword.SanitizeOtp | internship/src/pages/auth/resetPassword.tsx:280 | the OTP field holds the first min(6, number of digits) digits of the input, in order; an input of at most 6 digits is kept as typed |
| ResetPassword.TypeIntoOtp | internship/src/pages/auth/resetPassword.tsx:268-283 | while an OTP is sent but not verified, typing stores the sanitised input in the OTP field and changes nothing else; otherwise the page is unchanged |
| ResetPassword.DigitsOfAppend | internship/src/pages/auth/resetPassword.tsx:280 | stripping non-digits distributes over concatenation |
| ResetPassword.SanitizeIdempotent | internship/src/pages/auth/resetPassword.tsx:280 | sanitising a sanitised value changes nothing |
| ResetPassword.SanitizeIgnoresTail | internship/src/pages/auth/resetPassword.tsx:280 | once six digits are in, anything typed after them is dropped |
| ResetPassword.HandleSendOtp | internship/src/pages/auth/resetPassword.tsx:43-78 | an email failing the regex stops with its message and makes no request at all; a failed existence check stops after that one request; an OTP is requested only after an accepted existence check; only an accepted send marks the OTP sent and starts the 60 s countdown; a refused send shows the reply's message and a lost one "Failed to send OTP. Please try again."; the verified flag and the form are untouched |
| ResetPassword.HandleResendOtp | internship/src/pages/auth/resetPassword.tsx:80-101 | exactly one send request with only `sendingOtp` shown; an accepted resend restarts the 60 s countdown and clears the typed code, otherwise countdown and form are unchanged; the OTP flags never change |
| ResetPassword.HandleVerifyOtp | internship/src/pages/auth/resetPassword.tsx:103-129 | a code whose length is not 6 is rejected with no request and the flags unchanged; otherwise one verify request with only `verifyingOtp` shown; only an accepted verification sets the verified flag |
| ResetPassword.HandleResetPassword | internship/src/pages/auth/resetPassword.tsx:131-172 | the password policy is checked before the confirmation match and either failure sends nothing; otherwise one reset request with only `resettingPassword` shown; the success message appears exactly for a 2xx body with `IsSuccess` |
| ResetPassword.HandleResendClick | internship/src/pages/auth/resetPassword.tsx:295-298 | while the countdown is above 0 or a send is pending the resend link does nothing and makes no request |
| ResetPassword.Tick | internship/src/pages/auth/resetPassword.tsx:36-41 | a positive countdown drops by one, a zero one stays, nothing else on the page changes |
| ResetPassword.TicksCountDown | internship/src/pages/auth/resetPassword.tsx:36-41 | after n ticks the countdown is max(t - n, 0) |
| ResetPassword.HandleSubmit | internship/src/pages/auth/resetPassword.tsx:174-184 | a submit while a request is pending does nothing; otherwise it runs exactly the step the OTP flags select and only that step: when not sent, the email check (existence check or invalid-email message, an accepted send marking the OTP sent with the 60 s countdown); when sent but not verified, the verify request for a 6-character code or the invalid-OTP message, an accepted verification setting the verified flag; when verified, the weak-password or mismatch message, or the one reset request; each step changes only the flag it owns |
| ResetPassword.HandlePreservesInv | internship/src/pages/auth/resetPassword.tsx:43-184 | every event keeps verified ⇒ sent, no loading flag on between events, and a non-negative countdown; every pending request shows at most one loading flag |
| ResetPassword.CooldownOnlyAfterAcceptedSend | internship/src/pages/auth/resetPassword.tsx:36-94 | the countdown changes only by a tick down or by becoming 60 after an accepted send or resend |
| ResetPassword.RunPreservesInv | internship/src/pages/auth/resetPassword.tsx:43-184 | along any sequence of events the invariant holds and no pending request ever shows two loading flags |
| ResetPassword.InitialSatisfiesInv | internship/src/pages/auth/resetPassword.tsx:10-28 | the freshly mounted page satisfies the invariant and is at the send step |
| ResetPassword.ResetRequestsOnlyAfterVerification | internship/src/pages/auth/resetPassword.tsx:174-184 | from an unverified page, every reset request is preceded in the session by an accepted OTP verification |
| SignupPage.RegisterUser | internship/src/pages/auth/SignupPage.tsx:31-58 | a known email (`IsSuccess`) stops with "`<message>`, Please Login" and no registration request; a lost existence check stops with no registration request; otherwise one registration request; the success message appears exactly for a 2xx body with `IsSuccess`; failures show the reply's message or the fallback |
| SignupPage.HandleSubmit | internship/src/pages/auth/SignupPage.tsx:60-94 | email, then password strength, then confirmation: the first failure sets its message and nothing is requested; a registration is requested only after a valid form and a negative existence check |
| SignupPage.SubmitForgetsMessages | internship/src/pages/auth/SignupPage.tsx:62-63 | both messages are cleared first, so the previous messages never influence a submit |
| SignupPage.KnownEmailIsNotRegistered | internship/src/pages/auth/SignupPage.tsx:35-39 | for a valid form whose email exists, only the existence check is made and the error is "`<message>`, Please Login" |
| LoginPage.Login | internship/src/pages/auth/LoginPage.tsx:18-47 | the login request is made exactly when the existence check is accepted; an unknown email returns nothing with "`<message>`, Please Signup"; a login reply of any status is returned as its body; a lost login request throws "An unexpected error occurred. Please try again." |
| LoginPage.HandleSubmit | internship/src/pages/auth/LoginPage.tsx:49-65 | an unknown email ends with "Login failed. Please try again." and no login request; a reply with `IsSuccess` shows the success message and no error; a failing reply shows its message or that fallback; no response shows "An unexpected error occurred. Please try again." |
| LoginPage.SubmitForgetsMessages | internship/src/pages/auth/LoginPage.tsx:51-52 | the previous messages never influence a submit |
| LoginPage.MessagesExclusive | internship/src/pages/auth/LoginPage.tsx:49-65 | error and success messages are never both shown |
| PostCard.ToggleLike | internship/src/components/feed/PostCard.tsx:13-16 | a like flips `isLiked` and moves the count by +1 when it was unliked and -1 when it was liked, keeping `likesCount - (isLiked ? 1 : 0)` |
| PostCard.ToggleTwice | internship/src/components/feed/PostCard.tsx:13-16 | two likes restore both the flag and the count |
| PostCard.TogglesKeepOthersLikes | internship/src/components/feed/PostCard.tsx:10-16 | after any number of likes from the initial state, `likesCount - (isLiked ? 1 : 0)` is what the post arrived with, and the state depends only on the parity of the clicks |
| PostCard.Bucket | internship/src/components/feed/PostCard.tsx:18-28 | under 60000 ms, negative ages included, is "just now"; then whole minutes below an hour, whole hours below a day, whole days beyond, each the floor of the age over its unit and at least 1 |
| PostCard.FormatTimeAgo | internship/src/components/feed/PostCard.tsx:18-28 | the label is "Just now" exactly below one minute, then `<floor(diff/60000)>m ago`, `<floor(diff/3600000)>h ago` or `<floor(diff/86400000)>d ago` by age range |
| PostCard.RenderInjective | internship/src/components/feed/PostCard.tsx:25-28 | two different buckets never print the same label |
| JsText.DecimalRoundTrip | internship/src/components/feed/PostCard.tsx:25-27 | the number printed in a label reads back as the number |
| Feed.FilterPosts | internship/src/components/feed/Feed.tsx:18-20 | every kept post is in the feed and is shown by the filter, every shown post is kept, and the result is no longer than the feed |
| Feed.FilterAllIsIdentity | internship/src/components/feed/Feed.tsx:18-20 | the filter "All" returns the feed unchanged |
| Feed.FilterIsSubsequence | internship/src/components/feed/Feed.tsx:18-20 | the filtered feed is an order-preserving subsequence of the feed |
| Feed.FilterIdempotent | internship/src/components/feed/Feed.tsx:18-20 | filtering twice by the same filter equals filtering once |
| Feed.FilterMultiplicity | internship/src/components/feed/Feed.tsx:18-20 | each shown post is kept as often as it occurs, every other post not at all |
| JsText.TrimSpec | internship/src/components/profile/UserProfile.tsx:31 | `trim` returns a contiguous slice with non-whitespace ends, removes only whitespace, and is empty exactly for an all-whitespace string |
| UserProfile.FullName | internship/src/components/profile/UserProfile.tsx:31 | the full name is exactly the trimmed `firstName + " " + lastName`, or "User" when that is empty; it is never empty and has no surrounding whitespace |
| UserProfile.FullNameWithoutLastName | internship/src/components/profile/UserProfile.tsx:31 | with an empty last name the full name is the trimmed first name, or "User" if that is empty |
| UserProfile.FullNameOfCleanNames | internship/src/components/profile/UserProfile.tsx:31 | non-empty names without surrounding whitespace give `firstName + " " + lastName` |
| UserProfile.FullNameOfBlankNames | internship/src/components/profile/UserProfile.tsx:31 | blank names give "User" |
| UserProfile.Initials | internship/src/components/profile/UserProfile.tsx:32 | the upper-cased first characters of the present names, in order, or "U" when both are empty; length 1 or 2 |

## Left out

- The link between client and server is not modelled. The client branches on `IsSuccess`, while the server envelope carries `success`. Replies are therefore free inputs to the client steps.
- Express plumbing is not modelled: routing, CORS, the server bootstrap and the controller. Two facts about it are recorded here only: the controller always replies with HTTP status 201 (api/src/controllers/auth.controller.ts:13), and the route names a `findByEmail` handler that the controller does not define (api/src/routes/auth.route.ts:7).
- Database and cache connections, the mail transport and the TypeScript loader are not modelled; they are I/O or foreign library calls. The store is an abstract map.
- The server has no OTP generation, hashing or expiry, no password hashing, no tokens, and no login or reset-password endpoint. The client only calls these endpoints, so they appear only as requests with free replies.
- Mongoose details are not modelled: document `_id`s, casting of non-string values, strict-mode dropping of unknown fields, unique-index build timing, and concurrent saves. The 200 reply's `data` is modelled as a handle naming the email.
- Browser constraint validation is not modelled: `required` inputs, `type="email"`, `maxLength`, and the terms checkbox. The model starts at the React handlers.
- Rendering is not modelled: markup, icons, password visibility toggles, and the `setTimeout` redirect to `/login`.
- Edits to text fields other than the OTP field are plain assignments and are not events of the model. The reset-page invariant does not mention the form.
- Asynchrony is not modelled. Each handler runs to completion in the order written, and the countdown effect is a discrete tick. The loading flags are recorded only while each request is pending.
- UserProfile.Initials: upper-casing covers only ASCII letters. JavaScript's full Unicode `toUpperCase` can lengthen a string (for example "ß" becomes "SS"), so the length bound of 1 or 2 is proved only for this ASCII mapping. JavaScript also indexes strings by UTF-16 code unit, while the model indexes by Unicode scalar value.
- PostCard.Bucket: uses exact integer floor division. `Math.floor` over a double quotient can differ only for ages beyond about 2^53 ms, which are not modelled. `new Date()` is the `now` parameter.
- Message presentation: an absent reply `message` shown with `setErrorMessage` is modelled as the empty string, which displays the same as `undefined`.
