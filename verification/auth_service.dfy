/**
 * `UserService` of the API (api/src/services/auth.service.ts): the existence
 * lookup behind `POST /auth/verify-email` and registration. Each operation
 * takes the user store and returns the envelope together with the store
 * afterwards.
 */
module AuthService {
  import opened Optional
  import opened UserModel
  import opened ApiResponses

  datatype ServiceResult = ServiceResult(response: ApiResponse, store: Store)

  const EmailRequired := "Email is required"
  const UserNotFound := "User not found"
  const UserAlreadyExists := "User Already Exists"
  const UserRegistered := "User registered successfully"
  const RegisterFailed := "Failed to register user"

  /** `UserService.findByEmail`: 400 without an email, 404 for an unknown one, 200 for a stored one. */
  function FindByEmail(store: Store, email: Option<string>): (r: ServiceResult)
    ensures r.store == store
    ensures Consistent(r.response)
    ensures !Supplied(email) ==> r.response == ApiResponse(400, false, EmailRequired, NoData)
    ensures Supplied(email) && email.value !in store ==> r.response == ApiResponse(404, false, UserNotFound, NoData)
    ensures Supplied(email) && email.value in store ==>
              r.response == ApiResponse(200, true, UserAlreadyExists, ExistingUser(email.value))
    ensures r.response.success <==> Supplied(email) && email.value in store
  {
    if !Supplied(email) then
      ServiceResult(ApiResponse(400, false, EmailRequired, NoData), store)
    else if email.value !in store then
      ServiceResult(ApiResponse(404, false, UserNotFound, NoData), store)
    else
      ServiceResult(ApiResponse(200, true, UserAlreadyExists, ExistingUser(email.value)), store)
  }

  /**
   * `UserService.register`: 201 with the saved user when `save()` succeeds;
   * every rejection, whatever its cause, becomes 500 with the store untouched.
   */
  function Register(store: Store, input: UserInput): (r: ServiceResult)
    ensures Consistent(r.response)
    ensures r.response.statusCode == 201 || r.response.statusCode == 500
    ensures r.response.success ==>
              && Supplied(input.firstName) && Supplied(input.email) && Supplied(input.password)
              && input.email.value !in store
              && r.response.message == UserRegistered
              && r.response.data.SavedUser?
              && r.store == store[input.email.value := r.response.data.user]
    ensures !r.response.success ==>
              && r.response.statusCode == 500
              && r.response.message == RegisterFailed
              && r.response.data.SaveFailure?
              && r.store == store
  {
    match Save(store, input)
    case Saved(u, store') => ServiceResult(ApiResponse(201, true, UserRegistered, SavedUser(u)), store')
    case Rejected(e) => ServiceResult(ApiResponse(500, false, RegisterFailed, SaveFailure(e)), store)
  }

  /** Registration succeeds exactly for a complete document whose email is not yet stored. */
  lemma RegisterSucceedsIff(store: Store, input: UserInput)
    ensures Register(store, input).response.success <==>
              Supplied(input.firstName) && Supplied(input.email) && Supplied(input.password)
              && input.email.value !in store
  {
  }

  /** A second registration with a stored email fails with 500 and leaves the stored user as it was. */
  lemma DuplicateRegistrationFails(store: Store, input: UserInput)
    requires input.email.Some? && input.email.value in store
    ensures Register(store, input).response == ApiResponse(500, false, RegisterFailed, SaveFailure(DuplicateKey(input.email.value)))
            || Register(store, input).response == ApiResponse(500, false, RegisterFailed, SaveFailure(ValidationError(MissingPaths(input))))
    ensures Register(store, input).store == store
  {
  }

  /** The stored user holds exactly the supplied fields, the password included: nothing hashes it. */
  lemma RegisterStoresInputVerbatim(store: Store, input: UserInput)
    requires Register(store, input).response.success
    ensures var u := Register(store, input).store[input.email.value];
            Some(u.firstName) == input.firstName && u.lastName == input.lastName
            && Some(u.email) == input.email && Some(u.password) == input.password
  {
  }

  /** Registration keeps the store well formed. */
  lemma RegisterPreservesWellFormed(store: Store, input: UserInput)
    requires WellFormed(store)
    ensures WellFormed(Register(store, input).store)
  {
  }

  /** An empty or missing email is answered without looking at the store. */
  lemma FindByEmailIgnoresStoreWithoutEmail(s1: Store, s2: Store, email: Option<string>)
    requires !Supplied(email)
    ensures FindByEmail(s1, email).response == FindByEmail(s2, email).response
  {
  }

  /** After a successful registration the lookup of that email answers 200. */
  lemma RegisterThenFind(store: Store, input: UserInput)
    requires Register(store, input).response.success
    ensures FindByEmail(Register(store, input).store, input.email).response.statusCode == 200
    ensures FindByEmail(Register(store, input).store, input.email).response.success
  {
  }

  /** The lookup answer for any other email is the same before and after a registration. */
  lemma RegisterAffectsOnlyItsEmail(store: Store, input: UserInput, other: Option<string>)
    requires other != input.email
    ensures FindByEmail(Register(store, input).store, other).response == FindByEmail(store, other).response
  {
  }
}
