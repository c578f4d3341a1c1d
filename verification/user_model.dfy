/**
 * The `User` schema of the API (api/src/models/userModel.ts) and the user
 * collection it governs, seen as an abstract store: a map from email to the
 * stored document. `firstName`, `email` and `password` are required strings,
 * `lastName` is optional, `email` carries a unique index, and the schema has
 * no pre-save hook, so a document is stored exactly as supplied.
 */
module UserModel {
  import opened Optional

  /** The fields handed to `new userModel(...)`; any of them may be `undefined`. */
  datatype UserInput = UserInput(
    firstName: Option<string>,
    lastName: Option<string>,
    email: Option<string>,
    password: Option<string>)

  /** A saved document. */
  datatype User = User(firstName: string, lastName: Option<string>, email: string, password: string)

  /** The user collection, indexed by the unique `email` path. */
  type Store = map<string, User>

  /** Why `save()` rejects a document. */
  datatype SaveError =
    | ValidationError(paths: seq<string>)   // required paths that are missing or empty, in schema order
    | DuplicateKey(email: string)           // the unique index on `email` already holds this value

  /** Result of `save()`: the stored document and the collection afterwards, or the rejection. */
  datatype SaveResult = Saved(user: User, store: Store) | Rejected(error: SaveError)

  /**
   * Mongoose's `required` check for a String path: present and not the empty
   * string. It is also JavaScript's truthiness of an optional string.
   */
  predicate Supplied(f: Option<string>)
  {
    f.Some? && |f.value| > 0
  }

  /** A document that passes schema validation. */
  predicate ValidUser(u: User)
  {
    |u.firstName| > 0 && |u.email| > 0 && |u.password| > 0
  }

  /** Every document is filed under its own email and passes validation; hence emails are unique. */
  predicate WellFormed(store: Store)
  {
    forall e | e in store :: store[e].email == e && ValidUser(store[e])
  }

  /** The required paths the input fails, in the order the schema declares them. */
  function MissingPaths(input: UserInput): (paths: seq<string>)
    ensures paths == [] <==> Supplied(input.firstName) && Supplied(input.email) && Supplied(input.password)
    ensures "firstName" in paths <==> !Supplied(input.firstName)
    ensures "email" in paths <==> !Supplied(input.email)
    ensures "password" in paths <==> !Supplied(input.password)
    ensures "lastName" !in paths
  {
    (if Supplied(input.firstName) then [] else ["firstName"])
    + (if Supplied(input.email) then [] else ["email"])
    + (if Supplied(input.password) then [] else ["password"])
  }

  /** `user.save()`: validate the document, then insert it under the unique email index. */
  function Save(store: Store, input: UserInput): (r: SaveResult)
    ensures r.Saved? ==> ValidUser(r.user)
    ensures r.Saved? ==> r.user.email !in store && r.store == store[r.user.email := r.user]
    ensures r.Saved? ==> (Some(r.user.firstName) == input.firstName && r.user.lastName == input.lastName
                          && Some(r.user.email) == input.email && Some(r.user.password) == input.password)
    ensures r.Rejected? <==> MissingPaths(input) != [] || input.email.value in store
    ensures r.Rejected? && r.error.ValidationError? ==> r.error.paths == MissingPaths(input)
  {
    var missing := MissingPaths(input);
    if missing != [] then
      Rejected(ValidationError(missing))
    else if input.email.value in store then
      Rejected(DuplicateKey(input.email.value))
    else
      var u := User(input.firstName.value, input.lastName, input.email.value, input.password.value);
      Saved(u, store[u.email := u])
  }

  /** Saving keeps the store well formed, so no two stored users ever share an email. */
  lemma SavePreservesWellFormed(store: Store, input: UserInput)
    requires WellFormed(store)
    ensures Save(store, input).Saved? ==> WellFormed(Save(store, input).store)
    ensures Save(store, input).Saved? ==>
      forall e1, e2 | e1 in Save(store, input).store && e2 in Save(store, input).store && e1 != e2 ::
        Save(store, input).store[e1].email != Save(store, input).store[e2].email
  {
  }

  /** A document missing any required path, or reusing a stored email, is never saved. */
  lemma RequiredPathsAndUniqueEmail(store: Store, input: UserInput)
    ensures !Supplied(input.firstName) ==> Save(store, input).Rejected?
    ensures !Supplied(input.email) ==> Save(store, input).Rejected?
    ensures !Supplied(input.password) ==> Save(store, input).Rejected?
    ensures input.email.Some? && input.email.value in store ==> Save(store, input).Rejected?
  {
  }

  /** `lastName` is optional: an otherwise complete, new document is saved without it. */
  lemma LastNameOptional(store: Store, first: string, email: string, password: string)
    requires |first| > 0 && |email| > 0 && |password| > 0 && email !in store
    ensures Save(store, UserInput(Some(first), None, Some(email), Some(password)))
            == Saved(User(first, None, email, password), store[email := User(first, None, email, password)])
  {
  }
}
