/** The uniform reply envelope of the API (api/src/dtos/apiResponse.ts). */
module ApiResponses {
  import opened UserModel

  /** What the `data` field carries. */
  datatype Payload =
    | NoData                      // `null`
    | ExistingUser(email: string) // the handle `exists` returns for a stored user
    | SavedUser(user: User)       // the document `save()` stored
    | SaveFailure(error: SaveError)

  datatype ApiResponse = ApiResponse(statusCode: int, success: bool, message: string, data: Payload)

  /** `success` is set exactly for the 2xx codes the service uses. */
  predicate Consistent(r: ApiResponse)
  {
    r.success <==> (r.statusCode == 200 || r.statusCode == 201)
  }
}
