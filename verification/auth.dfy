/**
 Resolution of the authenticated caller. Signature checking of the bearer
 token is outside the model: a token is given as either undecodable or as
 the `user_id` claim it carries.
 */
module Auth {
  import opened Wrappers
  import opened Models
  import opened Collections

  /** A bearer token after signature verification and decoding. */
  datatype Token = Undecodable | Decoded(userIdClaim: Option<string>)

  /** The user a token designates, or a 401 error. */
  function CurrentUser(store: Store, token: Token): (r: Result<User, HttpError>)
    ensures r.Ok? <==>
      && token.Decoded? && token.userIdClaim.Some? && token.userIdClaim.value != ""
      && exists i :: 0 <= i < |store.users| && store.users[i].id == token.userIdClaim.value
    ensures r.Ok? ==> r.value in store.users && r.value.id == token.userIdClaim.value
    ensures r.Err? && token.Decoded? && token.userIdClaim.Some? && token.userIdClaim.value != ""
      ==> r.error == UserNotFound
    ensures r.Err? && !(token.Decoded? && token.userIdClaim.Some? && token.userIdClaim.value != "")
      ==> r.error == InvalidToken
  {
    match token
    case Undecodable => Err(InvalidToken)
    case Decoded(claim) =>
      if claim.None? || claim.value == "" then Err(InvalidToken)
      else
        match FirstIndexOf(store.users, UserId, claim.value)
        case None => Err(UserNotFound)
        case Some(i) => Ok(store.users[i])
  }
}
