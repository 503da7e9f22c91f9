/**
 * backend/Controllers/ProfileController.cs: read and edit the signed-in
 * user's own profile. The signed-in user's id (`GetCurrentUserId`, the
 * NameIdentifier claim parsed as a Guid) is a parameter: None when the
 * request carries no such claim or it does not parse.
 */
module ProfileController {
  import opened Wrappers
  import opened Entities
  import opened Linq
  import opened AuthRepository
  import opened AuthService

  /** `UserProfileResponse`: the user as shown to its owner, without credentials. */
  datatype UserProfileResponse = UserProfileResponse(
    id: Guid, firstName: string, lastName: string, email: string, role: string, emailConfirmed: bool)

  /** The HTTP results the two actions produce, with their `message` bodies. */
  datatype ProfileResult =
    | Unauthorized(message: string)
    | NotFound(message: string)
    | BadRequest(message: string)
    | Ok(profile: UserProfileResponse)
    | ServerError(message: string)

  /** The `User -> UserProfileResponse` mapping: same-named members are copied. */
  function ToProfile(u: User): (p: UserProfileResponse)
    ensures p.id == u.id && p.email == u.email && p.role == u.role && p.emailConfirmed == u.emailConfirmed
    ensures p.firstName == u.firstName && p.lastName == u.lastName
  {
    UserProfileResponse(u.id, u.firstName, u.lastName, u.email, u.role, u.emailConfirmed)
  }

  /**
   * The edit `UpdateProfile` makes to the loaded user: both names are
   * overwritten; a different email replaces the old one and withdraws the
   * confirmation; id, credentials and role are kept.
   */
  function EditProfile(u: User, request: UpdateProfileRequest): (v: User)
    ensures v.firstName == request.firstName && v.lastName == request.lastName && v.email == request.email
    ensures v.emailConfirmed <==> u.emailConfirmed && request.email == u.email
    ensures v.id == u.id && v.role == u.role
    ensures v.passwordHash == u.passwordHash && v.passwordSalt == u.passwordSalt
  {
    var named := u.(firstName := request.firstName, lastName := request.lastName);
    if request.email != u.email then named.(email := request.email, emailConfirmed := false) else named
  }

  /** Editing the profile keeps the password: the same password still logs in, under the new email. */
  lemma EditKeepsPassword(mac: Mac, u: User, request: UpdateProfileRequest, password: string)
    ensures VerifyPasswordHash(mac, password, EditProfile(u, request).passwordHash, EditProfile(u, request).passwordSalt)
            <==> VerifyPasswordHash(mac, password, u.passwordHash, u.passwordSalt)
  {
  }

  /** Resubmitting the same form changes nothing more. */
  lemma EditIdempotent(u: User, request: UpdateProfileRequest)
    ensures EditProfile(EditProfile(u, request), request) == EditProfile(u, request)
  {
  }

  class ProfileController {
    const authService: AuthService

    ghost predicate Valid()
      reads this, authService, authService.authRepository
    {
      authService.Valid()
    }

    constructor (authService: AuthService)
      ensures this.authService == authService
    {
      this.authService := authService;
    }

    /** `GetProfile`: 401 without a signed-in user, 404 for an unknown id, otherwise the profile. */
    method GetProfile(currentUserId: Option<Guid>) returns (r: ProfileResult)
      requires Valid()
      ensures currentUserId.None? ==> r == Unauthorized("User not authenticated")
      ensures currentUserId.Some? && authService.authRepository.GetUserById(currentUserId.value).None? ==>
                r == NotFound("User not found")
      ensures currentUserId.Some? && authService.authRepository.GetUserById(currentUserId.value).Some? ==>
                r.Ok? && r.profile.id == currentUserId.value
                && exists i :: 0 <= i < |authService.authRepository.users|
                               && r == Ok(ToProfile(authService.authRepository.users[i]))
    {
      if currentUserId.None? {
        return Unauthorized("User not authenticated");
      }
      var user := authService.GetUserByIdAsync(currentUserId.value);
      if user.None? {
        return NotFound("User not found");
      }
      r := Ok(ToProfile(user.value));
    }

    /**
     * `UpdateProfile`: after the same two guards as GetProfile, a different
     * email that another user already has is refused before anything is
     * saved; otherwise the edited user replaces the stored row and the
     * stored row is returned. A save that throws would give the 500 result;
     * with the guards above no constraint can fail.
     */
    method UpdateProfile(currentUserId: Option<Guid>, request: UpdateProfileRequest) returns (r: ProfileResult)
      requires Valid()
      modifies authService.authRepository
      ensures Valid()
      ensures currentUserId.None? ==>
                r == Unauthorized("User not authenticated")
                && authService.authRepository.users == old(authService.authRepository.users)
      ensures currentUserId.Some? && old(authService.authRepository.GetUserById(currentUserId.value)).None? ==>
                r == NotFound("User not found")
                && authService.authRepository.users == old(authService.authRepository.users)
      ensures currentUserId.Some? && old(authService.authRepository.GetUserById(currentUserId.value)).Some? ==>
                var u := old(authService.authRepository.GetUserById(currentUserId.value)).value;
                var i := IndexOf(old(authService.authRepository.users), UserId, currentUserId.value).value;
                if request.email != u.email && old(authService.authRepository.UserExists(request.email))
                then r == BadRequest("Email is already taken")
                     && authService.authRepository.users == old(authService.authRepository.users)
                else r == Ok(ToProfile(EditProfile(u, request)))
                     && authService.authRepository.users == old(authService.authRepository.users)[i := EditProfile(u, request)]
                     && authService.authRepository.GetUserByEmail(request.email) == Some(EditProfile(u, request))
                     && (request.email != u.email ==> !authService.authRepository.UserExists(u.email))
    {
      if currentUserId.None? {
        return Unauthorized("User not authenticated");
      }
      var user := authService.GetUserByIdAsync(currentUserId.value);
      if user.None? {
        return NotFound("User not found");
      }
      var u := user.value;
      ghost var i := IndexOf(authService.authRepository.users, UserId, u.id).value;
      var edited := u.(firstName := request.firstName, lastName := request.lastName);
      if request.email != u.email {
        var taken := authService.UserExists(request.email);
        if taken {
          return BadRequest("Email is already taken");
        }
        edited := edited.(email := request.email, emailConfirmed := false);
      }
      assert edited == EditProfile(u, request);
      r := SaveProfile(u, edited, i);
    }

    /**
     * The second half of `UpdateProfile`: persist the edited user through
     * `UpdateUserAsync` and answer with the user fetched again by id. The
     * caller has made sure the edit keeps the id and takes no other user's email.
     */
    method SaveProfile(u: User, edited: User, ghost i: nat) returns (r: ProfileResult)
      requires Valid()
      requires i < |authService.authRepository.users| && authService.authRepository.users[i] == u
      requires edited.id == u.id
      requires edited.email != u.email ==> !authService.authRepository.UserExists(edited.email)
      modifies authService.authRepository
      ensures Valid()
      ensures r == Ok(ToProfile(edited))
      ensures authService.authRepository.users == old(authService.authRepository.users)[i := edited]
      ensures authService.authRepository.GetUserByEmail(edited.email) == Some(edited)
      ensures edited.email != u.email ==> !authService.authRepository.UserExists(u.email)
    {
      FirstOrDefaultUnique(authService.authRepository.users, UserId, i);
      var saved := authService.UpdateUserAsync(edited);
      if saved.Failure? {
        return ServerError("An error occurred while processing your request");
      }
      if !saved.value {
        return BadRequest("Failed to update profile");
      }
      EmailsAfterEdit(authService.authRepository.users, old(authService.authRepository.users), i, u, edited);
      var updated := authService.GetUserByIdAsync(u.id);
      FirstOrDefaultUnique(authService.authRepository.users, UserId, i);
      r := Ok(ToProfile(updated.value));
    }
  }

  /** After row i is replaced by its edit, the new email finds that row and the old email, if changed, is gone. */
  lemma EmailsAfterEdit(users: seq<User>, before: seq<User>, i: nat, u: User, v: User)
    requires i < |before| && before[i] == u && users == before[i := v]
    requires UsersValid(users) && UsersValid(before)
    ensures FirstOrDefault(users, UserEmail, v.email) == Some(v)
    ensures v.email != u.email ==> !Any(users, UserEmail, u.email)
  {
    FirstOrDefaultUnique(users, UserEmail, i);
  }
}
