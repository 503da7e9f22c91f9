/**
 * backend/Services/AuthService.cs: registration with a confirmation e-mail,
 * login with a signed token, and e-mail confirmation, over the AuthRepository.
 */
module AuthService {
  import opened Wrappers
  import opened Entities
  import opened Linq
  import opened AuthRepository

  /** The service's `(Success, Message, Token, User)` tuple. */
  datatype AuthResult = AuthResult(success: bool, message: string, token: Option<string>, user: Option<User>)

  class AuthService {
    const authRepository: AuthRepository
    /** `JwtService.GenerateToken`: the signed access token issued for a user. */
    const generateToken: User -> string

    ghost predicate Valid()
      reads this, authRepository
    {
      authRepository.Valid()
    }

    constructor (authRepository: AuthRepository, generateToken: User -> string)
      ensures this.authRepository == authRepository && this.generateToken == generateToken
    {
      this.authRepository := authRepository;
      this.generateToken := generateToken;
    }

    /**
     * `RegisterAsync`: refuse a taken email before any write; otherwise insert
     * the user, make a confirmation token and send it. `emailSent` is what
     * the e-mail sender reports. A failed send is reported as a failure, but
     * the new user stays in the store.
     */
    method RegisterAsync(request: RegisterRequest, key: seq<byte>, newId: Guid, guid: seq<byte>, emailSent: bool)
      returns (r: AuthResult)
      requires Valid()
      requires authRepository.GetUserById(newId).None?  // Guid.NewGuid() does not collide
      requires |guid| == 16
      modifies authRepository
      ensures Valid()
      ensures old(authRepository.UserExists(request.email)) ==>
                r == AuthResult(false, "Email already exists", None, None)
                && authRepository.users == old(authRepository.users)
      ensures !old(authRepository.UserExists(request.email)) ==>
                && authRepository.users == old(authRepository.users) + [NewUser(authRepository.mac, request, key, newId)]
                && authRepository.UserExists(request.email)
                && authRepository.Login(request.email, request.password) == Some(NewUser(authRepository.mac, request, key, newId))
      ensures !old(authRepository.UserExists(request.email)) && !emailSent ==>
                r == AuthResult(false, "Registration successful but failed to send confirmation email. Please contact support.", None, None)
      ensures !old(authRepository.UserExists(request.email)) && emailSent ==>
                r == AuthResult(true, "Registration successful. Please check your email to confirm your account.",
                                None, Some(NewUser(authRepository.mac, request, key, newId)))
    {
      if authRepository.UserExists(request.email) {
        r := AuthResult(false, "Email already exists", None, None);
      } else {
        var registered := authRepository.Register(request, key, newId);
        var user := registered.value;
        var confirmationToken := authRepository.GenerateEmailConfirmationToken(user.id, guid);
        // The sender receives (user.email, user.id, confirmationToken.value); only its outcome is modelled.
        if emailSent {
          r := AuthResult(true, "Registration successful. Please check your email to confirm your account.", None, Some(user));
        } else {
          r := AuthResult(false, "Registration successful but failed to send confirmation email. Please contact support.", None, None);
        }
      }
    }

    /**
     * `LoginAsync`: the same failure whether the email is unknown or the
     * password is wrong; on success the matched user and a token issued for it.
     */
    method LoginAsync(request: LoginRequest) returns (r: AuthResult)
      requires Valid()
      ensures r.success <==> exists i :: 0 <= i < |authRepository.users|
                                          && authRepository.users[i].email == request.email
                                          && VerifyPasswordHash(authRepository.mac, request.password,
                                                                authRepository.users[i].passwordHash,
                                                                authRepository.users[i].passwordSalt)
      ensures !r.success ==> r == AuthResult(false, "Invalid email or password", None, None)
      ensures r.success ==> r.message == "Login successful"
                            && r.user.Some? && r.user.value in authRepository.users
                            && r.user.value.email == request.email
                            && r.token == Some(generateToken(r.user.value))
    {
      var user := authRepository.Login(request.email, request.password);
      if user.None? {
        return AuthResult(false, "Invalid email or password", None, None);
      }
      var token := generateToken(user.value);
      r := AuthResult(true, "Login successful", Some(token), user);
    }

    /** `GetUserByIdAsync`: the repository's lookup by id. */
    method GetUserByIdAsync(userId: Guid) returns (r: Option<User>)
      ensures r.Some? ==> r.value in authRepository.users && r.value.id == userId
      ensures r.None? <==> forall i :: 0 <= i < |authRepository.users| ==> authRepository.users[i].id != userId
    {
      r := authRepository.GetUserById(userId);
    }

    /** `UserExists`: the repository's email check. */
    method UserExists(email: string) returns (exists_: bool)
      ensures exists_ <==> exists i :: 0 <= i < |authRepository.users| && authRepository.users[i].email == email
    {
      exists_ := authRepository.UserExists(email);
    }

    /** `UpdateUserAsync`: the repository's update. */
    method UpdateUserAsync(user: User) returns (r: Result<bool, DbError>)
      requires Valid()
      modifies authRepository
      ensures Valid()
      ensures old(authRepository.GetUserById(user.id)).None? ==>
                r == Failure(ConcurrencyConflict) && authRepository.users == old(authRepository.users)
      ensures old(authRepository.GetUserById(user.id)).Some? ==>
                var i := IndexOf(old(authRepository.users), UserId, user.id).value;
                if old(authRepository.UserExists(user.email)) && old(authRepository.users)[i].email != user.email
                then r == Failure(UniqueIndexViolation) && authRepository.users == old(authRepository.users)
                else r == Success(true) && authRepository.users == old(authRepository.users)[i := user]
    {
      r := authRepository.UpdateUser(user);
    }

    /** `ConfirmEmailAsync`: exactly the repository's three outcomes. */
    method ConfirmEmailAsync(userId: Guid, token: string) returns (success: bool, message: string)
      requires Valid()
      modifies authRepository
      ensures Valid()
      ensures old(authRepository.GetUserById(userId)).None? ==>
                success == false && message == "User not found" && authRepository.users == old(authRepository.users)
      ensures old(authRepository.GetUserById(userId)).Some? && old(authRepository.GetUserById(userId)).value.emailConfirmed ==>
                success == false && message == "Email already confirmed" && authRepository.users == old(authRepository.users)
      ensures old(authRepository.GetUserById(userId)).Some? && !old(authRepository.GetUserById(userId)).value.emailConfirmed ==>
                && success == true && message == "Email confirmed successfully"
                && var i := IndexOf(old(authRepository.users), UserId, userId).value;
                   authRepository.users == old(authRepository.users)[i := old(authRepository.users)[i].(emailConfirmed := true)]
      ensures old(authRepository.GetUserById(userId)).Some? ==>
                authRepository.GetUserById(userId).Some? && authRepository.GetUserById(userId).value.emailConfirmed
    {
      success, message := authRepository.ConfirmEmail(userId, token);
    }
  }
}
