/**
 * backend/Repositories/AuthRepository.cs: the Users table, password hashing,
 * registration, login and e-mail confirmation.
 */
module AuthRepository {
  import opened Wrappers
  import opened Entities
  import opened Linq
  import Base64

  /**
   * HMAC-SHA512 (RFC 2104) under a key, over the UTF-8 bytes of a password.
   * Nothing is assumed of it except that it is a function: equal inputs give equal digests.
   */
  type Mac = (seq<byte>, string) -> seq<byte>

  /** `CreatePasswordHash`: the fresh HMAC instance's random key is the salt; the hash is the MAC of the password under it. */
  function CreatePasswordHash(mac: Mac, key: seq<byte>, password: string): (hashAndSalt: (seq<byte>, seq<byte>))
    ensures hashAndSalt.1 == key
    ensures hashAndSalt.0 == mac(hashAndSalt.1, password)
  {
    (mac(key, password), key)
  }

  /** `VerifyPasswordHash`: recompute the MAC under the stored salt and compare it with the stored hash. */
  function VerifyPasswordHash(mac: Mac, password: string, hash: seq<byte>, salt: seq<byte>): (ok: bool)
    ensures ok <==> (hash, salt) == CreatePasswordHash(mac, salt, password)
  {
    mac(salt, password) == hash
  }

  /**
   * A stored hash verifies the password it was made from, and another
   * password only if the MAC gives both the same digest under that salt.
   */
  lemma PasswordRoundTrip(mac: Mac, key: seq<byte>, password: string, other: string)
    ensures VerifyPasswordHash(mac, password, CreatePasswordHash(mac, key, password).0, CreatePasswordHash(mac, key, password).1)
    ensures VerifyPasswordHash(mac, other, CreatePasswordHash(mac, key, password).0, CreatePasswordHash(mac, key, password).1)
            <==> mac(key, other) == mac(key, password)
  {
  }

  /** The constraints the database keeps on Users: the primary key and the unique index on Email. */
  ghost predicate UsersValid(users: seq<User>)
  {
    KeysUnique(users, UserId) && KeysUnique(users, UserEmail)
  }

  /**
   * The row `Register` builds from a request, the random HMAC key and the
   * new Guid: the request's email and names, the password hashed under the
   * key, the default role, not yet confirmed.
   */
  function NewUser(mac: Mac, request: RegisterRequest, key: seq<byte>, newId: Guid): (u: User)
    ensures u.id == newId && u.email == request.email
    ensures u.firstName == request.firstName && u.lastName == request.lastName
    ensures VerifyPasswordHash(mac, request.password, u.passwordHash, u.passwordSalt)
    ensures u.role == DefaultRole && !u.emailConfirmed
  {
    var (hash, salt) := CreatePasswordHash(mac, key, request.password);
    User(newId, request.email, request.firstName, request.lastName, hash, salt, DefaultRole, false)
  }

  class AuthRepository {
    var users: seq<User>
    const mac: Mac

    ghost predicate Valid()
      reads this
    {
      UsersValid(users)
    }

    constructor (mac: Mac)
      ensures Valid() && users == [] && this.mac == mac
    {
      this.mac := mac;
      users := [];
    }

    /** `GetUserByEmailAsync`: the user with that exact email, or null. */
    function GetUserByEmail(email: string): (r: Option<User>)
      reads this
      ensures r.Some? ==> r.value in users && r.value.email == email
      ensures r.None? <==> forall i :: 0 <= i < |users| ==> users[i].email != email
    {
      FirstOrDefault(users, UserEmail, email)
    }

    /** `GetUserByIdAsync`: the user with that primary key, or null. */
    function GetUserById(userId: Guid): (r: Option<User>)
      reads this
      ensures r.Some? ==> r.value in users && r.value.id == userId
      ensures r.None? <==> forall i :: 0 <= i < |users| ==> users[i].id != userId
    {
      FirstOrDefault(users, UserId, userId)
    }

    /** `UserExists`: some user has exactly this email. */
    predicate UserExists(email: string)
      reads this
      ensures UserExists(email) <==> GetUserByEmail(email).Some?
    {
      Any(users, UserEmail, email)
    }

    /** `CreateUserAsync`: insert the given row; the database rejects a reused id or a taken email. */
    method CreateUser(user: User) returns (r: Result<User, DbError>)
      requires Valid()
      modifies this
      ensures Valid()
      ensures old(GetUserById(user.id)).Some? ==> r == Failure(DuplicateKey) && users == old(users)
      ensures old(GetUserById(user.id)).None? && old(UserExists(user.email)) ==>
                r == Failure(UniqueIndexViolation) && users == old(users)
      ensures old(GetUserById(user.id)).None? && !old(UserExists(user.email)) ==>
                r == Success(user) && users == old(users) + [user]
    {
      if Any(users, UserId, user.id) {
        r := Failure(DuplicateKey);
      } else if Any(users, UserEmail, user.email) {
        r := Failure(UniqueIndexViolation);
      } else {
        KeysUniqueAppend(users, UserId, user);
        KeysUniqueAppend(users, UserEmail, user);
        users := users + [user];
        r := Success(user);
      }
    }

    /**
     * `UpdateUserAsync`: overwrite the row with the user's id. `SaveChangesAsync`
     * throws when the row is gone or the new email is another user's.
     */
    method UpdateUser(user: User) returns (r: Result<bool, DbError>)
      requires Valid()
      modifies this
      ensures Valid()
      ensures old(GetUserById(user.id)).None? ==> r == Failure(ConcurrencyConflict) && users == old(users)
      ensures old(GetUserById(user.id)).Some? ==>
                var i := IndexOf(old(users), UserId, user.id).value;
                if old(UserExists(user.email)) && old(users)[i].email != user.email
                then r == Failure(UniqueIndexViolation) && users == old(users)
                else r == Success(true) && users == old(users)[i := user]
    {
      var found := IndexOf(users, UserId, user.id);
      if found.None? {
        r := Failure(ConcurrencyConflict);
      } else {
        var i := found.value;
        if Any(users, UserEmail, user.email) && users[i].email != user.email {
          r := Failure(UniqueIndexViolation);
        } else {
          KeysUniqueReplace(users, UserId, i, user);
          KeysUniqueReplace(users, UserEmail, i, user);
          users := users[i := user];
          r := Success(true);
        }
      }
    }

    /** `DeleteUserAsync`: false and no change for an unknown id; otherwise exactly that row is removed. */
    method DeleteUser(userId: Guid) returns (deleted: bool)
      requires Valid()
      modifies this
      ensures Valid()
      ensures deleted <==> old(GetUserById(userId)).Some?
      ensures !deleted ==> users == old(users)
      ensures deleted ==> var i := IndexOf(old(users), UserId, userId).value;
                          users == old(users)[..i] + old(users)[i + 1..]
      ensures GetUserById(userId).None?
    {
      var found := IndexOf(users, UserId, userId);
      if found.None? {
        deleted := false;
      } else {
        var i := found.value;
        KeysUniqueRemove(users, UserId, i);
        KeysUniqueRemove(users, UserEmail, i);
        users := users[..i] + users[i + 1..];
        deleted := true;
      }
    }

    /**
     * `Register`: hash the password under a fresh key, then insert a new
     * unconfirmed user with the default role. The unique index on Email makes
     * the insert fail when the email is taken.
     */
    method Register(request: RegisterRequest, key: seq<byte>, newId: Guid) returns (r: Result<User, DbError>)
      requires Valid()
      requires GetUserById(newId).None?  // Guid.NewGuid() does not collide
      modifies this
      ensures Valid()
      ensures old(UserExists(request.email)) ==> r == Failure(UniqueIndexViolation) && users == old(users)
      ensures !old(UserExists(request.email)) ==>
                && r == Success(NewUser(mac, request, key, newId))
                && users == old(users) + [NewUser(mac, request, key, newId)]
                && UserExists(request.email)
                && Login(request.email, request.password) == Some(NewUser(mac, request, key, newId))
    {
      var user := NewUser(mac, request, key, newId);
      r := CreateUser(user);
      if r.Success? {
        FirstOrDefaultUnique(users, UserEmail, |users| - 1);
      }
    }

    /**
     * `Login`: the user with that email whose stored hash the password
     * verifies, or null. An unknown email and a wrong password look the same.
     */
    function Login(email: string, password: string): (r: Option<User>)
      requires Valid()
      reads this
      ensures r.Some? ==> r.value in users && r.value.email == email
      ensures r.Some? <==> exists i :: 0 <= i < |users| && users[i].email == email
                                       && VerifyPasswordHash(mac, password, users[i].passwordHash, users[i].passwordSalt)
    {
      match GetUserByEmail(email)
      case None => None
      case Some(user) =>
        if !VerifyPasswordHash(mac, password, user.passwordHash, user.passwordSalt) then None else Some(user)
    }

    /**
     * `ConfirmEmail`: "User not found" for an unknown id, "Email already
     * confirmed" for a confirmed user, otherwise set that user's
     * EmailConfirmed flag and nothing else. The token is never inspected.
     */
    method ConfirmEmail(userId: Guid, token: string) returns (success: bool, message: string)
      requires Valid()
      modifies this
      ensures Valid()
      ensures old(GetUserById(userId)).None? ==>
                success == false && message == "User not found" && users == old(users)
      ensures old(GetUserById(userId)).Some? && old(GetUserById(userId)).value.emailConfirmed ==>
                success == false && message == "Email already confirmed" && users == old(users)
      ensures old(GetUserById(userId)).Some? && !old(GetUserById(userId)).value.emailConfirmed ==>
                && success == true && message == "Email confirmed successfully"
                && var i := IndexOf(old(users), UserId, userId).value;
                   users == old(users)[i := old(users)[i].(emailConfirmed := true)]
      ensures old(GetUserById(userId)).Some? ==> GetUserById(userId).Some? && GetUserById(userId).value.emailConfirmed
    {
      var found := IndexOf(users, UserId, userId);
      if found.None? {
        return false, "User not found";
      }
      var i := found.value;
      if users[i].emailConfirmed {
        return false, "Email already confirmed";
      }
      var confirmed := users[i].(emailConfirmed := true);
      KeysUniqueReplace(users, UserId, i, confirmed);
      KeysUniqueReplace(users, UserEmail, i, confirmed);
      users := users[i := confirmed];
      FirstOrDefaultUnique(users, UserId, i);
      success, message := true, "Email confirmed successfully";
    }

    /**
     * `GenerateEmailConfirmationTokenAsync`: throws "User not found" for an
     * unknown id; otherwise the base 64 text of a new Guid's 16 bytes, 24
     * characters long. `guid` is that random Guid's byte array.
     */
    method GenerateEmailConfirmationToken(userId: Guid, guid: seq<byte>) returns (r: Result<string, string>)
      requires |guid| == 16
      ensures r.Failure? <==> GetUserById(userId).None?
      ensures r.Failure? ==> r.error == "User not found"
      ensures r.Success? ==> r.value == Base64.Encode(guid)
      ensures r.Success? ==> |r.value| == 24 && Base64.Decode(r.value) == Some(guid)
    {
      if GetUserById(userId).None? {
        return Failure("User not found");
      }
      var token := Base64.Encode(guid);
      Base64.SixteenBytes(guid);
      r := Success(token);
    }
  }
}
