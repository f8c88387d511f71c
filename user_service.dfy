/**
 * service/UserService.java and its older revision services/UserService.java: registration
 * with a unique email and a hashed password, lookup by email, and the password change.
 */
module UserServices {
  import opened Wrappers
  import opened Domain
  import opened Repositories
  import opened PasswordEncoding
  import opened UpdatePasswordDtos

  const EMAIL_EXISTS: string := "Email already exists"
  const PASSWORDS_DIFFER: string := "Passwords do not match"
  const OLD_PASSWORD_WRONG: string := "Old password is incorrect"

  /**
   * What `register(user)` does to the two beans: a taken email (null included, since the
   * derived query compares with `IS NULL`) and a null password are refused before anything
   * is written; otherwise the user is saved with the next digest in place of the password.
   */
  twostate predicate Registered(users: UserRepository, encoder: PasswordEncoder, user: User, new r: Result<User, Failure>)
    reads users, encoder
  {
    if old(users.ExistsByEmail(user.email)) then
      r == Failure(IllegalArgument(Some(EMAIL_EXISTS))) &&
      users.rows == old(users.rows) && users.nextId == old(users.nextId) && encoder.draws == old(encoder.draws)
    else if user.password.None? then
      r == Failure(IllegalArgument(Some(NULL_RAW_PASSWORD))) &&
      users.rows == old(users.rows) && users.nextId == old(users.nextId) && encoder.draws == old(encoder.draws)
    else
      var stored := user.(password := Some(old(encoder.NextDigest(user.password.value))));
      encoder.draws == old(encoder.draws) + 1 &&
      if old(users.IsMerge(user)) then
        r == Success(stored.(createdAt := old(users.rows)[user.id.value].createdAt)) &&
        users.rows == old(users.rows)[user.id.value := r.value] && users.nextId == old(users.nextId)
      else
        r == Success(stored.(id := Some(old(users.nextId)))) &&
        users.rows == old(users.rows)[old(users.nextId) := r.value] && users.nextId == old(users.nextId) + 1
  }

  /** The body both revisions of `register` share. */
  method RegisterUser(users: UserRepository, encoder: PasswordEncoder, user: User) returns (r: Result<User, Failure>)
    requires users.Valid()
    modifies users, encoder
    ensures users.Valid()
    ensures Registered(users, encoder, user, r)
    ensures r.Success? && encoder.Sound() ==> encoder.Matches(user.password, r.value.password) == Success(true)
    ensures r.Success? ==> users.FindByEmail(user.email) == Some(r.value)
    ensures r.Success? && !old(users.IsMerge(user)) ==> |users.rows| == |old(users.rows)| + 1
  {
    if users.ExistsByEmail(user.email) {
      return Failure(IllegalArgument(Some(EMAIL_EXISTS)));
    }
    var digest := encoder.Encode(user.password);
    if digest.Failure? {
      return Failure(digest.error);
    }
    var saved := users.Save(user.(password := Some(digest.value)));
    assert saved.id.value in users.rows && users.rows[saved.id.value] == saved;
    r := Success(saved);
  }

  class UserService {
    const users: UserRepository
    const encoder: PasswordEncoder

    constructor (users: UserRepository, encoder: PasswordEncoder)
      requires users.Valid()
      ensures this.users == users && this.encoder == encoder
      ensures users.Valid()
    {
      this.users := users;
      this.encoder := encoder;
    }

    /** `register(user)`. */
    method Register(user: User) returns (r: Result<User, Failure>)
      requires users.Valid()
      modifies users, encoder
      ensures users.Valid()
      ensures Registered(users, encoder, user, r)
      ensures r.Success? && encoder.Sound() ==> encoder.Matches(user.password, r.value.password) == Success(true)
      ensures r.Success? ==> FindByEmail(user.email) == Some(r.value)
      ensures r.Success? && !old(users.IsMerge(user)) ==> |users.rows| == |old(users.rows)| + 1
    {
      r := RegisterUser(users, encoder, user);
    }

    /** `findByEmail(email)`: the one user with that email, or null. */
    function FindByEmail(email: Str): (r: Option<User>)
      reads users
      requires users.Valid()
      ensures r.Some? <==> users.ExistsByEmail(email)
      ensures r.Some? ==>
        r.value.email == email && r.value.id.Some? &&
        r.value.id.value in users.rows && users.rows[r.value.id.value] == r.value
      ensures forall k :: k in users.rows && users.rows[k].email == email ==> r == Some(users.rows[k])
    {
      users.FindByEmail(email)
    }

    /**
     * `updatePassword(email, dto)`. The checks run in the source's order: a null new
     * password fails `equals` with a NullPointerException, a differing confirmation is
     * refused, an unknown email fails on the null user, and the old password must match the
     * stored digest. Only then is the user's row saved with a fresh digest.
     */
    method UpdatePassword(email: Str, dto: UpdatePasswordDto) returns (r: Outcome<Failure>)
      requires users.Valid()
      modifies users, encoder
      ensures users.Valid()
      ensures r.Fail? ==>
        users.rows == old(users.rows) && users.nextId == old(users.nextId) && encoder.draws == old(encoder.draws)
      ensures dto.newPassword.None? ==> r == Fail(NullPointer)
      ensures dto.newPassword.Some? && dto.newPassword != dto.confirmPassword ==>
        r == Fail(IllegalArgument(Some(PASSWORDS_DIFFER)))
      ensures dto.newPassword.Some? && dto.newPassword == dto.confirmPassword ==>
        match old(FindByEmail(email))
        case None => r == Fail(NullPointer)
        case Some(u) =>
          match encoder.Matches(dto.oldPassword, u.password)
          case Failure(e) => r == Fail(e)
          case Success(ok) =>
            if !ok then r == Fail(IllegalArgument(Some(OLD_PASSWORD_WRONG)))
            else
              r == Pass && encoder.draws == old(encoder.draws) + 1 && users.nextId == old(users.nextId) &&
              users.rows == old(users.rows)[u.id.value := u.(password := Some(old(encoder.NextDigest(dto.newPassword.value))))]
      ensures r.Pass? && encoder.Sound() ==>
        FindByEmail(email).Some? && encoder.Matches(dto.newPassword, FindByEmail(email).value.password) == Success(true)
      ensures r.Pass? && encoder.CollisionFree() && dto.oldPassword != dto.newPassword ==>
        FindByEmail(email).Some? && encoder.Matches(dto.oldPassword, FindByEmail(email).value.password) == Success(false)
    {
      if dto.newPassword.None? {
        return Fail(NullPointer);
      }
      if dto.newPassword != dto.confirmPassword {
        return Fail(IllegalArgument(Some(PASSWORDS_DIFFER)));
      }
      var user := FindByEmail(email);
      if user.None? {
        return Fail(NullPointer);
      }
      var u := user.value;
      var matched := encoder.Matches(dto.oldPassword, u.password);
      if matched.Failure? {
        return Fail(matched.error);
      }
      if !matched.value {
        return Fail(IllegalArgument(Some(OLD_PASSWORD_WRONG)));
      }
      var digest := encoder.Encode(dto.newPassword);
      var changed := u.(password := Some(digest.value));
      var _ := users.Save(changed);
      r := Pass;
    }
  }
}

/** services/UserService.java: the earlier revision, which only registers users. */
module LegacyUserServices {
  import opened Wrappers
  import opened Domain
  import opened Repositories
  import opened PasswordEncoding
  import opened UserServices

  class UserService {
    const users: UserRepository
    const encoder: PasswordEncoder

    constructor (users: UserRepository, encoder: PasswordEncoder)
      requires users.Valid()
      ensures this.users == users && this.encoder == encoder
      ensures users.Valid()
    {
      this.users := users;
      this.encoder := encoder;
    }

    /** `register(user)`, `@Transactional`; with nothing failing after `save`, the same effect. */
    method Register(user: User) returns (r: Result<User, Failure>)
      requires users.Valid()
      modifies users, encoder
      ensures users.Valid()
      ensures Registered(users, encoder, user, r)
      ensures r.Success? && encoder.Sound() ==> encoder.Matches(user.password, r.value.password) == Success(true)
      ensures r.Success? ==> users.FindByEmail(user.email) == Some(r.value)
      ensures r.Success? && !old(users.IsMerge(user)) ==> |users.rows| == |old(users.rows)| + 1
    {
      r := RegisterUser(users, encoder, user);
    }
  }
}
