/** dto/UserRegisterDto.java: the registration body, its constraints and `toEntity`. */
module UserRegisterDtos {
  import opened Wrappers
  import opened Domain
  import opened Patterns
  import opened Constraints

  datatype UserRegisterDto = UserRegisterDto(firstName: Str, lastName: Str, email: Str, password: Str)

  /**
   * `toEntity`: a builder over the four fields. The id is unset and the password is the raw
   * one. Lombok's builder ignores the entity's `createdAt = LocalDateTime.now()` initializer
   * (it has no `@Builder.Default`), so both timestamps are null.
   */
  function ToEntity(d: UserRegisterDto): (r: User)
    ensures r.firstName == d.firstName && r.lastName == d.lastName
    ensures r.email == d.email && r.password == d.password
    ensures r.id.None? && r.createdAt.None? && r.updatedAt.None?
  {
    User(None, d.firstName, d.lastName, d.email, d.password, None, None)
  }

  function Violations(d: UserRegisterDto, isEmail: string -> bool): (r: seq<string>)
    ensures |r| <= 5
    ensures r == [] <==> Valid(d, isEmail)
  {
    Check(Size(d.firstName, 3, Some(50)), "First name must be between 3 till 50 characters") +
    Check(Size(d.lastName, 3, Some(50)), "Last name must be between 3 till 50 characters") +
    Check(Email(d.email, isEmail), "Email should be valid") +
    Check(Pattern(d.email, EmailPattern), "Email format is invalid") +
    Check(Size(d.password, 8, None), "Password must be at least 8 characters")
  }

  predicate Valid(d: UserRegisterDto, isEmail: string -> bool)
    ensures Valid(d, isEmail) ==>
      (d.firstName.Some? ==> 3 <= |d.firstName.value| <= 50) &&
      (d.lastName.Some? ==> 3 <= |d.lastName.value| <= 50) &&
      (d.email.Some? ==> FullMatch(EmailPattern, d.email.value)) &&
      (d.password.Some? ==> |d.password.value| >= 8)
  {
    Size(d.firstName, 3, Some(50)) && Size(d.lastName, 3, Some(50)) &&
    Email(d.email, isEmail) && Pattern(d.email, EmailPattern) &&
    Size(d.password, 8, None)
  }

  lemma ViolationsEmptyIffValid(d: UserRegisterDto, isEmail: string -> bool)
    ensures Violations(d, isEmail) == [] <==> Valid(d, isEmail)
  {
  }

  /** No field is `@NotNull`/`@NotBlank`: a body of nulls passes validation. */
  lemma AllNullPasses(isEmail: string -> bool)
    ensures Valid(UserRegisterDto(None, None, None, None), isEmail)
  {
  }

  /** What a valid body guarantees about each field that is present; "" is not an email. */
  lemma ValidMeans(d: UserRegisterDto, isEmail: string -> bool)
    requires Valid(d, isEmail)
    ensures d.firstName.Some? ==> 3 <= |d.firstName.value| <= 50
    ensures d.lastName.Some? ==> 3 <= |d.lastName.value| <= 50
    ensures d.email.Some? ==> IsEmailShape(d.email.value) && d.email.value != ""
    ensures d.password.Some? ==> |d.password.value| >= 8
  {
    if d.email.Some? {
      EmailCharacterization(d.email.value);
      EmptyIsNotAnEmail();
    }
  }

  /** `toEntity` copies the four fields unchanged and hashes nothing. */
  lemma ToEntityCopies(d: UserRegisterDto)
    ensures var u := ToEntity(d);
            u.firstName == d.firstName && u.lastName == d.lastName && u.email == d.email &&
            u.password == d.password && u.id.None?
  {
  }
}

/** dto/UserResponseDto.java: the public view of a user. */
module UserResponseDtos {
  import opened Domain

  /** It has no password, id or timestamp field. */
  datatype UserResponseDto = UserResponseDto(firstName: Str, lastName: Str, email: Str)

  function From(u: User): (r: UserResponseDto)
    ensures r.firstName == u.firstName && r.lastName == u.lastName && r.email == u.email
  {
    UserResponseDto(u.firstName, u.lastName, u.email)
  }

  /** The names and the email are copied exactly. */
  lemma FromCopies(u: User)
    ensures From(u).firstName == u.firstName && From(u).lastName == u.lastName && From(u).email == u.email
  {
  }

  /** The response does not depend on the password hash, the id or the timestamps. */
  lemma FromIgnoresSecrets(u: User, v: User)
    requires u.firstName == v.firstName && u.lastName == v.lastName && u.email == v.email
    ensures From(u) == From(v)
  {
  }
}

/** dto/UpdatePasswordDto.java: the password-change body, constraints only. */
module UpdatePasswordDtos {
  import opened Wrappers
  import opened Domain
  import opened Constraints

  datatype UpdatePasswordDto = UpdatePasswordDto(oldPassword: Str, newPassword: Str, confirmPassword: Str)

  function Violations(d: UpdatePasswordDto): (r: seq<string>)
    ensures |r| <= 6
    ensures r == [] <==> Valid(d)
  {
    Check(NotBlank(d.oldPassword), "Old password is required") +
    Check(Size(d.oldPassword, 8, None), "Password must be at least 8 characters") +
    Check(NotBlank(d.newPassword), "New password is required") +
    Check(Size(d.newPassword, 8, None), "Password must be at least 8 characters") +
    Check(NotBlank(d.confirmPassword), "Confirm password is required") +
    Check(Size(d.confirmPassword, 8, None), "Password must be at least 8 characters")
  }

  predicate Valid(d: UpdatePasswordDto)
    ensures Valid(d) ==>
      d.oldPassword.Some? && |d.oldPassword.value| >= 8 &&
      d.newPassword.Some? && |d.newPassword.value| >= 8 &&
      d.confirmPassword.Some? && |d.confirmPassword.value| >= 8
  {
    NotBlank(d.oldPassword) && Size(d.oldPassword, 8, None) &&
    NotBlank(d.newPassword) && Size(d.newPassword, 8, None) &&
    NotBlank(d.confirmPassword) && Size(d.confirmPassword, 8, None)
  }

  lemma ViolationsEmptyIffValid(d: UpdatePasswordDto)
    ensures Violations(d) == [] <==> Valid(d)
  {
  }

  /** Each of the three passwords is present, not blank and at least 8 characters. */
  lemma ValidMeans(d: UpdatePasswordDto)
    requires Valid(d)
    ensures d.oldPassword.Some? && !IsBlank(d.oldPassword.value) && |d.oldPassword.value| >= 8
    ensures d.newPassword.Some? && !IsBlank(d.newPassword.value) && |d.newPassword.value| >= 8
    ensures d.confirmPassword.Some? && !IsBlank(d.confirmPassword.value) && |d.confirmPassword.value| >= 8
  {
  }

  /** "short" as the new password is rejected. */
  lemma ShortNewPasswordRejected(oldPassword: Str, confirm: Str)
    ensures !Valid(UpdatePasswordDto(oldPassword, Some("short"), confirm))
  {
  }

  /** Validation does not compare the new and the confirmed password; only the service does. */
  lemma MismatchPassesValidation()
    ensures exists d :: Valid(d) && d.newPassword != d.confirmPassword
  {
    var d := UpdatePasswordDto(Some("oldPassword123"), Some("newPassword123"), Some("differentPassword123"));
    assert !IsBlank(d.oldPassword.value) by { assert d.oldPassword.value[0] > ' '; }
    assert !IsBlank(d.newPassword.value) by { assert d.newPassword.value[0] > ' '; }
    assert !IsBlank(d.confirmPassword.value) by { assert d.confirmPassword.value[0] > ' '; }
    assert Valid(d);
  }
}
