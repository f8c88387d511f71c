/**
 * The entities of the contact-management backend (entity/User.java, entity/Contact.java)
 * and the exceptions the core throws.
 */
module Domain {
  import opened Wrappers

  /** A Java `String` field or parameter, which may be null. */
  type Str = Option<string>

  /** A reading of the clock (`LocalDateTime.now()`); the model takes these as parameters. */
  type Time = int

  /** Java `long`: 64-bit two's complement. */
  type Long = x: int | -0x8000_0000_0000_0000 <= x < 0x8000_0000_0000_0000

  /** entity/User.java: a row of the `users` table. */
  datatype User = User(
    id: Option<int>,
    firstName: Str,
    lastName: Str,
    email: Str,
    password: Str,
    createdAt: Option<Time>,
    updatedAt: Option<Time>)

  /**
   * entity/Contact.java: a row of the `contacts` table. The `@ManyToOne User user`
   * reference is represented by the owning user's id.
   */
  datatype Contact = Contact(
    id: Option<int>,
    firstName: Str,
    lastName: Str,
    email: Str,
    emailLabel: Str,
    phoneNumber: Str,
    phoneNumberLabel: Str,
    owner: Option<int>,
    createdAt: Option<Time>,
    updatedAt: Option<Time>)

  /**
   * The exceptions that reach the central exception handler, each with its message
   * (`getMessage()`, which may be null).
   */
  datatype Failure =
    | MethodArgumentNotValid(fieldMessages: seq<string>)  // bean validation of a request body
    | IllegalArgument(message: Str)
    | ResourceNotFound(message: Str)
    | BadCredentials(message: Str)
    | UsernameNotFound(message: Str)
    | NullPointer
    | Unexpected(message: Str)                           // any other exception

  /** The text both services use for an unresolvable caller and a foreign contact. */
  const BAD_CREDENTIALS: string := "Bad Credentials"
}
