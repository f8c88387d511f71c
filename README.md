# Contact management backend, modelled in Dafny

This is a model of the core of a Spring Boot service in which users keep private address
books. Users register with a unique email and a BCrypt-hashed password, and they authenticate
each request with a JWT bearer token. Every contact belongs to exactly one user. A user
lists, searches, updates and deletes only their own contacts. Create is the exception: a
request body that carries the id of a stored contact rewrites that contact and hands it to
the caller (see "## Findings"). Failures inside the services become JSON error bodies through
one central exception handler. The JWT filter's 401 does not go through that handler: the
filter writes its own fixed body.

The model is organised like the source:

- `ContactServices` (service/ContactService.java) is a class over two tables. Every operation
  first turns the caller's email into a user. Update and delete then check, in this order,
  that the contact exists and that the caller owns it.
- `UserServices` (service/UserService.java) and `LegacyUserServices` (services/UserService.java)
  hold registration, lookup by email and the password change.
- `PasswordEncoding` is the `BCryptPasswordEncoder` bean. The hash function, its check and the
  random salts are parameters. `Sound()` is what the model assumes of BCrypt: a digest is
  never empty, and `matches(p, encode(p))` holds; `CollisionFree()` is an extra hypothesis, used only where a lemma says so.
- `Repositories` are the Spring Data repositories as in-memory tables keyed by the IDENTITY id.
  `save` merges into the row the entity's id names (keeping the `updatable = false` column
  `createdAt`), and otherwise inserts under the next id.
- `JwtFiltering` (filter/JwtFilter.java) has a pure decision function `Decide` and the filter
  method `DoFilterInternal`. The method changes the security context, the response and the
  chain, and is proved to agree with `Decide`.
- `ExceptionHandling` (exception/GlobalExceptionHandler.java) maps each error kind to an HTTP
  status and an `ErrorResponseDto`.
- `ContactDtos`, `UserRegisterDtos`, `UserResponseDtos` and `UpdatePasswordDtos` (dto/) hold the
  mappings and the Jakarta Bean Validation constraints as predicates on nullable fields.
  `Patterns` holds the two regular expressions and `Constraints` the constraint annotations.

Java `null` is `None` throughout: `Str` is `Option<string>`. Exceptions are the `Failure`
datatype, carried in a `Result` or an `Outcome`. Spring Data's derived queries compare a null
argument with `IS NULL`, which is what equality on `Str` does.

## Model

| member | source | states |
|---|---|---|
| ContactServices.ContactService.Authorize | contact-management-backend/src/main/java/com/internship/contact_management_backend/service/ContactService.java:51-61 | The shared checks of delete (lines 53-61) and update (lines 69-78), in order. An unknown caller gives UsernameNotFound "Bad Credentials". A missing id gives ResourceNotFound "Contact not found : " followed by the id. A contact owned by someone else gives BadCredentials "Bad Credentials". The check succeeds exactly when all three pass, and then yields the stored contact. |
| ContactServices.ContactService.CreateContact | contact-management-backend/src/main/java/com/internship/contact_management_backend/service/ContactService.java:27-38 | As written. An unknown caller fails with "Bad Credentials" and leaves the table unchanged. Otherwise the table becomes `AfterCreate` of the old one: the contact, owned by the caller, is saved into the row its id names, or else under the next id. The saved row is returned. |
| ContactServices.ContactService.CreateContactFresh | contact-management-backend/src/main/java/com/internship/contact_management_backend/service/ContactService.java:27-38 | Corrected create. An unknown caller fails and changes nothing. Otherwise the contact is inserted under the next unused id with the caller as owner. Every stored row is unchanged, and the id counter advances by one. |
| ContactServices.ContactService.GetContactsByEmail | contact-management-backend/src/main/java/com/internship/contact_management_backend/service/ContactService.java:41-49 | An unknown caller fails with "Bad Credentials". Otherwise the result lists, once each and in id order, exactly the contacts whose owner is the caller, so it is empty when the caller has none. |
| ContactServices.ContactService.SearchContacts | contact-management-backend/src/main/java/com/internship/contact_management_backend/service/ContactService.java:93-101 | An unknown caller fails with "Bad Credentials". Otherwise the result lists exactly the caller's contacts whose first or last name contains the keyword (case-insensitively), with the keyword passed on unchanged. |
| ContactServices.ContactService.DeleteContact | contact-management-backend/src/main/java/com/internship/contact_management_backend/service/ContactService.java:51-65 | If a check fails, that check's error is returned and the table is unchanged. Otherwise exactly the row with that id is removed and every other row stays. |
| ContactServices.ContactService.UpdateContact | contact-management-backend/src/main/java/com/internship/contact_management_backend/service/ContactService.java:67-90 | If a check fails, that check's error is returned and the table is unchanged. Otherwise only that row changes: it takes the six fields of the update and keeps its id, owner, createdAt and updatedAt. The new row is returned. |
| ContactServices.Overwrite | contact-management-backend/src/main/java/com/internship/contact_management_backend/service/ContactService.java:80-85 | The six setters. First name, last name, email, email label, phone and phone label come from the update. Id, owner and both timestamps come from the stored contact. |
| ContactServices.SaveKey | contact-management-backend/src/main/java/com/internship/contact_management_backend/service/ContactService.java:35 | The row `save` writes. It picks an existing row exactly when the contact's id names one, and then it is that row. Otherwise it is the next IDENTITY value. |
| ContactServices.AfterCreate | contact-management-backend/src/main/java/com/internship/contact_management_backend/service/ContactService.java:33-35 | After `setUser` and `save`, the key set gains at most the chosen key. The chosen row is owned by the caller, carries its key as id and holds the posted fields. Every other row is unchanged. |
| ContactServices.NotFoundMessageNamesId | contact-management-backend/src/main/java/com/internship/contact_management_backend/service/ContactService.java:56-57 | The not-found message starts with "Contact not found : ", and the rest of it parses back to the id. |
| ContactServices.NotFoundMessagesDiffer | contact-management-backend/src/main/java/com/internship/contact_management_backend/service/ContactService.java:57 | Two different ids give two different not-found messages. |
| ContactServices.UnknownCallerIsServerError | contact-management-backend/src/main/java/com/internship/contact_management_backend/exception/GlobalExceptionHandler.java:95-109 | A caller whose email resolves to no user is answered with 500 and "Something went wrong", since UsernameNotFoundException has no handler of its own. |
| ContactServices.ForeignContactIsUnauthorized | contact-management-backend/src/main/java/com/internship/contact_management_backend/service/ContactService.java:59-61 | A caller touching another user's contact is answered with 401 and "Bad Credentials". |
| ContactServices.CreateContactTakesOverNamedRow | contact-management-backend/src/main/java/com/internship/contact_management_backend/service/ContactService.java:27-35 | As written, a create that carries the id of another user's contact rewrites that contact and transfers it to the caller. |
| ContactServices.CreateContactHijackExample | contact-management-backend/src/main/java/com/internship/contact_management_backend/controller/ContactController.java:20-29 | A concrete case. User 2 posts a body with id 1 and ends up owning user 1's contact 1, renamed. |
| ContactServices.CreateFreshKeepsStoredContacts | contact-management-backend/src/main/java/com/internship/contact_management_backend/service/ContactService.java:33-35 | With the id cleared, create adds exactly one row, owned by the caller, under a new key. Every stored contact is unchanged. |
| UserServices.RegisterUser | contact-management-backend/src/main/java/com/internship/contact_management_backend/service/UserService.java:22-36 | The shared register steps, stated by `Registered`. A taken email fails with "Email already exists" before anything is encoded or saved. A null password fails in `encode`. Otherwise the user is saved with `encode(password)` in place of the password, and the saved record is returned. It is findable by its email, a fresh user adds exactly one row, and (given `Sound()`) the digest matches the raw password. |
| UserServices.UserService.Register | contact-management-backend/src/main/java/com/internship/contact_management_backend/service/UserService.java:22-36 | The same contract, for the current service. |
| UserServices.UserService.FindByEmail | contact-management-backend/src/main/java/com/internship/contact_management_backend/service/UserService.java:38-40 | Something is returned exactly when a user has that email, and then it is that user's stored row. Emails are unique, so any row with the email is the one returned. |
| UserServices.UserService.UpdatePassword | contact-management-backend/src/main/java/com/internship/contact_management_backend/service/UserService.java:42-59 | Checks run in the source's order. A null new password gives a NullPointerException. A new password that differs from the confirmation gives "Passwords do not match". An unknown email gives a NullPointerException. A failure of `matches` is passed on. An old password that does not match gives "Old password is incorrect". Every failure leaves the table and the encoder untouched. On success only that user's password changes, to the next digest of the new password. The new password then matches (given `Sound()`), and a different old one no longer does (given `CollisionFree()`). |
| LegacyUserServices.UserService.Register | contact-management-backend/src/main/java/com/internship/contact_management_backend/services/UserService.java:22-35 | The older revision has the same contract. The uniqueness check comes before `encode`, and the saved record is returned. |
| PasswordEncoding.PasswordEncoder.Encode | contact-management-backend/src/main/java/com/internship/contact_management_backend/config/SecurityConfig.java:46-49 | A null password is refused with "rawPassword cannot be null" and draws no salt. Otherwise the result is the hash under the next salt, and exactly one salt is used. |
| PasswordEncoding.PasswordEncoder.Matches | contact-management-backend/src/main/java/com/internship/contact_management_backend/config/SecurityConfig.java:46-49 | A null raw password is an IllegalArgumentException. The result is true exactly when the digest is present and non-empty and BCrypt's check accepts it. |
| PasswordEncoding.DigestAcceptsItsPassword | contact-management-backend/src/main/java/com/internship/contact_management_backend/config/SecurityConfig.java:47-49 | Given `Sound()`, every digest matches the password it was made from. |
| PasswordEncoding.DigestRejectsOthers | contact-management-backend/src/test/java/com/internship/contact_management_backend/IntegrationTest/UserIntegrationTest.java:371-373 | Given `CollisionFree()`, a digest rejects every other password, so a replaced password stops working. |
| Repositories.UserRepository.FindByEmail | contact-management-backend/src/main/java/com/internship/contact_management_backend/repository/UserRepository.java:11 | A user is found exactly when one has the email (null included), and it is the stored row with that email. |
| Repositories.UserRepository.ExistsByEmail | contact-management-backend/src/main/java/com/internship/contact_management_backend/repository/UserRepository.java:14 | True exactly when the email, null included, is among the stored users' emails. |
| Repositories.UserRepository.Save | contact-management-backend/src/main/java/com/internship/contact_management_backend/repository/UserRepository.java:8 | Merge or insert. The table invariant is kept: ids are keys below the counter, and emails are unique. |
| Repositories.ContactRepository.Save | contact-management-backend/src/main/java/com/internship/contact_management_backend/repository/ContactRepository.java:7 | Merge or insert. The table invariant is kept: ids are keys below the counter, and every row has an owner. |
| Repositories.ContactRepository.Delete | contact-management-backend/src/main/java/com/internship/contact_management_backend/service/ContactService.java:63 | Exactly the row with the contact's id is removed. |
| Repositories.ContactRepository.FindContactById | contact-management-backend/src/main/java/com/internship/contact_management_backend/service/ContactService.java:56 | A contact is found exactly when the id is a key of the table. It is the stored row, with that id and an owner. |
| Repositories.ContactRepository.Select | contact-management-backend/src/main/java/com/internship/contact_management_backend/repository/ContactRepository.java:9 | A while loop over the ids yields exactly the rows the filter accepts, each once, in id order. |
| Repositories.ContactRepository.FindByUserId | contact-management-backend/src/main/java/com/internship/contact_management_backend/repository/ContactRepository.java:9 | Exactly the rows whose `user_id` is the given id, in id order. |
| Repositories.ContactRepository.SearchContacts | contact-management-backend/src/main/java/com/internship/contact_management_backend/service/ContactService.java:92-98 | Exactly the user's rows whose first or last name contains the keyword, ignoring ASCII case; a null keyword matches nothing. |
| Repositories.EmptyKeywordMatches | contact-management-backend/src/main/java/com/internship/contact_management_backend/service/ContactService.java:92-98 | The empty keyword matches every contact that has a first or last name. |
| JwtFiltering.BearerToken | contact-management-backend/src/main/java/com/internship/contact_management_backend/filter/JwtFilter.java:42-43 | A token exists exactly when the header is present and starts with "Bearer " (space included). The token is the header minus those 7 characters. |
| JwtFiltering.BearerTokenOfPrefixed | contact-management-backend/src/main/java/com/internship/contact_management_backend/filter/JwtFilter.java:42-43 | "Bearer " followed by t yields the token t. |
| JwtFiltering.Decide | contact-management-backend/src/main/java/com/internship/contact_management_backend/filter/JwtFilter.java:35-84 | Without a bearer header the request goes on unchanged. A 401 happens exactly when extraction throws, or when a subject must be looked up and the lookup fails. Authentication changes exactly when there is a subject, no existing authentication, a loaded user and a valid token, and then it is that user with null credentials and the user's authorities. An existing authentication is never replaced. |
| JwtFiltering.InvalidTokenIsNotRejected | contact-management-backend/src/main/java/com/internship/contact_management_backend/filter/JwtFilter.java:48-67 | A token that yields a known subject but fails `validateToken` lets the request continue unauthenticated, not with a 401. |
| JwtFiltering.JwtFilter.DoFilterInternal | contact-management-backend/src/main/java/com/internship/contact_management_backend/filter/JwtFilter.java:28-85 | The imperative filter, using the locals `jwt` and `email`. The security context ends as `Decide` says. On a 401 the response gets status 401, JSON content and the fixed body, and the chain is not invoked. On every other path the response is untouched and the chain is invoked exactly once. |
| JwtFiltering.JwtFilter.Unauthorized | contact-management-backend/src/main/java/com/internship/contact_management_backend/filter/JwtFilter.java:70-80 | Status 401, content type application/json, and the body with "Invalid or expired JWT token" appended. |
| ExceptionHandling.Handle | contact-management-backend/src/main/java/com/internship/contact_management_backend/exception/GlobalExceptionHandler.java:20-109 | The body's status always equals the HTTP status, its path is the request URI, and its timestamp is now. Validation errors give 400 "Validation Error" with the field messages joined by "; ". IllegalArgument gives 400 "Bad Request" and ResourceNotFound gives 404 "Not Found", both with the exception's message unchanged. BadCredentials gives 401 "Authentication Failed" with "Bad Credentials". Anything else gives 500 "Internal Server Error" with "Something went wrong". |
| ExceptionHandling.StatusIsOneOfFour | contact-management-backend/src/main/java/com/internship/contact_management_backend/exception/GlobalExceptionHandler.java:20-109 | Every response is 400, 401, 404 or 500. |
| ExceptionHandling.MessagesNotCopied | contact-management-backend/src/main/java/com/internship/contact_management_backend/exception/GlobalExceptionHandler.java:83-106 | The 401 and 500 responses do not depend on the exception's text. |
| ExceptionHandling.JoinAppend | contact-management-backend/src/main/java/com/internship/contact_management_backend/exception/GlobalExceptionHandler.java:26-30 | Joining two non-empty lists is each joined, separated by "; ". |
| ExceptionHandling.JoinLength | contact-management-backend/src/main/java/com/internship/contact_management_backend/exception/GlobalExceptionHandler.java:26-30 | The joined message's length is the total length of the messages plus two per separator. |
| ExceptionHandling.JoinContainsEach | contact-management-backend/src/main/java/com/internship/contact_management_backend/exception/GlobalExceptionHandler.java:26-30 | Every field message appears verbatim in the joined message, at its offset, in order. |
| ExceptionHandling.Join | contact-management-backend/src/main/java/com/internship/contact_management_backend/exception/GlobalExceptionHandler.java:26-30 | No messages join to "". Otherwise the joined message starts with the first message. |
| ContactDtos.ViolationsEmptyIffValid | contact-management-backend/src/main/java/com/internship/contact_management_backend/dto/ContactDto.java:18-43 | The message list is empty exactly when every constraint on the six fields holds. |
| ContactDtos.ValidMeans | contact-management-backend/src/main/java/com/internship/contact_management_backend/dto/ContactDto.java:18-43 | A valid body has all six fields present and not blank. Names are 3 to 50 characters, labels are 3 to 20, and the phone number is "+", a digit 1-9, then 1 to 14 digits (ITU-T E.164). |
| ContactDtos.FromToEntity | contact-management-backend/src/main/java/com/internship/contact_management_backend/dto/ContactDto.java:46-71 | `from(toEntity(d))` gives back `d`. |
| ContactDtos.ToEntityFrom | contact-management-backend/src/main/java/com/internship/contact_management_backend/dto/ContactDto.java:46-71 | `toEntity(from(c))` keeps c's id and six fields, has no owner and has fresh timestamps. |
| ContactDtos.ToEntity | contact-management-backend/src/main/java/com/internship/contact_management_backend/dto/ContactDto.java:46-58 | `toEntity` leaves the owner unset and stamps both timestamps with the given clock readings. Mapping the result back with `from` gives the body unchanged, so the id and the six fields are copied. |
| ContactDtos.From | contact-management-backend/src/main/java/com/internship/contact_management_backend/dto/ContactDto.java:61-71 | `from` copies the id and the six contact fields unchanged. |
| ContactDtos.Violations | contact-management-backend/src/main/java/com/internship/contact_management_backend/dto/ContactDto.java:18-43 | The messages of the constraints that fail, at most one per constraint (twelve). The list is empty exactly when the body is valid. |
| ContactDtos.Valid | contact-management-backend/src/main/java/com/internship/contact_management_backend/dto/ContactDto.java:18-43 | A valid body has all six fields present. Names have 3 to 50 characters, labels have 3 to 20, and the phone number matches the E.164 pattern. |
| Patterns.E164Characterization | contact-management-backend/src/main/java/com/internship/contact_management_backend/dto/ContactDto.java:35-38 | The phone pattern accepts exactly "+", a digit 1-9, then 1 to 14 digits. |
| Patterns.EmailCharacterization | contact-management-backend/src/main/java/com/internship/contact_management_backend/dto/UserRegisterDto.java:27 | The email pattern accepts exactly one or more of [A-Za-z0-9+_.-], then "@", then one or more of [A-Za-z0-9.-]. |
| Patterns.EmptyIsNotAnEmail | contact-management-backend/src/main/java/com/internship/contact_management_backend/dto/UserRegisterDto.java:27 | The email pattern rejects "". |
| Patterns.SamplePhoneAccepted | contact-management-backend/src/test/java/com/internship/contact_management_backend/IntegrationTest/ContactIntegrationTest.java:95 | "+923242650627" satisfies the phone pattern. |
| Patterns.PlainDigitsRejected | contact-management-backend/src/main/java/com/internship/contact_management_backend/dto/ContactDto.java:36 | Every string that does not start with "+" is rejected, the empty string and the fixture "1234567890" among them. |
| Constraints.NullOnlyFailsNotBlank | contact-management-backend/src/main/java/com/internship/contact_management_backend/dto/ContactDto.java:18-43 | Null fails `@NotBlank` and passes `@Size`, `@Pattern` and `@Email`. |
| Constraints.NotBlankIsNonEmpty | contact-management-backend/src/main/java/com/internship/contact_management_backend/dto/UpdatePasswordDto.java:10 | A value that passes `@NotBlank` is non-empty. |
| UserRegisterDtos.ViolationsEmptyIffValid | contact-management-backend/src/main/java/com/internship/contact_management_backend/dto/UserRegisterDto.java:14-33 | The message list is empty exactly when the five constraints hold. |
| UserRegisterDtos.AllNullPasses | contact-management-backend/src/main/java/com/internship/contact_management_backend/dto/UserRegisterDto.java:14-33 | A body of nulls passes, because no field is `@NotNull` or `@NotBlank`. |
| UserRegisterDtos.ValidMeans | contact-management-backend/src/main/java/com/internship/contact_management_backend/dto/UserRegisterDto.java:16-33 | In a valid body, each present name has 3 to 50 characters, a present email has the pattern's shape (so it is not ""), and a present password has at least 8 characters. |
| UserRegisterDtos.ToEntityCopies | contact-management-backend/src/main/java/com/internship/contact_management_backend/dto/UserRegisterDto.java:35-42 | The four fields are copied unchanged, the password is not hashed, and there is no id. |
| UserRegisterDtos.ToEntity | contact-management-backend/src/main/java/com/internship/contact_management_backend/dto/UserRegisterDto.java:35-42 | First name, last name, email and the raw password are copied unchanged. There is no id, and both timestamps are null. |
| UserRegisterDtos.Violations | contact-management-backend/src/main/java/com/internship/contact_management_backend/dto/UserRegisterDto.java:14-33 | The messages of the failing constraints, at most five. The list is empty exactly when the body is valid. |
| UserRegisterDtos.Valid | contact-management-backend/src/main/java/com/internship/contact_management_backend/dto/UserRegisterDto.java:14-33 | In a valid body, each present name has 3 to 50 characters, a present email matches the email pattern, and a present password has at least 8 characters. |
| UserResponseDtos.FromCopies | contact-management-backend/src/main/java/com/internship/contact_management_backend/dto/UserResponseDto.java:14-20 | First name, last name and email are copied exactly. |
| UserResponseDtos.FromIgnoresSecrets | contact-management-backend/src/main/java/com/internship/contact_management_backend/dto/UserResponseDto.java:9-20 | The response does not depend on the password hash, the id or the timestamps. |
| UserResponseDtos.From | contact-management-backend/src/main/java/com/internship/contact_management_backend/dto/UserResponseDto.java:14-20 | First name, last name and email are copied from the user. |
| UpdatePasswordDtos.ViolationsEmptyIffValid | contact-management-backend/src/main/java/com/internship/contact_management_backend/dto/UpdatePasswordDto.java:10-22 | The message list is empty exactly when all six constraints hold. |
| UpdatePasswordDtos.ValidMeans | contact-management-backend/src/main/java/com/internship/contact_management_backend/dto/UpdatePasswordDto.java:10-22 | Old, new and confirm are each present, not blank, and at least 8 characters. |
| UpdatePasswordDtos.ShortNewPasswordRejected | contact-management-backend/src/main/java/com/internship/contact_management_backend/dto/UpdatePasswordDto.java:15-17 | "short" as the new password is rejected. |
| UpdatePasswordDtos.MismatchPassesValidation | contact-management-backend/src/main/java/com/internship/contact_management_backend/dto/UpdatePasswordDto.java:8-23 | A body whose new and confirm passwords differ can still be valid. Only the service compares them. |
| UpdatePasswordDtos.Violations | contact-management-backend/src/main/java/com/internship/contact_management_backend/dto/UpdatePasswordDto.java:10-22 | The messages of the failing constraints, at most six. The list is empty exactly when the body is valid. |
| UpdatePasswordDtos.Valid | contact-management-backend/src/main/java/com/internship/contact_management_backend/dto/UpdatePasswordDto.java:10-22 | In a valid body, old, new and confirm password are each present and at least 8 characters long. |
| Decimal.LongRoundTrip | contact-management-backend/src/main/java/com/internship/contact_management_backend/service/ContactService.java:57 | `Long.toString` is decimal with an optional "-", and it parses back to the same value. |
| Decimal.LongToStringInjective | contact-management-backend/src/main/java/com/internship/contact_management_backend/service/ContactService.java:57 | Different ids print differently. |
| Decimal.LongToString | contact-management-backend/src/main/java/com/internship/contact_management_backend/service/ContactService.java:57 | `Long.toString`: a non-empty string with a leading "-" exactly for negative values and digits everywhere else. |

## Left out

- Controllers, `SecurityConfig`'s route rules and the login flow. Login calls a token generator
  with a signature `JwtUtil` does not have. The entities are used only as datatype shapes.
- JWT signing and parsing: `extractEmail` (which may throw or yield a null subject) and
  `validateToken` are parameters of the filter. `loadUserByUsername` is a parameter that may
  fail. `WebAuthenticationDetailsSource` details are not modelled.
- JwtFiltering.Decide: it assumes `validateToken` only returns. A runtime exception other than
  the two it catches would also end in the 401 of the catch block.
- Nothing in the filter's `SecurityContextHolder` is thread-local here: the context is one object.
- BCrypt itself: the digest and its check are parameters, and the random salt is a stream of
  values. `Sound()` assumes two things: a digest is never empty (an empty one matches nothing),
  and `matches(p, encode(p))` holds. The claim that an old password
  stops working needs the further hypothesis `CollisionFree()`, which no real hash guarantees.
- Clocks: `LocalDateTime.now()` readings enter as parameters (`ToEntity`, `Handle`).
- Logging is left out, and so are the response-writing details of headers other than the
  content type.
- Database column constraints (`nullable = false`, lengths) are left out. Only the unique
  email and the non-null owner are kept as table invariants. A save that would violate a column
  constraint is not rejected in the model.
- Repositories.ContactRepository.Save: on a merge the model returns the stored `createdAt`.
  Hibernate's merged instance carries the caller's value in memory, although the column keeps
  the stored one.
- ContactServices.ContactService.CreateContact: an id that names no row is inserted under a
  fresh id. Hibernate 6.6 and later reject such a merge instead.
- Repositories.ContactRepository.SearchContacts: repository/ContactRepository.java declares only
  `findByUserId`, so the queries behind `searchContacts` and `findContactById` are not part of
  this model's sources. The comment at ContactService.java:92 says only that the keyword is
  searched in the first or last name. Three rules are the model's own assumptions about the
  query: the keyword matches as a substring, ASCII case is ignored, and a null keyword
  matches nothing.
- List order: the queries have no ORDER BY. The model returns id order, which the database does
  not promise.
- String lengths count characters, not UTF-16 code units, and the email check behind `@Email`
  is a parameter.
- ContactDtos.Violations: the order of the messages is declaration order. Hibernate Validator
  promises no order.
- `updateContact` never refreshes `updatedAt`, and the model does not claim it does.
- Aliasing of the caller's entity: `setUser` and `setPassword` change the object the caller
  passed. The model works on the saved value.
- The check-then-insert race on email uniqueness is left out, since the model is sequential;
  so is the transaction rollback of the older `register`, since nothing fails after its `save`.
- Method arguments of type `Long` (`contactId`) are never null in the model. The framework
  fills them from the path.
- Where tests expect more than the code does, the model follows the code:
  - UserServiceTest.java:114 expects `register` with a null email to fail with "Email cannot be
    null or empty". The code has no such check, and existsByEmail(null) looks for a null email.
  - UserServiceTest.java:305 expects "New password cannot be empty". `updatePassword` has no such
    check.
  - UserIntegrationTest.java:146 expects 201 from registration. UserController.java:38 answers
    with `ResponseEntity.ok`, that is 200.
- Behaviour of the code that the model keeps as it is:
  - `updatePassword` for an unknown email fails with a NullPointerException, which the handler
    turns into a 500.
  - An unknown caller of a contact operation raises UsernameNotFoundException. It has no handler
    of its own, so it reaches the client as a 500.
- The ContactDto name messages say "3–100 characters", while the `@Size` limit they go
  with is 50. The model keeps both as written.

## Findings

| source | as written | input that shows it | evidently intended | confidence | as-written member | corrected member |
|---|---|---|---|---|---|---|
| contact-management-backend/src/main/java/com/internship/contact_management_backend/service/ContactService.java:33-35 | `createContact` saves the client's `ContactDto` id (copied by `toEntity`), and `save` merges into the row with that id | user 2 posts `{"id": 1, ...}` while contact 1 belongs to user 1 | creating a contact inserts a new row and leaves every stored contact, including other users' contacts, unchanged | likely; not executed | ContactServices.CreateContactTakesOverNamedRow | ContactServices.ContactService.CreateContactFresh |
