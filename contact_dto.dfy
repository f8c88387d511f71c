/** dto/ContactDto.java: the request/response body of a contact, its constraints and its mappings. */
module ContactDtos {
  import opened Wrappers
  import opened Domain
  import opened Patterns
  import opened Constraints

  datatype ContactDto = ContactDto(
    id: Option<int>,
    firstName: Str,
    lastName: Str,
    email: Str,
    emailLabel: Str,
    phoneNumber: Str,
    phoneNumberLabel: Str)

  /** `toEntity`: copies the id and the six fields; both timestamps are separate clock readings; no owner. */
  function ToEntity(d: ContactDto, createdAt: Time, updatedAt: Time): (r: Contact)
    ensures From(r) == d
    ensures r.owner.None? && r.createdAt == Some(createdAt) && r.updatedAt == Some(updatedAt)
  {
    Contact(d.id, d.firstName, d.lastName, d.email, d.emailLabel, d.phoneNumber, d.phoneNumberLabel,
            None, Some(createdAt), Some(updatedAt))
  }

  /** `from`: the entity's id and six fields. */
  function From(c: Contact): (r: ContactDto)
    ensures r.id == c.id && r.firstName == c.firstName && r.lastName == c.lastName
    ensures r.email == c.email && r.emailLabel == c.emailLabel
    ensures r.phoneNumber == c.phoneNumber && r.phoneNumberLabel == c.phoneNumberLabel
  {
    ContactDto(c.id, c.firstName, c.lastName, c.email, c.emailLabel, c.phoneNumber, c.phoneNumberLabel)
  }

  /**
   * The violated constraints' messages, field by field in declaration order (Hibernate
   * Validator does not promise an order; this one is the model's choice).
   */
  function Violations(d: ContactDto, isEmail: string -> bool): (r: seq<string>)
    ensures |r| <= 12
    ensures r == [] <==> Valid(d, isEmail)
  {
    Check(NotBlank(d.firstName), "First name is required") +
    Check(Size(d.firstName, 3, Some(50)), "First name must be 3–100 characters") +
    Check(NotBlank(d.lastName), "Last name is required") +
    Check(Size(d.lastName, 3, Some(50)), "Last name must be 3–100 characters") +
    Check(NotBlank(d.email), "Email is required") +
    Check(Email(d.email, isEmail), "Email must be valid") +
    Check(NotBlank(d.emailLabel), "Email label is required") +
    Check(Size(d.emailLabel, 3, Some(20)), "Email label must be 3–20 characters") +
    Check(NotBlank(d.phoneNumber), "Phone number is required") +
    Check(Pattern(d.phoneNumber, E164), "Phone number must be in international format (E.164)") +
    Check(NotBlank(d.phoneNumberLabel), "Phone number label is required") +
    Check(Size(d.phoneNumberLabel, 3, Some(20)), "Phone label must be 3–20 characters")
  }

  /** Every constraint on the six fields holds. */
  predicate Valid(d: ContactDto, isEmail: string -> bool)
    ensures Valid(d, isEmail) ==>
      d.firstName.Some? && d.lastName.Some? && d.email.Some? &&
      d.emailLabel.Some? && d.phoneNumber.Some? && d.phoneNumberLabel.Some? &&
      3 <= |d.firstName.value| <= 50 && 3 <= |d.lastName.value| <= 50 &&
      3 <= |d.emailLabel.value| <= 20 && 3 <= |d.phoneNumberLabel.value| <= 20 &&
      FullMatch(E164, d.phoneNumber.value)
  {
    NotBlank(d.firstName) && Size(d.firstName, 3, Some(50)) &&
    NotBlank(d.lastName) && Size(d.lastName, 3, Some(50)) &&
    NotBlank(d.email) && Email(d.email, isEmail) &&
    NotBlank(d.emailLabel) && Size(d.emailLabel, 3, Some(20)) &&
    NotBlank(d.phoneNumber) && Pattern(d.phoneNumber, E164) &&
    NotBlank(d.phoneNumberLabel) && Size(d.phoneNumberLabel, 3, Some(20))
  }

  /** The request is rejected (a non-empty message list) exactly when some constraint fails. */
  lemma ViolationsEmptyIffValid(d: ContactDto, isEmail: string -> bool)
    ensures Violations(d, isEmail) == [] <==> Valid(d, isEmail)
  {
  }

  /** What a valid body guarantees: all six fields present and non-blank, the lengths, an E.164 phone number. */
  lemma ValidMeans(d: ContactDto, isEmail: string -> bool)
    requires Valid(d, isEmail)
    ensures d.firstName.Some? && d.lastName.Some? && d.email.Some? && d.emailLabel.Some? && d.phoneNumber.Some? && d.phoneNumberLabel.Some?
    ensures !IsBlank(d.firstName.value) && !IsBlank(d.lastName.value) && !IsBlank(d.email.value)
    ensures !IsBlank(d.emailLabel.value) && !IsBlank(d.phoneNumber.value) && !IsBlank(d.phoneNumberLabel.value)
    ensures 3 <= |d.firstName.value| <= 50 && 3 <= |d.lastName.value| <= 50
    ensures 3 <= |d.emailLabel.value| <= 20 && 3 <= |d.phoneNumberLabel.value| <= 20
    ensures IsE164(d.phoneNumber.value)
  {
    E164Characterization(d.phoneNumber.value);
  }

  /** Entity to body and back gives the body unchanged. */
  lemma FromToEntity(d: ContactDto, createdAt: Time, updatedAt: Time)
    ensures From(ToEntity(d, createdAt, updatedAt)) == d
  {
  }

  /** Body to entity keeps everything but the owner and the timestamps. */
  lemma ToEntityFrom(c: Contact, createdAt: Time, updatedAt: Time)
    ensures ToEntity(From(c), createdAt, updatedAt) == c.(owner := None, createdAt := Some(createdAt), updatedAt := Some(updatedAt))
  {
  }
}
