/**
 * service/ContactService.java: contacts scoped to their owner. Every operation first turns
 * the caller's email into a user and fails with "Bad Credentials" when there is none;
 * update and delete then require, in this order, that the contact exists and that the
 * caller owns it.
 */
module ContactServices {
  import opened Wrappers
  import opened Domain
  import opened Decimal
  import opened Repositories
  import opened ExceptionHandling

  const CONTACT_NOT_FOUND: string := "Contact not found : "

  /** Where `save` puts a contact: the row its id names, or else the next IDENTITY value. */
  function SaveKey(rows: map<int, Contact>, nextId: int, c: Contact): (k: int)
    requires nextId !in rows
    ensures k in rows <==> c.id.Some? && c.id.value in rows
    ensures c.id.Some? && c.id.value in rows ==> k == c.id.value
    ensures k !in rows ==> k == nextId
  {
    if c.id.Some? && c.id.value in rows then c.id.value else nextId
  }

  /**
   * The contact table after `createContact` saves `c` for the user `owner`: the contact,
   * now owned by `owner`, goes into the row `SaveKey` picks, keeping that row's `createdAt`
   * when the row already existed.
   */
  function AfterCreate(rows: map<int, Contact>, nextId: int, owner: int, c: Contact): (r: map<int, Contact>)
    requires nextId !in rows
    ensures r.Keys == rows.Keys + {SaveKey(rows, nextId, c)}
    ensures var k := SaveKey(rows, nextId, c);
      r[k].owner == Some(owner) && r[k].id == Some(k) &&
      r[k].(id := c.id, owner := c.owner, createdAt := c.createdAt) == c
    ensures forall j :: j in rows && j != SaveKey(rows, nextId, c) ==> r[j] == rows[j]
  {
    var k := SaveKey(rows, nextId, c);
    rows[k := c.(id := Some(k), owner := Some(owner), createdAt := if k in rows then rows[k].createdAt else c.createdAt)]
  }

  /** `updateContact` copies the six contact fields and keeps the rest of the stored entity. */
  function Overwrite(existing: Contact, updated: Contact): (r: Contact)
    ensures r.firstName == updated.firstName && r.lastName == updated.lastName
    ensures r.email == updated.email && r.emailLabel == updated.emailLabel
    ensures r.phoneNumber == updated.phoneNumber && r.phoneNumberLabel == updated.phoneNumberLabel
    ensures r.id == existing.id && r.owner == existing.owner
    ensures r.createdAt == existing.createdAt && r.updatedAt == existing.updatedAt
  {
    existing.(firstName := updated.firstName, lastName := updated.lastName, email := updated.email,
              emailLabel := updated.emailLabel, phoneNumber := updated.phoneNumber,
              phoneNumberLabel := updated.phoneNumberLabel)
  }

  class ContactService {
    const users: UserRepository
    const contacts: ContactRepository

    constructor (users: UserRepository, contacts: ContactRepository)
      requires users.Valid() && contacts.Valid()
      ensures this.users == users && this.contacts == contacts
      ensures Valid()
    {
      this.users := users;
      this.contacts := contacts;
    }

    ghost predicate Valid()
      reads users, contacts
    {
      users.Valid() && contacts.Valid()
    }

    /**
     * The checks `deleteContact` and `updateContact` share: the caller must be a user, the
     * contact must exist, and the caller must own it; the first check that fails decides
     * the error.
     */
    function Authorize(contactId: Long, email: Str): (r: Result<Contact, Failure>)
      reads users, contacts
      requires Valid()
      ensures users.FindByEmail(email).None? ==> r == Failure(UsernameNotFound(Some(BAD_CREDENTIALS)))
      ensures users.FindByEmail(email).Some? && contactId !in contacts.rows ==>
        r == Failure(ResourceNotFound(Some(CONTACT_NOT_FOUND + LongToString(contactId))))
      ensures users.FindByEmail(email).Some? && contactId in contacts.rows &&
              contacts.rows[contactId].owner != users.FindByEmail(email).value.id ==>
        r == Failure(BadCredentials(Some(BAD_CREDENTIALS)))
      ensures r.Success? <==>
        users.FindByEmail(email).Some? && contactId in contacts.rows &&
        contacts.rows[contactId].owner == users.FindByEmail(email).value.id
      ensures r.Success? ==> r.value == contacts.rows[contactId] && r.value.id == Some(contactId as int)
    {
      match users.FindByEmail(email)
      case None => Failure(UsernameNotFound(Some(BAD_CREDENTIALS)))
      case Some(user) =>
        match contacts.FindContactById(contactId)
        case None => Failure(ResourceNotFound(Some(CONTACT_NOT_FOUND + LongToString(contactId))))
        case Some(contact) =>
          if contact.owner != user.id then Failure(BadCredentials(Some(BAD_CREDENTIALS)))
          else Success(contact)
    }

    /**
     * `createContact(contact, email)`, as written: the contact is given the caller as owner
     * and saved with whatever id it carries, so an id that names a stored row merges into
     * that row.
     */
    method CreateContact(contact: Contact, email: Str) returns (r: Result<Contact, Failure>)
      requires Valid()
      modifies contacts
      ensures Valid()
      ensures users.FindByEmail(email).None? ==>
        r == Failure(UsernameNotFound(Some(BAD_CREDENTIALS))) &&
        contacts.rows == old(contacts.rows) && contacts.nextId == old(contacts.nextId)
      ensures users.FindByEmail(email).Some? ==>
        var owner := users.FindByEmail(email).value.id.value;
        var k := SaveKey(old(contacts.rows), old(contacts.nextId), contact);
        contacts.rows == AfterCreate(old(contacts.rows), old(contacts.nextId), owner, contact) &&
        r == Success(contacts.rows[k]) &&
        contacts.nextId == old(contacts.nextId) + (if k in old(contacts.rows) then 0 else 1)
    {
      var user := users.FindByEmail(email);
      if user.None? {
        return Failure(UsernameNotFound(Some(BAD_CREDENTIALS)));
      }
      var owned := contact.(owner := user.value.id);
      var saved := contacts.Save(owned);
      r := Success(saved);
    }

    /**
     * `createContact` with the id the client sent discarded, so that `save` always inserts:
     * the new contact gets the next id and the caller as owner, and no stored contact
     * changes.
     */
    method CreateContactFresh(contact: Contact, email: Str) returns (r: Result<Contact, Failure>)
      requires Valid()
      modifies contacts
      ensures Valid()
      ensures users.FindByEmail(email).None? ==>
        r == Failure(UsernameNotFound(Some(BAD_CREDENTIALS))) &&
        contacts.rows == old(contacts.rows) && contacts.nextId == old(contacts.nextId)
      ensures users.FindByEmail(email).Some? ==>
        var owner := users.FindByEmail(email).value.id;
        r == Success(contact.(id := Some(old(contacts.nextId)), owner := owner)) &&
        contacts.rows == old(contacts.rows)[old(contacts.nextId) := r.value] &&
        old(contacts.nextId) !in old(contacts.rows) &&
        contacts.nextId == old(contacts.nextId) + 1
    {
      var user := users.FindByEmail(email);
      if user.None? {
        return Failure(UsernameNotFound(Some(BAD_CREDENTIALS)));
      }
      var owned := contact.(id := None, owner := user.value.id);
      var saved := contacts.Save(owned);
      r := Success(saved);
    }

    /** `getContactsByEmail(email)`: exactly the caller's contacts. */
    method GetContactsByEmail(email: Str) returns (r: Result<seq<Contact>, Failure>)
      requires Valid()
      ensures users.FindByEmail(email).None? ==> r == Failure(UsernameNotFound(Some(BAD_CREDENTIALS)))
      ensures users.FindByEmail(email).Some? ==>
        r.Success? && IsSelection(r.value, contacts.rows, OwnedBy(users.FindByEmail(email).value.id.value))
    {
      var user := users.FindByEmail(email);
      if user.None? {
        return Failure(UsernameNotFound(Some(BAD_CREDENTIALS)));
      }
      var found := contacts.FindByUserId(user.value.id.value);
      r := Success(found);
    }

    /** `searchContacts(keyword, email)`: the caller's contacts that match the keyword. */
    method SearchContacts(keyword: Str, email: Str) returns (r: Result<seq<Contact>, Failure>)
      requires Valid()
      ensures users.FindByEmail(email).None? ==> r == Failure(UsernameNotFound(Some(BAD_CREDENTIALS)))
      ensures users.FindByEmail(email).Some? ==>
        r.Success? && IsSelection(r.value, contacts.rows, Found(users.FindByEmail(email).value.id.value, keyword))
    {
      var user := users.FindByEmail(email);
      if user.None? {
        return Failure(UsernameNotFound(Some(BAD_CREDENTIALS)));
      }
      var found := contacts.SearchContacts(user.value.id.value, keyword);
      r := Success(found);
    }

    /** `deleteContact(contactId, email)`: after the three checks, removes that one row. */
    method DeleteContact(contactId: Long, email: Str) returns (r: Outcome<Failure>)
      requires Valid()
      modifies contacts
      ensures Valid()
      ensures contacts.nextId == old(contacts.nextId)
      ensures old(Authorize(contactId, email)).Failure? ==>
        r == Fail(old(Authorize(contactId, email)).error) && contacts.rows == old(contacts.rows)
      ensures old(Authorize(contactId, email)).Success? ==>
        r == Pass && contacts.rows == old(contacts.rows) - {contactId as int}
    {
      var contact := Authorize(contactId, email);
      if contact.Failure? {
        return Fail(contact.error);
      }
      contacts.Delete(contact.value);
      r := Pass;
    }

    /**
     * `updateContact(contactId, updatedContact, email)`: after the three checks, the stored
     * contact takes the six fields of `updatedContact` and keeps its id, owner and
     * timestamps; no other row changes.
     */
    method UpdateContact(contactId: Long, updatedContact: Contact, email: Str) returns (r: Result<Contact, Failure>)
      requires Valid()
      modifies contacts
      ensures Valid()
      ensures contacts.nextId == old(contacts.nextId)
      ensures old(Authorize(contactId, email)).Failure? ==>
        r == Failure(old(Authorize(contactId, email)).error) && contacts.rows == old(contacts.rows)
      ensures old(Authorize(contactId, email)).Success? ==>
        var updated := Overwrite(old(contacts.rows)[contactId as int], updatedContact);
        r == Success(updated) && contacts.rows == old(contacts.rows)[contactId as int := updated]
    {
      var existing := Authorize(contactId, email);
      if existing.Failure? {
        return Failure(existing.error);
      }
      var saved := contacts.Save(Overwrite(existing.value, updatedContact));
      r := Success(saved);
    }
  }

  /** The "not found" message starts with the fixed text and ends with the id in decimal. */
  lemma NotFoundMessageNamesId(contactId: Long)
    ensures var m := CONTACT_NOT_FOUND + LongToString(contactId);
      m[..|CONTACT_NOT_FOUND|] == CONTACT_NOT_FOUND &&
      ParseLong(m[|CONTACT_NOT_FOUND|..]) == contactId
  {
    var m := CONTACT_NOT_FOUND + LongToString(contactId);
    assert m[|CONTACT_NOT_FOUND|..] == LongToString(contactId);
    LongRoundTrip(contactId);
  }

  /** Different ids give different "not found" messages. */
  lemma NotFoundMessagesDiffer(a: Long, b: Long)
    requires a != b
    ensures CONTACT_NOT_FOUND + LongToString(a) != CONTACT_NOT_FOUND + LongToString(b)
  {
    NotFoundMessageNamesId(a);
    NotFoundMessageNamesId(b);
  }

  /** A caller without a user reaches the client as a 500, since that exception has no handler. */
  lemma UnknownCallerIsServerError(requestUri: string, now: Time)
    ensures var resp := Handle(UsernameNotFound(Some(BAD_CREDENTIALS)), requestUri, now);
      resp.httpStatus == 500 && resp.body.message == Some("Something went wrong")
  {
  }

  /** A caller who does not own the contact gets a 401 with the fixed message. */
  lemma ForeignContactIsUnauthorized(requestUri: string, now: Time)
    ensures var resp := Handle(BadCredentials(Some(BAD_CREDENTIALS)), requestUri, now);
      resp.httpStatus == 401 && resp.body.message == Some(BAD_CREDENTIALS)
  {
  }

  /**
   * As written, `createContact` with the id of a stored contact takes that contact over:
   * its row afterwards belongs to the caller, whoever owned it before.
   */
  lemma CreateContactTakesOverNamedRow(rows: map<int, Contact>, nextId: int, caller: int, c: Contact)
    requires nextId !in rows
    requires c.id.Some? && c.id.value in rows && rows[c.id.value].owner != Some(caller)
    ensures AfterCreate(rows, nextId, caller, c)[c.id.value].owner == Some(caller)
    ensures AfterCreate(rows, nextId, caller, c)[c.id.value] != rows[c.id.value]
  {
  }

  /** A concrete case: user 2 posts a contact with id 1 and so takes over user 1's contact 1. */
  lemma CreateContactHijackExample()
    ensures var victim := Contact(Some(1), Some("Ann"), None, None, None, None, None, Some(1), Some(0), Some(0));
      var posted := victim.(owner := None, firstName := Some("Eve"));
      var after := AfterCreate(map[1 := victim], 2, 2, posted);
      after.Keys == {1} && after[1].owner == Some(2) && after[1].firstName == Some("Eve")
  {
  }

  /** With the id discarded, creating a contact leaves every stored contact as it was. */
  lemma CreateFreshKeepsStoredContacts(rows: map<int, Contact>, nextId: int, caller: int, c: Contact)
    requires forall k :: k in rows ==> k < nextId
    ensures var after := AfterCreate(rows, nextId, caller, c.(id := None));
      after.Keys == rows.Keys + {nextId} && nextId !in rows &&
      (forall k :: k in rows ==> after[k] == rows[k]) &&
      after[nextId].owner == Some(caller)
  {
  }
}
