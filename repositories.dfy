/**
 * repository/UserRepository.java and repository/ContactRepository.java: Spring Data
 * repositories over the `users` and `contacts` tables, modelled as in-memory tables keyed
 * by the IDENTITY-generated id.
 */
module Repositories {
  import opened Wrappers
  import opened Domain

  /** The `unique = true` constraint on `users.email`. */
  ghost predicate EmailsUnique(rows: map<int, User>)
  {
    forall a, b :: a in rows && b in rows && rows[a].email == rows[b].email ==> a == b
  }

  class UserRepository {
    var rows: map<int, User>
    var nextId: int

    ghost predicate Valid()
      reads this
    {
      1 <= nextId &&
      (forall k :: k in rows ==> 1 <= k < nextId && rows[k].id == Some(k)) &&
      EmailsUnique(rows)
    }

    constructor ()
      ensures Valid() && rows == map[] && nextId == 1
    {
      rows := map[];
      nextId := 1;
    }

    /** `findByEmail`: a derived query, so a null email looks for a null column (`IS NULL`). */
    function FindByEmail(email: Str): (r: Option<User>)
      reads this
      requires Valid()
      ensures r.Some? <==> ExistsByEmail(email)
      ensures forall k :: k in rows && rows[k].email == email ==> r == Some(rows[k])
    {
      if exists k :: k in rows && rows[k].email == email then
        var k :| k in rows && rows[k].email == email;
        Some(rows[k])
      else
        None
    }

    /** `existsByEmail`. */
    predicate ExistsByEmail(email: Str)
      reads this
      ensures ExistsByEmail(email) <==> email in (set k | k in rows :: rows[k].email)
    {
      exists k :: k in rows && rows[k].email == email
    }

    /** `save` merges into an existing row when the entity's id names one, and inserts otherwise. */
    predicate IsMerge(u: User)
      reads this
    {
      u.id.Some? && u.id.value in rows
    }

    /** No row other than the one being merged into holds the email. */
    predicate EmailFree(u: User)
      reads this
    {
      forall k :: k in rows && rows[k].email == u.email ==> IsMerge(u) && k == u.id.value
    }

    /**
     * `save`. A merge overwrites the row but keeps `createdAt` (`updatable = false`); an
     * insert takes the next IDENTITY value, whatever id the entity carried.
     */
    method Save(u: User) returns (saved: User)
      requires Valid() && EmailFree(u)
      modifies this
      ensures Valid()
      ensures old(IsMerge(u)) ==>
        saved == u.(createdAt := old(rows)[u.id.value].createdAt) &&
        rows == old(rows)[u.id.value := saved] && nextId == old(nextId)
      ensures !old(IsMerge(u)) ==>
        saved == u.(id := Some(old(nextId))) &&
        rows == old(rows)[old(nextId) := saved] && nextId == old(nextId) + 1
    {
      if IsMerge(u) {
        var k := u.id.value;
        saved := u.(createdAt := rows[k].createdAt);
        rows := rows[k := saved];
      } else {
        saved := u.(id := Some(nextId));
        rows := rows[nextId := saved];
        nextId := nextId + 1;
      }
    }
  }

  /** ASCII case folding, as `LOWER` in a query. */
  function ToLower(ch: char): char
  {
    if 'A' <= ch <= 'Z' then (ch as int + 32) as char else ch
  }

  function Lower(s: string): (r: string)
    ensures |r| == |s| && forall i :: 0 <= i < |s| ==> r[i] == ToLower(s[i])
  {
    if s == [] then [] else [ToLower(s[0])] + Lower(s[1..])
  }

  /** `k` occurs in `s` as a contiguous substring. */
  predicate Contains(s: string, k: string)
  {
    (|k| <= |s| && s[..|k|] == k) || (|s| > 0 && Contains(s[1..], k))
  }

  /**
   * `searchContacts(userId, keyword)` compares the keyword case-insensitively with the first
   * and the last name; like `LIKE` with a null operand, a null keyword matches nothing.
   */
  predicate KeywordMatches(c: Contact, keyword: Str)
  {
    keyword.Some? &&
    ((c.firstName.Some? && Contains(Lower(c.firstName.value), Lower(keyword.value))) ||
     (c.lastName.Some? && Contains(Lower(c.lastName.value), Lower(keyword.value))))
  }

  class ContactRepository {
    var rows: map<int, Contact>
    var nextId: int

    /** Ids are the keys, and every row has an owner (`user_id` is `nullable = false`). */
    ghost predicate Valid()
      reads this
    {
      1 <= nextId &&
      forall k :: k in rows ==> 1 <= k < nextId && rows[k].id == Some(k) && rows[k].owner.Some?
    }

    constructor ()
      ensures Valid() && rows == map[] && nextId == 1
    {
      rows := map[];
      nextId := 1;
    }

    /** `findContactById`. */
    function FindContactById(id: int): (r: Option<Contact>)
      reads this
      ensures r.Some? <==> id in rows
      ensures r.Some? ==> r.value == rows[id]
      ensures r.Some? && Valid() ==> r.value.id == Some(id) && r.value.owner.Some?
    {
      if id in rows then Some(rows[id]) else None
    }

    predicate IsMerge(c: Contact)
      reads this
    {
      c.id.Some? && c.id.value in rows
    }

    /** `save`, with the same merge-or-insert rule as the user table. */
    method Save(c: Contact) returns (saved: Contact)
      requires Valid() && c.owner.Some?
      modifies this
      ensures Valid()
      ensures old(IsMerge(c)) ==>
        saved == c.(createdAt := old(rows)[c.id.value].createdAt) &&
        rows == old(rows)[c.id.value := saved] && nextId == old(nextId)
      ensures !old(IsMerge(c)) ==>
        saved == c.(id := Some(old(nextId))) &&
        rows == old(rows)[old(nextId) := saved] && nextId == old(nextId) + 1
    {
      if IsMerge(c) {
        var k := c.id.value;
        saved := c.(createdAt := rows[k].createdAt);
        rows := rows[k := saved];
      } else {
        saved := c.(id := Some(nextId));
        rows := rows[nextId := saved];
        nextId := nextId + 1;
      }
    }

    /** `delete(contact)`: removes the row with the contact's id. */
    method Delete(c: Contact)
      requires Valid() && c.id.Some?
      modifies this
      ensures Valid()
      ensures rows == old(rows) - {c.id.value} && nextId == old(nextId)
    {
      rows := rows - {c.id.value};
    }

    /** A query: the rows that satisfy `keep`, each once, in id (that is, insertion) order. */
    method Select(keep: Contact -> bool) returns (r: seq<Contact>)
      requires Valid()
      ensures IsSelection(r, rows, keep)
    {
      r := [];
      var k := 1;
      while k < nextId
        invariant 1 <= k <= nextId
        invariant forall i :: 0 <= i < |r| ==>
          r[i].id.Some? && r[i].id.value < k && r[i].id.value in rows && rows[r[i].id.value] == r[i] && keep(r[i])
        invariant forall j :: j in rows && j < k && keep(rows[j]) ==> rows[j] in r
        invariant forall i, j :: 0 <= i < j < |r| ==> r[i].id.value < r[j].id.value
      {
        if k in rows && keep(rows[k]) {
          r := r + [rows[k]];
        }
        k := k + 1;
      }
    }

    /** `findByUserId`. */
    method FindByUserId(userId: int) returns (r: seq<Contact>)
      requires Valid()
      ensures IsSelection(r, rows, OwnedBy(userId))
    {
      r := Select(OwnedBy(userId));
    }

    /** `searchContacts`. */
    method SearchContacts(userId: int, keyword: Str) returns (r: seq<Contact>)
      requires Valid()
      ensures IsSelection(r, rows, Found(userId, keyword))
    {
      r := Select(Found(userId, keyword));
    }
  }

  /** `r` lists exactly the rows that `keep` accepts, each once and in id order. */
  predicate IsSelection(r: seq<Contact>, rows: map<int, Contact>, keep: Contact -> bool)
  {
    (forall i :: 0 <= i < |r| ==>
      r[i].id.Some? && r[i].id.value in rows && rows[r[i].id.value] == r[i] && keep(r[i])) &&
    (forall k :: k in rows && keep(rows[k]) ==> rows[k] in r) &&
    (forall i, j :: 0 <= i < j < |r| ==> r[i].id.value < r[j].id.value)
  }

  /** The filter of `findByUserId`: the contact's `user_id` is the given one. */
  function OwnedBy(userId: int): Contact -> bool
  {
    (c: Contact) => c.owner == Some(userId)
  }

  /** The filter of `searchContacts`: owned by the user and matching the keyword. */
  function Found(userId: int, keyword: Str): Contact -> bool
  {
    (c: Contact) => c.owner == Some(userId) && KeywordMatches(c, keyword)
  }

  /** An empty keyword matches every contact that has a first or a last name. */
  lemma {:induction false} EmptyKeywordMatches(c: Contact)
    requires c.firstName.Some? || c.lastName.Some?
    ensures KeywordMatches(c, Some(""))
  {
    assert Lower("") == "";
  }
}
