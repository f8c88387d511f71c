/**
 * The `PasswordEncoder` bean (a `BCryptPasswordEncoder`, config/SecurityConfig.java). The
 * hash and its check are library code and enter as parameters; the random salt comes from
 * a stream of values, so that an encoder that was never asked to encode is unchanged.
 */
module PasswordEncoding {
  import opened Wrappers
  import opened Domain

  const NULL_RAW_PASSWORD: string := "rawPassword cannot be null"

  class PasswordEncoder {
    /** The digest of a raw password under a salt. */
    const hash: (string, nat) -> string
    /** BCrypt's check of a raw password against a stored digest. */
    const check: (string, string) -> bool
    /** The salts the random source yields, in order. */
    const salts: nat -> nat
    /** How many salts `encode` has drawn so far. */
    var draws: nat

    constructor (hash: (string, nat) -> string, check: (string, string) -> bool, salts: nat -> nat)
      ensures this.hash == hash && this.check == check && this.salts == salts && draws == 0
    {
      this.hash := hash;
      this.check := check;
      this.salts := salts;
      draws := 0;
    }

    /**
     * The assumption the rest of the model makes of BCrypt: a digest is never empty and
     * `matches(p, encode(p))` holds for every password and salt.
     */
    ghost predicate Sound()
    {
      forall p, s :: hash(p, s) != "" && check(p, hash(p, s))
    }

    /** An extra assumption, needed only to show that a replaced password stops working. */
    ghost predicate CollisionFree()
    {
      forall q, p, s :: check(q, hash(p, s)) ==> q == p
    }

    /** The digest the next call of `encode` would give. */
    function NextDigest(raw: string): string
      reads this
    {
      hash(raw, salts(draws))
    }

    /** `encode`: rejects null, otherwise hashes with the next salt. */
    method Encode(raw: Str) returns (r: Result<string, Failure>)
      modifies this
      ensures raw.None? ==> r == Failure(IllegalArgument(Some(NULL_RAW_PASSWORD))) && draws == old(draws)
      ensures raw.Some? ==> r == Success(old(NextDigest(raw.value))) && draws == old(draws) + 1
    {
      if raw.None? {
        return Failure(IllegalArgument(Some(NULL_RAW_PASSWORD)));
      }
      r := Success(hash(raw.value, salts(draws)));
      draws := draws + 1;
    }

    /** `matches`: a null raw password is an error; a null or empty digest matches nothing. */
    function Matches(raw: Str, encoded: Str): (r: Result<bool, Failure>)
      ensures raw.None? <==> r.Failure?
      ensures r.Failure? ==> r.error == IllegalArgument(Some(NULL_RAW_PASSWORD))
      ensures r == Success(true) <==> raw.Some? && encoded.Some? && encoded.value != "" && check(raw.value, encoded.value)
    {
      if raw.None? then Failure(IllegalArgument(Some(NULL_RAW_PASSWORD)))
      else if encoded.None? || encoded.value == "" then Success(false)
      else Success(check(raw.value, encoded.value))
    }
  }

  /** `matches(p, encode(p))`: a stored digest accepts the password it was made from. */
  lemma DigestAcceptsItsPassword(e: PasswordEncoder, p: string, s: nat)
    requires e.Sound()
    ensures e.Matches(Some(p), Some(e.hash(p, s))) == Success(true)
  {
  }

  /** Under collision-freedom, a digest rejects every other password. */
  lemma DigestRejectsOthers(e: PasswordEncoder, q: string, p: string, s: nat)
    requires e.CollisionFree() && q != p
    ensures e.Matches(Some(q), Some(e.hash(p, s))) == Success(false)
  {
  }
}
