/**
 * Jakarta Bean Validation constraints as predicates on a possibly-null field value,
 * with Hibernate Validator's semantics: every constraint except `@NotBlank` accepts null.
 */
module Constraints {
  import opened Wrappers
  import opened Domain
  import opened Patterns

  /** `String.trim()` removes every character at or below U+0020, so such a string trims to "". */
  predicate IsBlank(s: string)
  {
    forall i :: 0 <= i < |s| ==> s[i] <= ' '
  }

  /** `@NotBlank`: not null, and something is left after trimming. */
  predicate NotBlank(v: Str)
  {
    v.Some? && !IsBlank(v.value)
  }

  /** `@Size(min, max)`; `max == None` is the annotation's default (no upper bound). */
  predicate Size(v: Str, min: nat, max: Option<nat>)
  {
    v.None? || (min <= |v.value| && (max.None? || |v.value| <= max.value))
  }

  /** `@Pattern(regexp)`: the whole value matches. */
  predicate Pattern(v: Str, re: Regex)
  {
    v.None? || FullMatch(re, v.value)
  }

  /**
   * `@Email`: Hibernate Validator's address check, which is library code and is taken as
   * the parameter `isEmail`; null and the empty string are accepted without consulting it.
   */
  predicate Email(v: Str, isEmail: string -> bool)
  {
    v.None? || v.value == "" || isEmail(v.value)
  }

  /** The message of one constraint when it is violated. */
  function Check(ok: bool, message: string): (r: seq<string>)
  {
    if ok then [] else [message]
  }

  /** `@NotBlank` is the only constraint here that rejects null. */
  lemma NullOnlyFailsNotBlank(min: nat, max: Option<nat>, re: Regex, isEmail: string -> bool)
    ensures !NotBlank(None)
    ensures Size(None, min, max) && Pattern(None, re) && Email(None, isEmail)
  {
  }

  /** A value that passes `@NotBlank` has at least one character. */
  lemma NotBlankIsNonEmpty(v: Str)
    requires NotBlank(v)
    ensures |v.value| > 0
  {
  }
}
