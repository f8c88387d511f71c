/**
 * The two regular expressions of the request DTOs, matched the way
 * `jakarta.validation.constraints.Pattern` does (`Matcher.matches()`: the whole value).
 * Both are anchored concatenations of single character classes with a repetition
 * count, so a regex here is a sequence of such pieces.
 */
module Patterns {
  import opened Wrappers
  import opened Decimal

  /** A character range `lo-hi` inside a class `[...]`; a single character is `c-c`. */
  datatype Range = Range(lo: char, hi: char)

  /** `[ranges]{min,max}`; `max == None` is the unbounded `+`/`{min,}`. */
  datatype Piece = Piece(ranges: seq<Range>, min: nat, max: Option<nat>)

  type Regex = seq<Piece>

  predicate InClass(rs: seq<Range>, c: char)
  {
    exists i :: 0 <= i < |rs| && rs[i].lo <= c <= rs[i].hi
  }

  /** `t` is one run of the piece: its length is within the count and every character is in the class. */
  predicate Run(p: Piece, t: string)
  {
    p.min <= |t| && (p.max.None? || |t| <= p.max.value) &&
    forall i :: 0 <= i < |t| ==> InClass(p.ranges, t[i])
  }

  /** The whole of `s` matches the concatenation `re`. */
  predicate FullMatch(re: Regex, s: string)
    decreases |re|
  {
    if re == [] then s == []
    else exists k :: 0 <= k <= |s| && Run(re[0], s[..k]) && FullMatch(re[1..], s[k..])
  }

  function Single(c: char): Piece { Piece([Range(c, c)], 1, Some(1)) }

  /** `^\+[1-9][0-9]{1,14}$`, the phone-number pattern of dto/ContactDto.java. */
  const E164: Regex := [Single('+'), Piece([Range('1', '9')], 1, Some(1)), Piece([Range('0', '9')], 1, Some(14))]

  const LocalPartClass: seq<Range> :=
    [Range('A', 'Z'), Range('a', 'z'), Range('0', '9'), Range('+', '+'), Range('_', '_'), Range('.', '.'), Range('-', '-')]
  const DomainClass: seq<Range> :=
    [Range('A', 'Z'), Range('a', 'z'), Range('0', '9'), Range('.', '.'), Range('-', '-')]

  /** `^[A-Za-z0-9+_.-]+@[A-Za-z0-9.-]+$`, the email pattern of dto/UserRegisterDto.java. */
  const EmailPattern: Regex := [Piece(LocalPartClass, 1, None), Single('@'), Piece(DomainClass, 1, None)]

  /**
   * ITU-T E.164 in international notation: a '+', a leading digit 1-9, then 1 to 14
   * further digits (2 to 15 digits in all).
   */
  predicate IsE164(s: string)
  {
    3 <= |s| <= 16 && s[0] == '+' && '1' <= s[1] <= '9' &&
    forall i :: 2 <= i < |s| ==> IsDigit(s[i])
  }

  predicate AllIn(rs: seq<Range>, t: string)
  {
    forall i :: 0 <= i < |t| ==> InClass(rs, t[i])
  }

  /** One '@' with a non-empty local part and a non-empty domain drawn from their classes. */
  predicate IsEmailShape(s: string)
  {
    exists at :: 0 < at < |s| - 1 && s[at] == '@' && AllIn(LocalPartClass, s[..at]) && AllIn(DomainClass, s[at + 1..])
  }

  lemma {:induction false} FullMatchSingle(p: Piece, s: string)
    ensures FullMatch([p], s) <==> Run(p, s)
  {
    assert [p][1..] == [];
    if Run(p, s) {
      assert s[..|s|] == s && s[|s|..] == [];
    }
  }

  /** A first piece that matches exactly one character consumes `s[0]`. */
  lemma {:induction false} FullMatchLeadingChar(p: Piece, rest: Regex, s: string)
    requires p.min == 1 && p.max == Some(1)
    ensures FullMatch([p] + rest, s) <==> |s| >= 1 && InClass(p.ranges, s[0]) && FullMatch(rest, s[1..])
  {
    var re := [p] + rest;
    assert re[0] == p && re[1..] == rest;
    if |s| >= 1 && InClass(p.ranges, s[0]) && FullMatch(rest, s[1..]) {
      assert Run(p, s[..1]);
    }
    if FullMatch(re, s) {
      var k :| 0 <= k <= |s| && Run(p, s[..k]) && FullMatch(rest, s[k..]);
      assert k == 1 && s[..k][0] == s[0];
    }
  }

  lemma InSingleRange(r: Range, c: char)
    ensures InClass([r], c) <==> r.lo <= c <= r.hi
  {
    assert [r][0] == r;
  }

  /** The phone-number regex accepts exactly the E.164 numbers. */
  lemma E164Characterization(s: string)
    ensures FullMatch(E164, s) <==> IsE164(s)
  {
    var p0, p1, p2 := E164[0], E164[1], E164[2];
    assert E164 == [p0] + [p1, p2] && [p1, p2] == [p1] + [p2];
    FullMatchLeadingChar(p0, [p1, p2], s);
    if |s| >= 1 {
      InSingleRange(Range('+', '+'), s[0]);
      var t := s[1..];
      FullMatchLeadingChar(p1, [p2], t);
      if |t| >= 1 {
        InSingleRange(Range('1', '9'), t[0]);
        FullMatchSingle(p2, t[1..]);
        forall i | 0 <= i < |t[1..]|
          ensures InClass(p2.ranges, t[1..][i]) <==> IsDigit(s[i + 2])
        {
          InSingleRange(Range('0', '9'), t[1..][i]);
        }
      }
    }
  }

  lemma InLocalPartClass(c: char)
    ensures InClass(LocalPartClass, c) <==> ('A' <= c <= 'Z' || 'a' <= c <= 'z' || '0' <= c <= '9' || c == '+' || c == '_' || c == '.' || c == '-')
  {
    if 'A' <= c <= 'Z' { assert LocalPartClass[0].lo <= c <= LocalPartClass[0].hi; }
    else if 'a' <= c <= 'z' { assert LocalPartClass[1].lo <= c <= LocalPartClass[1].hi; }
    else if '0' <= c <= '9' { assert LocalPartClass[2].lo <= c <= LocalPartClass[2].hi; }
    else if c == '+' { assert LocalPartClass[3].lo <= c <= LocalPartClass[3].hi; }
    else if c == '_' { assert LocalPartClass[4].lo <= c <= LocalPartClass[4].hi; }
    else if c == '.' { assert LocalPartClass[5].lo <= c <= LocalPartClass[5].hi; }
    else if c == '-' { assert LocalPartClass[6].lo <= c <= LocalPartClass[6].hi; }
  }

  lemma InDomainClass(c: char)
    ensures InClass(DomainClass, c) <==> ('A' <= c <= 'Z' || 'a' <= c <= 'z' || '0' <= c <= '9' || c == '.' || c == '-')
  {
    if 'A' <= c <= 'Z' { assert DomainClass[0].lo <= c <= DomainClass[0].hi; }
    else if 'a' <= c <= 'z' { assert DomainClass[1].lo <= c <= DomainClass[1].hi; }
    else if '0' <= c <= '9' { assert DomainClass[2].lo <= c <= DomainClass[2].hi; }
    else if c == '.' { assert DomainClass[3].lo <= c <= DomainClass[3].hi; }
    else if c == '-' { assert DomainClass[4].lo <= c <= DomainClass[4].hi; }
  }

  lemma EmailMatchHasShape(s: string)
    requires FullMatch(EmailPattern, s)
    ensures IsEmailShape(s)
  {
    var p0, p1, p2 := EmailPattern[0], EmailPattern[1], EmailPattern[2];
    assert EmailPattern[1..] == [p1] + [p2];
    var k :| 0 <= k <= |s| && Run(p0, s[..k]) && FullMatch(EmailPattern[1..], s[k..]);
    var t := s[k..];
    FullMatchLeadingChar(p1, [p2], t);
    FullMatchSingle(p2, t[1..]);
    InSingleRange(Range('@', '@'), t[0]);
    assert s[k + 1..] == t[1..];
    assert 0 < k < |s| - 1 && s[k] == '@' && AllIn(LocalPartClass, s[..k]) && AllIn(DomainClass, s[k + 1..]);
  }

  lemma EmailShapeMatches(s: string)
    requires IsEmailShape(s)
    ensures FullMatch(EmailPattern, s)
  {
    var p0, p1, p2 := EmailPattern[0], EmailPattern[1], EmailPattern[2];
    assert EmailPattern[1..] == [p1] + [p2];
    var at :| 0 < at < |s| - 1 && s[at] == '@' && AllIn(LocalPartClass, s[..at]) && AllIn(DomainClass, s[at + 1..]);
    var t := s[at..];
    assert t[1..] == s[at + 1..];
    assert Run(p2, t[1..]);
    FullMatchSingle(p2, t[1..]);
    InSingleRange(Range('@', '@'), t[0]);
    FullMatchLeadingChar(p1, [p2], t);
    assert Run(p0, s[..at]);
  }

  /** The email regex accepts exactly the strings of the shape local '@' domain. */
  lemma EmailCharacterization(s: string)
    ensures FullMatch(EmailPattern, s) <==> IsEmailShape(s)
  {
    if FullMatch(EmailPattern, s) { EmailMatchHasShape(s); }
    if IsEmailShape(s) { EmailShapeMatches(s); }
  }

  /** The empty string is not an email; a null value is handled by the constraint, not the regex. */
  lemma EmptyIsNotAnEmail()
    ensures !FullMatch(EmailPattern, "")
  {
    EmailCharacterization("");
  }

  /** The phone number used throughout the integration tests is accepted. */
  lemma SamplePhoneAccepted()
    ensures FullMatch(E164, "+923242650627")
  {
    E164Characterization("+923242650627");
  }

  /** A number without the leading '+', such as the unit-test fixture "1234567890", is rejected. */
  lemma PlainDigitsRejected(s: string)
    requires |s| == 0 || s[0] != '+'
    ensures !FullMatch(E164, s)
  {
    E164Characterization(s);
  }
}
