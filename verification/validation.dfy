/** ValidationService: rule checks on an incident, coordinate bounds,
    string sanitising and the e-mail shape check. */
module Validation {
  import opened Common
  import opened Text
  import opened Seqs
  import opened Incidents

  const IncidentTypes: seq<string> := ["accident", "construction", "closure", "hazard"]
  const SeverityLevels: seq<string> := ["low", "medium", "high", "critical"]
  const MaxLocationLength := 200
  const MaxDescriptionLength := 1000

  /** `String.join(sep, xs)`. */
  function Join(xs: seq<string>, sep: string): string
  {
    if xs == [] then ""
    else if |xs| == 1 then xs[0]
    else xs[0] + sep + Join(xs[1..], sep)
  }

  lemma ContainsRight(a: string, b: string, needle: string)
    requires Contains(b, needle)
    ensures Contains(a + b, needle)
  {
    var i :| 0 <= i <= |b| - |needle| && OccursAt(b, needle, i);
    assert (a + b)[|a| + i..|a| + i + |needle|] == b[i..i + |needle|];
    assert OccursAt(a + b, needle, |a| + i);
  }

  /** A joined list contains each of its items. */
  lemma {:induction false} JoinContainsEach(xs: seq<string>, sep: string, x: string)
    requires x in xs
    ensures Contains(Join(xs, sep), x)
  {
    if |xs| == 1 {
      ContainsMiddle([], x, []);
      assert [] + x + [] == x;
    } else if x == xs[0] {
      ContainsMiddle([], x, sep + Join(xs[1..], sep));
      assert [] + x + (sep + Join(xs[1..], sep)) == Join(xs, sep);
    } else {
      JoinContainsEach(xs[1..], sep, x);
      ContainsRight(xs[0] + sep, Join(xs[1..], sep), x);
    }
  }

  /** The seven checks of `validateIncident`, in the order they run. */
  datatype Rule =
    | TypeRule | SeverityRule | LocationRequiredRule | LocationLengthRule
    | DescriptionRule | LatitudeRule | LongitudeRule

  const Rules: seq<Rule> :=
    [TypeRule, SeverityRule, LocationRequiredRule, LocationLengthRule,
     DescriptionRule, LatitudeRule, LongitudeRule]

  lemma EveryRuleListed(r: Rule)
    ensures r in Rules
  {
  }

  // The type and severity messages are built from the allowed lists, as
  // the service builds them.
  const TypePrefix := "Invalid incident type. Must be one of: "
  const SeverityPrefix := "Invalid severity level. Must be one of: "

  /** The error message a failing rule adds. */
  function Message(r: Rule): string
  {
    match r
    case TypeRule => TypePrefix + Join(IncidentTypes, ", ")
    case SeverityRule => SeverityPrefix + Join(SeverityLevels, ", ")
    case LocationRequiredRule => "Location is required"
    case LocationLengthRule => "Location must be 200 characters or less"
    case DescriptionRule => "Description must be 1000 characters or less"
    case LatitudeRule => "Invalid latitude. Must be between -90 and 90"
    case LongitudeRule => "Invalid longitude. Must be between -180 and 180"
  }

  /** The type and severity messages name every allowed value. */
  lemma MessagesNameAllowedValues()
    ensures forall t :: t in IncidentTypes ==> Contains(Message(TypeRule), t)
    ensures forall v :: v in SeverityLevels ==> Contains(Message(SeverityRule), v)
  {
    forall t | t in IncidentTypes ensures Contains(Message(TypeRule), t) {
      JoinContainsEach(IncidentTypes, ", ", t);
      ContainsRight(TypePrefix, Join(IncidentTypes, ", "), t);
    }
    forall v | v in SeverityLevels ensures Contains(Message(SeverityRule), v) {
      JoinContainsEach(SeverityLevels, ", ", v);
      ContainsRight(SeverityPrefix, Join(SeverityLevels, ", "), v);
    }
  }

  /** The first and ninth characters of the two messages built from lists. */
  lemma PrefixChars()
    ensures Message(TypeRule)[0] == 'I' && Message(TypeRule)[8] == 'i'
    ensures Message(SeverityRule)[0] == 'I' && Message(SeverityRule)[8] == 's'
  {
    assert |TypePrefix| > 8 && |SeverityPrefix| > 8;
  }

  lemma MessagesDistinct()
    ensures Message(TypeRule) != Message(SeverityRule)
    ensures Message(TypeRule) != Message(LocationRequiredRule)
    ensures Message(TypeRule) != Message(LocationLengthRule)
    ensures Message(TypeRule) != Message(DescriptionRule)
    ensures Message(TypeRule) != Message(LatitudeRule)
    ensures Message(TypeRule) != Message(LongitudeRule)
    ensures Message(SeverityRule) != Message(LocationRequiredRule)
    ensures Message(SeverityRule) != Message(LocationLengthRule)
    ensures Message(SeverityRule) != Message(DescriptionRule)
    ensures Message(SeverityRule) != Message(LatitudeRule)
    ensures Message(SeverityRule) != Message(LongitudeRule)
    ensures Message(LocationRequiredRule) != Message(LocationLengthRule)
    ensures Message(LocationRequiredRule) != Message(DescriptionRule)
    ensures Message(LocationRequiredRule) != Message(LatitudeRule)
    ensures Message(LocationRequiredRule) != Message(LongitudeRule)
    ensures Message(LocationLengthRule) != Message(DescriptionRule)
    ensures Message(LocationLengthRule) != Message(LatitudeRule)
    ensures Message(LocationLengthRule) != Message(LongitudeRule)
    ensures Message(DescriptionRule) != Message(LatitudeRule)
    ensures Message(DescriptionRule) != Message(LongitudeRule)
    ensures Message(LatitudeRule) != Message(LongitudeRule)
  {
    PrefixChars();
  }

  /** No two rules share a message, so a message identifies its rule. */
  lemma MessageInjective(r1: Rule, r2: Rule)
    ensures Message(r1) == Message(r2) <==> r1 == r2
  {
    MessagesDistinct();
  }

  /** The messages of `rules`, one for each. */
  function Messages(rules: seq<Rule>): (r: seq<string>)
    ensures |r| == |rules| && forall i :: 0 <= i < |rules| ==> r[i] == Message(rules[i])
  {
    if rules == [] then [] else [Message(rules[0])] + Messages(rules[1..])
  }

  /** A rule's message is among the messages of `rules` exactly when the
      rule is among `rules`. */
  lemma MessagesMember(rules: seq<Rule>, r: Rule)
    ensures Message(r) in Messages(rules) <==> r in rules
  {
    if Message(r) in Messages(rules) {
      var i :| 0 <= i < |rules| && Messages(rules)[i] == Message(r);
      MessageInjective(r, rules[i]);
    }
    if r in rules {
      var i :| 0 <= i < |rules| && rules[i] == r;
      assert Messages(rules)[i] == Message(r);
    }
  }

  lemma {:induction false} MessagesSnoc(rules: seq<Rule>, r: Rule)
    ensures Messages(rules + [r]) == Messages(rules) + [Message(r)]
  {
    if rules != [] {
      assert (rules + [r])[1..] == rules[1..] + [r];
      MessagesSnoc(rules[1..], r);
    }
  }

  datatype ValidationResult = ValidationResult(valid: bool, errors: seq<string>)

  predicate TypeAccepted(t: Option<string>)
  {
    t.Some? && Lower(t.value) in IncidentTypes
  }

  predicate SeverityAccepted(s: Option<string>)
  {
    s.Some? && Lower(s.value) in SeverityLevels
  }

  /** Null, or nothing left after Java's `trim()`. */
  predicate LocationBlank(loc: Option<string>)
  {
    loc.None? || JavaTrim(loc.value) == []
  }

  /** The untrimmed length is what is limited, counted as Java's
      `length()` counts: in UTF-16 code units. */
  predicate LocationOverLimit(loc: Option<string>)
  {
    loc.Some? && Utf16Length(loc.value) > MaxLocationLength
  }

  predicate DescriptionOverLimit(d: Option<string>)
  {
    d.Some? && Utf16Length(d.value) > MaxDescriptionLength
  }

  /** A null coordinate is never an error; the bounds themselves are valid. */
  predicate LatitudeInRange(lat: Option<real>)
  {
    lat.None? || -90.0 <= lat.value <= 90.0
  }

  predicate LongitudeInRange(lon: Option<real>)
  {
    lon.None? || -180.0 <= lon.value <= 180.0
  }

  /** Whether `r` rejects the incident. The length rule only applies to a
      location that is not blank. */
  predicate Fails(incident: Incident, r: Rule)
  {
    match r
    case TypeRule => !TypeAccepted(incident.incidentType)
    case SeverityRule => !SeverityAccepted(incident.severity)
    case LocationRequiredRule => LocationBlank(incident.location)
    case LocationLengthRule => !LocationBlank(incident.location) && LocationOverLimit(incident.location)
    case DescriptionRule => DescriptionOverLimit(incident.description)
    case LatitudeRule => !LatitudeInRange(incident.latitude)
    case LongitudeRule => !LongitudeInRange(incident.longitude)
  }

  /** The messages of the rules among `rules` that reject the incident, in
      the order of `rules`. */
  function ErrorsFor(incident: Incident, rules: seq<Rule>): seq<string>
  {
    Messages(Keep(rules, FailsOn(incident)))
  }

  function FailsOn(incident: Incident): Rule -> bool
  {
    r => Fails(incident, r)
  }

  /** The message of `r` if `p` rejects it, else nothing. */
  function MessageIf(p: Rule -> bool, r: Rule): seq<string>
  {
    if p(r) then [Message(r)] else []
  }

  /** Filtering one more rule of `rs` appends its message exactly when it
      is kept. */
  lemma MessagesKeepStep(rs: seq<Rule>, k: nat, p: Rule -> bool, acc: seq<string>)
    requires k < |rs| && Messages(Keep(rs[..k], p)) == acc
    ensures Messages(Keep(rs[..k + 1], p)) == acc + MessageIf(p, rs[k])
  {
    assert rs[..k + 1] == rs[..k] + [rs[k]];
    KeepAppend(rs[..k], rs[k], p);
    MessagesSnoc(Keep(rs[..k], p), rs[k]);
  }

  /** Filtering the first two rules of `rs`, spelled out. */
  lemma MessagesKeepTwo(rs: seq<Rule>, p: Rule -> bool)
    requires |rs| >= 2
    ensures Messages(Keep(rs[..2], p)) == MessageIf(p, rs[0]) + MessageIf(p, rs[1])
  {
    assert rs[..0] == [];
    MessagesKeepStep(rs, 0, p, []);
    assert [] + MessageIf(p, rs[0]) == MessageIf(p, rs[0]);
    MessagesKeepStep(rs, 1, p, MessageIf(p, rs[0]));
  }

  /** Filtering the first four rules of `rs`, spelled out. */
  lemma MessagesKeepFour(rs: seq<Rule>, p: Rule -> bool)
    requires |rs| >= 4
    ensures Messages(Keep(rs[..4], p)) ==
      MessageIf(p, rs[0]) + MessageIf(p, rs[1]) + MessageIf(p, rs[2]) + MessageIf(p, rs[3])
  {
    var acc2 := MessageIf(p, rs[0]) + MessageIf(p, rs[1]);
    MessagesKeepTwo(rs, p);
    MessagesKeepStep(rs, 2, p, acc2);
    MessagesKeepStep(rs, 3, p, acc2 + MessageIf(p, rs[2]));
  }

  /** Filtering the first six rules of `rs`, spelled out. */
  lemma MessagesKeepSix(rs: seq<Rule>, p: Rule -> bool)
    requires |rs| >= 6
    ensures Messages(Keep(rs[..6], p)) ==
      MessageIf(p, rs[0]) + MessageIf(p, rs[1]) + MessageIf(p, rs[2]) + MessageIf(p, rs[3])
      + MessageIf(p, rs[4]) + MessageIf(p, rs[5])
  {
    var acc4 := MessageIf(p, rs[0]) + MessageIf(p, rs[1]) + MessageIf(p, rs[2]) + MessageIf(p, rs[3]);
    MessagesKeepFour(rs, p);
    MessagesKeepStep(rs, 4, p, acc4);
    MessagesKeepStep(rs, 5, p, acc4 + MessageIf(p, rs[4]));
  }

  /** Filtering a list of seven rules, spelled out rule by rule. */
  lemma MessagesKeepSeven(rs: seq<Rule>, p: Rule -> bool)
    requires |rs| == 7
    ensures Messages(Keep(rs, p)) ==
      MessageIf(p, rs[0]) + MessageIf(p, rs[1]) + MessageIf(p, rs[2]) + MessageIf(p, rs[3])
      + MessageIf(p, rs[4]) + MessageIf(p, rs[5]) + MessageIf(p, rs[6])
  {
    var acc6 := MessageIf(p, rs[0]) + MessageIf(p, rs[1]) + MessageIf(p, rs[2])
      + MessageIf(p, rs[3]) + MessageIf(p, rs[4]) + MessageIf(p, rs[5]);
    MessagesKeepSix(rs, p);
    MessagesKeepStep(rs, 6, p, acc6);
    TakeAll(rs);
  }

  lemma TakeAll(rs: seq<Rule>)
    ensures rs[..|rs|] == rs
  {
  }

  /** Filtering the rule list, spelled out rule by rule. */
  lemma MessagesKeepRules(p: Rule -> bool)
    ensures Messages(Keep(Rules, p)) ==
      MessageIf(p, TypeRule) + MessageIf(p, SeverityRule) + MessageIf(p, LocationRequiredRule)
      + MessageIf(p, LocationLengthRule) + MessageIf(p, DescriptionRule)
      + MessageIf(p, LatitudeRule) + MessageIf(p, LongitudeRule)
  {
    MessagesKeepSeven(Rules, p);
  }

  /** An error message is reported exactly when its rule fails. */
  lemma ErrorsForMembership(incident: Incident, r: Rule)
    ensures Message(r) in ErrorsFor(incident, Rules) <==> Fails(incident, r)
  {
    KeepSpec(Rules, FailsOn(incident));
    MessagesMember(Keep(Rules, FailsOn(incident)), r);
    EveryRuleListed(r);
  }

  /** The incident passes exactly when no rule rejects it. */
  lemma NoErrorsIffNoRuleFails(incident: Incident)
    ensures ErrorsFor(incident, Rules) == [] <==> forall r :: !Fails(incident, r)
  {
    if ErrorsFor(incident, Rules) == [] {
      forall r ensures !Fails(incident, r) {
        ErrorsForMembership(incident, r);
      }
    } else {
      ErrorsForMembership(incident, Keep(Rules, FailsOn(incident))[0]);
      KeepMembers(Rules, FailsOn(incident));
    }
  }

  /** The limits count UTF-16 units: 101 supplementary characters (emoji,
      say) already exceed the 200 location limit, and 501 the 1000
      description limit. */
  lemma SupplementaryCharactersCountTwice(loc: string, desc: string)
    requires |loc| == 101 && forall i :: 0 <= i < |loc| ==> Supplementary(loc[i])
    requires |desc| == 501 && forall i :: 0 <= i < |desc| ==> Supplementary(desc[i])
    ensures !LocationBlank(Some(loc)) && LocationOverLimit(Some(loc))
    ensures DescriptionOverLimit(Some(desc))
  {
    Utf16LengthCounts(loc);
    Utf16LengthCounts(desc);
    TrimEmpty(loc, JavaSpace);
    assert !JavaSpace(loc[0]);
  }

  /** "Location is required" and the length message never come together. */
  lemma LocationMessagesExclusive(incident: Incident)
    ensures !(Message(LocationRequiredRule) in ErrorsFor(incident, Rules)
              && Message(LocationLengthRule) in ErrorsFor(incident, Rules))
  {
    ErrorsForMembership(incident, LocationRequiredRule);
    ErrorsForMembership(incident, LocationLengthRule);
  }

  /** The reported rules are a subsequence of the rule list: each at most
      once, in the order the rules run. */
  lemma ErrorsForOrdered(incident: Incident)
    ensures IsSubsequence(Keep(Rules, FailsOn(incident)), Rules)
  {
    KeepOrdered(Rules, FailsOn(incident));
  }

  /** The message `r` contributes for the incident: its own if it fails. */
  function Verdict(incident: Incident, r: Rule): seq<string>
  {
    if Fails(incident, r) then [Message(r)] else []
  }

  /** What the seven rules report, in rule order. */
  function Reported(incident: Incident): seq<string>
  {
    Verdict(incident, TypeRule) + Verdict(incident, SeverityRule)
    + Verdict(incident, LocationRequiredRule) + Verdict(incident, LocationLengthRule)
    + Verdict(incident, DescriptionRule) + Verdict(incident, LatitudeRule)
    + Verdict(incident, LongitudeRule)
  }

  lemma ErrorsForRules(incident: Incident)
    ensures ErrorsFor(incident, Rules) == Reported(incident)
  {
    var p := FailsOn(incident);
    MessagesKeepRules(p);
    assert forall r :: MessageIf(p, r) == Verdict(incident, r);
  }

  // The six checks of `validateIncident`, one method per check, each
  // appending to the error list what its rule (or, for the location, its
  // two rules) contributes.

  method CheckType(incident: Incident, errors: seq<string>) returns (errors': seq<string>)
    ensures errors' == errors + Verdict(incident, TypeRule)
  {
    errors' := errors;
    if incident.incidentType.None? || Lower(incident.incidentType.value) !in IncidentTypes {
      errors' := errors' + [Message(TypeRule)];
    }
  }

  method CheckSeverity(incident: Incident, errors: seq<string>) returns (errors': seq<string>)
    ensures errors' == errors + Verdict(incident, SeverityRule)
  {
    errors' := errors;
    if incident.severity.None? || Lower(incident.severity.value) !in SeverityLevels {
      errors' := errors' + [Message(SeverityRule)];
    }
  }

  /** A blank location is reported as missing and its length is then not
      checked. */
  method CheckLocation(incident: Incident, errors: seq<string>) returns (errors': seq<string>)
    ensures errors' == errors + Verdict(incident, LocationRequiredRule) + Verdict(incident, LocationLengthRule)
  {
    errors' := errors;
    if incident.location.None? || JavaTrim(incident.location.value) == [] {
      errors' := errors' + [Message(LocationRequiredRule)];
    } else if Utf16Length(incident.location.value) > MaxLocationLength {
      errors' := errors' + [Message(LocationLengthRule)];
    }
  }

  method CheckDescription(incident: Incident, errors: seq<string>) returns (errors': seq<string>)
    ensures errors' == errors + Verdict(incident, DescriptionRule)
  {
    errors' := errors;
    if incident.description.Some? && Utf16Length(incident.description.value) > MaxDescriptionLength {
      errors' := errors' + [Message(DescriptionRule)];
    }
  }

  method CheckLatitude(incident: Incident, errors: seq<string>) returns (errors': seq<string>)
    ensures errors' == errors + Verdict(incident, LatitudeRule)
  {
    errors' := errors;
    if incident.latitude.Some? {
      if incident.latitude.value < -90.0 || incident.latitude.value > 90.0 {
        errors' := errors' + [Message(LatitudeRule)];
      }
    }
  }

  method CheckLongitude(incident: Incident, errors: seq<string>) returns (errors': seq<string>)
    ensures errors' == errors + Verdict(incident, LongitudeRule)
  {
    errors' := errors;
    if incident.longitude.Some? {
      if incident.longitude.value < -180.0 || incident.longitude.value > 180.0 {
        errors' := errors' + [Message(LongitudeRule)];
      }
    }
  }

  /** `validateIncident`: every check runs in turn and each failing rule
      adds its own message, so the errors are the messages of the failing
      rules in rule order, and the result is valid exactly when no rule
      failed. */
  method ValidateIncident(incident: Incident) returns (result: ValidationResult)
    ensures result.valid <==> result.errors == []
    ensures result.errors == ErrorsFor(incident, Rules)
  {
    var errors: seq<string> := [];
    errors := CheckType(incident, errors);
    assert errors == Verdict(incident, TypeRule);
    errors := CheckSeverity(incident, errors);
    errors := CheckLocation(incident, errors);
    errors := CheckDescription(incident, errors);
    errors := CheckLatitude(incident, errors);
    errors := CheckLongitude(incident, errors);
    ErrorsForRules(incident);
    result := ValidationResult(errors == [], errors);
  }

  /** `validateCoordinates`: the two coordinate rules on their own, with the
      same messages, in the same order, as `validateIncident`. */
  method ValidateCoordinates(latitude: Option<real>, longitude: Option<real>) returns (result: ValidationResult)
    ensures result.valid <==> LatitudeInRange(latitude) && LongitudeInRange(longitude)
    ensures result.errors ==
      (if LatitudeInRange(latitude) then [] else [Message(LatitudeRule)])
      + (if LongitudeInRange(longitude) then [] else [Message(LongitudeRule)])
  {
    var errors: seq<string> := [];
    if latitude.Some? && (latitude.value < -90.0 || latitude.value > 90.0) {
      errors := errors + [Message(LatitudeRule)];
    }
    if longitude.Some? && (longitude.value < -180.0 || longitude.value > 180.0) {
      errors := errors + [Message(LongitudeRule)];
    }
    result := ValidationResult(errors == [], errors);
  }

  /** The coordinate part of `validateIncident` is `validateCoordinates`:
      the full result holds each coordinate message exactly when the
      coordinate check alone reports it. */
  method CoordinateVerdictsAgree(incident: Incident) returns (full: ValidationResult, coords: ValidationResult)
    ensures forall r :: r in {LatitudeRule, LongitudeRule} ==>
      (Message(r) in full.errors <==> Message(r) in coords.errors)
  {
    full := ValidateIncident(incident);
    coords := ValidateCoordinates(incident.latitude, incident.longitude);
    ErrorsForMembership(incident, LatitudeRule);
    ErrorsForMembership(incident, LongitudeRule);
    MessageInjective(LatitudeRule, LongitudeRule);
  }

  /** Type and severity checks ignore case. */
  lemma CaseInsensitiveDomains(s: string)
    ensures TypeAccepted(Some(s)) <==> TypeAccepted(Some(Lower(s)))
    ensures SeverityAccepted(Some(s)) <==> SeverityAccepted(Some(Lower(s)))
  {
    LowerIdempotent(s);
  }

  predicate NotAngleBracket(c: char)
  {
    c != '<' && c != '>'
  }

  /** `sanitizeString`: "" for null; otherwise the Java-trimmed input with
      every '<' and '>' removed. */
  function SanitizeString(input: Option<string>): (r: string)
    ensures input.None? ==> r == ""
    ensures '<' !in r && '>' !in r
    ensures input.Some? ==> |r| <= |input.value|
  {
    if input.None? then ""
    else
      var trimmed := JavaTrim(input.value);
      KeepMembers(trimmed, NotAngleBracket);
      Keep(trimmed, NotAngleBracket)
  }

  /** Sanitising drops nothing but angle brackets and the trimmed ends, and
      keeps the order of what remains. */
  lemma SanitizeKeepsText(s: string)
    ensures IsSubsequence(SanitizeString(Some(s)), JavaTrim(s))
    ensures forall c :: NotAngleBracket(c) ==> multiset(SanitizeString(Some(s)))[c] == multiset(JavaTrim(s))[c]
  {
    KeepSpec(JavaTrim(s), NotAngleBracket);
  }

  /** A bracket in front of a blank: the bracket goes, the blank stays. */
  lemma SanitizeBracketThenBlank(c: char)
    requires NotAngleBracket(c) && !JavaSpace(c)
    ensures SanitizeString(Some(['<', ' ', c])) == [' ', c]
  {
    var bracket := ['<'];
    var front := bracket + [' '];
    var s := front + [c];
    assert s == ['<', ' ', c];
    TrimUnchanged(s, JavaSpace);
    KeepSingle('<', NotAngleBracket);
    KeepAppend(bracket, ' ', NotAngleBracket);
    KeepAppend(front, c, NotAngleBracket);
    assert Keep(s, NotAngleBracket) == [' '] + [c];
  }

  /** A leading blank is trimmed. */
  lemma SanitizeLeadingBlank(c: char)
    requires NotAngleBracket(c) && !JavaSpace(c)
    ensures SanitizeString(Some([' ', c])) == [c]
  {
    var s := [' ', c];
    assert s[1..] == [c];
    assert DropLeading(s, JavaSpace) == [c];
    assert DropTrailing([c], JavaSpace) == [c];
    KeepAppend([], c, NotAngleBracket);
  }

  /** The brackets are removed after trimming, so the result can start with
      a blank and sanitising it again changes it. */
  lemma SanitizeNotIdempotent(c: char)
    requires NotAngleBracket(c) && !JavaSpace(c)
    ensures SanitizeString(Some(SanitizeString(Some(['<', ' ', c])))) != SanitizeString(Some(['<', ' ', c]))
  {
    SanitizeBracketThenBlank(c);
    SanitizeLeadingBlank(c);
  }

  /** The character class `[A-Za-z0-9+_.-]`. */
  predicate EmailLocalChar(c: char)
  {
    ('A' <= c <= 'Z') || ('a' <= c <= 'z') || ('0' <= c <= '9') || c == '+' || c == '_' || c == '.' || c == '-'
  }

  /** The characters that a regular-expression `.` does not match in Java. */
  predicate LineTerminator(c: char)
  {
    c == '\n' || c == '\r' || c as int == 0x85 || c as int == 0x2028 || c as int == 0x2029
  }

  /** Length of the longest prefix drawn from the local-part class. */
  function LocalPartLength(s: string): (k: nat)
    ensures k <= |s|
    ensures forall i :: 0 <= i < k ==> EmailLocalChar(s[i])
    ensures k == |s| || !EmailLocalChar(s[k])
  {
    if s != [] && EmailLocalChar(s[0]) then 1 + LocalPartLength(s[1..]) else 0
  }

  /** `^[A-Za-z0-9+_.-]+@(.+)$` matched against the whole input. The class
      excludes '@', so the greedy local part ends where the '@' must be. */
  predicate EmailPatternMatches(s: string)
  {
    var k := LocalPartLength(s);
    0 < k && k + 1 < |s| && s[k] == '@' && forall i :: k < i < |s| ==> !LineTerminator(s[i])
  }

  /** `validateEmail`. */
  function ValidateEmail(email: Option<string>): bool
  {
    email.Some? && JavaTrim(email.value) != [] && EmailPatternMatches(email.value)
  }

  /** `s` splits at index `i`, its first '@', into a non-empty local part
      drawn from the class and a non-empty rest without line terminators. */
  predicate SplitsAsEmail(s: string, i: int)
  {
    0 < i && i + 1 < |s| && s[i] == '@'
    && (forall j :: 0 <= j < i ==> EmailLocalChar(s[j]))
    && (forall j :: i < j < |s| ==> !LineTerminator(s[j]))
  }

  lemma ValidateEmailSpec(email: Option<string>)
    ensures ValidateEmail(email) <==> email.Some? && exists i :: SplitsAsEmail(email.value, i)
  {
    if email.Some? {
      var s := email.value;
      var k := LocalPartLength(s);
      if EmailPatternMatches(s) {
        assert SplitsAsEmail(s, k);
        TrimEmpty(s, JavaSpace);
      }
      if i :| SplitsAsEmail(s, i) {
        assert !EmailLocalChar(s[i]);
        assert k == i;
        TrimEmpty(s, JavaSpace);
      }
    }
  }
}
