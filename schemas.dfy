/** The field constraints of a user-creation request: the name must be 3 to 35
    characters of ASCII letters and whitespace, and the email must not be
    empty. Request validation reports every failing field, not just the first. */
module Schemas {

  const NameMinLength: nat := 3
  const NameMaxLength: nat := 35
  const EmailMinLength: nat := 1

  /** The fields of a user-creation request. */
  datatype Field = Name | Email

  predicate IsAsciiLetter(c: char)
  {
    'a' <= c <= 'z' || 'A' <= c <= 'Z'
  }

  /** `\s` in a Unicode-aware regular expression: the characters with the
      Unicode White_Space property. */
  predicate IsWhitespace(c: char)
  {
    '\t' <= c <= '\r' || c == ' ' || c == '\U{0085}' || c == '\U{00A0}' || c == '\U{1680}'
    || '\U{2000}' <= c <= '\U{200A}' || c == '\U{2028}' || c == '\U{2029}'
    || c == '\U{202F}' || c == '\U{205F}' || c == '\U{3000}'
  }

  /** The character class `[a-zA-Z\s]`. */
  predicate IsNameChar(c: char)
  {
    IsAsciiLetter(c) || IsWhitespace(c)
  }

  /** Whether the whole of `s` matches `^[a-zA-Z\s]+$`: one class character
      followed by zero or more, up to the end of the input. */
  function MatchesNamePattern(s: string): (b: bool)
    ensures b <==> |s| >= 1 && forall i :: 0 <= i < |s| ==> IsNameChar(s[i])
  {
    |s| >= 1 && IsNameChar(s[0]) && (|s| == 1 || MatchesNamePattern(s[1..]))
  }

  /** The `name` constraint: the length bounds and the pattern. */
  predicate ValidName(name: string)
  {
    NameMinLength <= |name| <= NameMaxLength && MatchesNamePattern(name)
  }

  /** The part of the `email` constraint that does not depend on the email
      syntax check: at least one character. */
  predicate ValidEmailLength(email: string)
  {
    |email| >= EmailMinLength
  }

  /** The fields that fail validation, in declaration order; every failing
      field is reported. */
  function ValidationErrors(name: string, email: string): (errors: seq<Field>)
    ensures Name in errors <==> !ValidName(name)
    ensures Email in errors <==> !ValidEmailLength(email)
    ensures |errors| <= 2
  {
    (if ValidName(name) then [] else [Name]) + (if ValidEmailLength(email) then [] else [Email])
  }

  /** A request is accepted when no field fails. */
  predicate Accepted(name: string, email: string)
  {
    ValidationErrors(name, email) == []
  }

  /** A name is valid exactly when its length is within bounds and every
      character is an ASCII letter or whitespace. */
  lemma ValidNameIff(name: string)
    ensures ValidName(name)
        <==> 3 <= |name| <= 35 && forall i :: 0 <= i < |name| ==> IsNameChar(name[i])
  {
  }

  /** Acceptance needs both a valid name and a non-empty email. */
  lemma AcceptedIff(name: string, email: string)
    ensures Accepted(name, email) <==> ValidName(name) && |email| >= 1
  {
    var errors := ValidationErrors(name, email);
    if !ValidName(name) {
      assert Name in errors;
    }
    if !ValidEmailLength(email) {
      assert Email in errors;
    }
  }

  /** "Invalid123" is refused for its digits, and the error names the field. */
  lemma DigitsRejected(email: string)
    ensures !ValidName("Invalid123")
    ensures Name in ValidationErrors("Invalid123", email)
  {
    assert !IsNameChar("Invalid123"[7]);
  }

  /** "@Invalid!" is refused for its special characters. */
  lemma SpecialCharactersRejected(email: string)
    ensures !ValidName("@Invalid!")
    ensures !Accepted("@Invalid!", email)
  {
    assert !IsNameChar("@Invalid!"[0]);
    assert Name in ValidationErrors("@Invalid!", email);
  }

  /** "Valid Name" is accepted: an embedded space is allowed. */
  lemma EmbeddedSpaceAccepted()
    ensures ValidName("Valid Name")
    ensures Accepted("Valid Name", "valid@example.com")
  {
    assert forall i :: 0 <= i < |"Valid Name"| ==> IsNameChar("Valid Name"[i]);
  }

  /** Empty fields: both are reported when both are empty, and each is
      refused on its own. */
  lemma EmptyFieldsRejected()
    ensures ValidationErrors("", "") == [Name, Email]
    ensures ValidationErrors("Valid Name", "") == [Email]
    ensures ValidationErrors("", "valid@example.com") == [Name]
  {
    EmbeddedSpaceAccepted();
  }
}
