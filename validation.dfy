/**
 * The contact-form validator: four field predicates and the function that
 * applies them to a submission, producing one error message per failing field
 * and an overall verdict.
 */
module Validation {
  import opened Wrappers
  import opened JsString

  /** The four text fields of a contact-form submission. */
  datatype ContactFormData = ContactFormData(name: string, email: string, phone: string, message: string)

  /** The error record: one optional message per property. `submit` is
      reserved for the caller (a failed delivery) and never set here. */
  datatype ValidationErrors = ValidationErrors(
    name: Option<string>,
    email: Option<string>,
    phone: Option<string>,
    message: Option<string>,
    submit: Option<string>)

  datatype ValidationResult = ValidationResult(isValid: bool, errors: ValidationErrors)

  const NoErrors := ValidationErrors(None, None, None, None, None)

  const NameRequired := "Name is required"
  const NameTooShort := "Name must be at least 2 characters"
  const EmailRequired := "Email is required"
  const EmailInvalid := "Please enter a valid email address"
  const PhoneRequired := "Phone number is required"
  const PhoneInvalid := "Please enter a valid phone number"
  const MessageRequired := "Message is required"
  const MessageTooShort := "Message must be at least 10 characters"

  // ---------------------------------------------------------------------------
  // Field predicates
  // ---------------------------------------------------------------------------

  /** The character class `[^\s@]`. */
  predicate IsEmailChar(c: char) {
    !IsWhitespace(c) && c != '@'
  }

  predicate AllEmailChars(s: string) {
    forall i :: 0 <= i < |s| ==> IsEmailChar(s[i])
  }

  /** What `^[^\s@]+@[^\s@]+\.[^\s@]+$` matches, read off the regular
      expression: three non-empty runs of `[^\s@]`, separated by the '@' at
      index at and the '.' at index dot. */
  ghost predicate MatchesEmailPattern(email: string) {
    exists at, dot ::
      && 0 < at && at + 1 < dot && dot + 1 < |email|
      && email[at] == '@' && email[dot] == '.'
      && AllEmailChars(email[..at])
      && AllEmailChars(email[at + 1..dot])
      && AllEmailChars(email[dot + 1..])
  }

  /** Index of the first c in s, or -1 when there is none. */
  function IndexOf(s: string, c: char): (i: int)
    ensures -1 <= i < |s|
    ensures i == -1 <==> c !in s
    ensures 0 <= i ==> s[i] == c && c !in s[..i]
  {
    if s == [] then -1
    else if s[0] == c then 0
    else
      var j := IndexOf(s[1..], c);
      assert s == [s[0]] + s[1..];
      if j == -1 then -1
      else
        assert s[..j + 1] == [s[0]] + s[1..][..j];
        j + 1
  }

  /** s has a '.' with at least one character on each side. */
  predicate HasInnerDot(s: string) {
    exists k :: 0 < k < |s| - 1 && s[k] == '.'
  }

  /** `isValidEmail`: no white space anywhere, a single '@' that is not the
      first character, and after it a '.' that is neither first nor last. */
  predicate IsValidEmail(email: string) {
    var at := IndexOf(email, '@');
    && (forall i :: 0 <= i < |email| ==> !IsWhitespace(email[i]))
    && 0 < at
    && '@' !in email[at + 1..]
    && HasInnerDot(email[at + 1..])
  }

  /** `isValidPhone`: the JavaScript length of the digits of phone is between
      10 and 15. */
  predicate IsValidPhone(phone: string) {
    var cleaned := KeepDigits(phone);
    10 <= Utf16Length(cleaned) <= 15
  }

  /** `isNotEmpty`: the value is truthy (not "") and something is left after
      trimming. */
  predicate IsNotEmpty(value: string) {
    value != [] && Utf16Length(Trim(value)) > 0
  }

  /** `hasMinLength`: the value is truthy (not "") and its untrimmed
      JavaScript length is at least minLength. */
  predicate HasMinLength(value: string, minLength: int) {
    value != [] && Utf16Length(value) >= minLength
  }

  // ---------------------------------------------------------------------------
  // Properties of the field predicates
  // ---------------------------------------------------------------------------

  /** The explicit email check accepts exactly what the regular expression
      matches. */
  lemma EmailMatchesPattern(email: string)
    ensures IsValidEmail(email) <==> MatchesEmailPattern(email)
  {
    if IsValidEmail(email) {
      ValidEmailMatches(email);
    }
    if MatchesEmailPattern(email) {
      var at, dot :|
        && 0 < at && at + 1 < dot && dot + 1 < |email|
        && email[at] == '@' && email[dot] == '.'
        && AllEmailChars(email[..at])
        && AllEmailChars(email[at + 1..dot])
        && AllEmailChars(email[dot + 1..]);
      MatchIsValidEmail(email, at, dot);
    }
  }

  lemma ValidEmailMatches(email: string)
    requires IsValidEmail(email)
    ensures MatchesEmailPattern(email)
  {
    var at := IndexOf(email, '@');
    var rest := email[at + 1..];
    var k :| 0 < k < |rest| - 1 && rest[k] == '.';
    var dot := at + 1 + k;
    assert email[dot] == '.';
    assert AllEmailChars(email[..at]) by {
      forall i | 0 <= i < at ensures IsEmailChar(email[..at][i]) {
        assert email[..at][i] == email[i];
      }
    }
    assert forall i :: 0 <= i < |rest| ==> rest[i] == email[at + 1 + i];
    var domain, tld := email[at + 1..dot], email[dot + 1..];
    assert AllEmailChars(domain) by {
      forall i | 0 <= i < |domain| ensures IsEmailChar(domain[i]) {
        assert domain[i] == rest[i];
      }
    }
    assert AllEmailChars(tld) by {
      forall i | 0 <= i < |tld| ensures IsEmailChar(tld[i]) {
        assert tld[i] == rest[k + 1 + i];
      }
    }
  }

  lemma MatchIsValidEmail(email: string, at: int, dot: int)
    requires 0 < at && at + 1 < dot && dot + 1 < |email|
    requires email[at] == '@' && email[dot] == '.'
    requires AllEmailChars(email[..at])
    requires AllEmailChars(email[at + 1..dot])
    requires AllEmailChars(email[dot + 1..])
    ensures IsValidEmail(email)
  {
    assert forall i :: 0 <= i < at ==> email[i] == email[..at][i];
    assert forall i :: at < i < dot ==> email[i] == email[at + 1..dot][i - at - 1];
    assert forall i :: dot < i < |email| ==> email[i] == email[dot + 1..][i - dot - 1];
    assert '@' !in email[..at];
    assert IndexOf(email, '@') == at;
    var rest := email[at + 1..];
    assert forall i :: 0 <= i < |rest| ==> rest[i] == email[at + 1 + i];
    assert rest[dot - at - 1] == '.';
  }

  /** Any three non-empty runs of `[^\s@]` joined by '@' and '.' form a valid
      email address. */
  lemma EmailFromParts(local: string, domain: string, tld: string)
    requires local != [] && domain != [] && tld != []
    requires AllEmailChars(local) && AllEmailChars(domain) && AllEmailChars(tld)
    ensures IsValidEmail(local + "@" + domain + "." + tld)
  {
    var email := local + "@" + domain + "." + tld;
    var at, dot := |local|, |local| + 1 + |domain|;
    assert email[..at] == local;
    assert email[at + 1..dot] == domain;
    assert email[dot + 1..] == tld;
    MatchIsValidEmail(email, at, dot);
  }

  /** A valid email contains '@' exactly once, has no white space, and the
      part after the '@' is some x.y with x and y non-empty. */
  lemma ValidEmailShape(email: string)
    requires IsValidEmail(email)
    ensures multiset(email)['@'] == 1
    ensures forall i :: 0 <= i < |email| ==> !IsWhitespace(email[i])
    ensures exists at :: 0 < at < |email| && email[at] == '@' && HasInnerDot(email[at + 1..])
  {
    var at := IndexOf(email, '@');
    assert email == email[..at] + [email[at]] + email[at + 1..];
    assert multiset(email) == multiset(email[..at]) + multiset{email[at]} + multiset(email[at + 1..]);
  }

  /** Characters that are not ASCII digits never affect the phone check. */
  lemma PhoneIgnoresNonDigits(a: string, c: char, b: string)
    requires !IsAsciiDigit(c)
    ensures IsValidPhone(a + [c] + b) <==> IsValidPhone(a + b)
  {
    KeepDigitsAppend(a + [c], b);
    KeepDigitsAppend(a, [c]);
    KeepDigitsAppend(a, b);
    assert [c][1..] == [];
    assert KeepDigits([c]) == [];
    assert KeepDigits(a + [c] + b) == KeepDigits(a + b);
  }

  /** A phone number is valid exactly when it holds 10 to 15 ASCII digits. */
  lemma PhoneDigitCount(phone: string)
    ensures IsValidPhone(phone) <==> 10 <= |DigitPositions(phone)| <= 15
  {
    KeepDigitsCounts(phone);
    var cleaned := KeepDigits(phone);
    assert IsBmp(cleaned) by {
      forall i | 0 <= i < |cleaned| ensures cleaned[i] < '\U{1_0000}' {
        assert IsAsciiDigit(cleaned[i]);
      }
    }
  }

  /** `isNotEmpty` fails exactly on strings made of white space only, "" among
      them. */
  lemma NotEmptyIff(value: string)
    ensures IsNotEmpty(value) <==> exists i :: 0 <= i < |value| && !IsWhitespace(value[i])
  {
  }

  /** `hasMinLength` counts white space too, fails on "" whatever the bound,
      and on text in the Basic Multilingual Plane is a plain length check. */
  lemma MinLengthIsUntrimmed(value: string, minLength: int)
    ensures !HasMinLength([], minLength)
    ensures IsBmp(value) ==> (HasMinLength(value, minLength) <==> value != [] && |value| >= minLength)
    ensures HasMinLength(value, minLength) && minLength <= 0 <==> value != [] && minLength <= 0
  {
  }

  /** A valid email or phone number is never blank, so for those two fields
      the second rule alone decides whether the field has an entry. */
  lemma SecondRuleImpliesNotEmpty(v: string)
    ensures IsValidEmail(v) ==> IsNotEmpty(v)
    ensures IsValidPhone(v) ==> IsNotEmpty(v)
  {
    if IsValidEmail(v) {
      assert !IsWhitespace(v[0]);
    }
    if IsValidPhone(v) {
      var cleaned := KeepDigits(v);
      KeepDigitsMultiset(v);
      assert cleaned[0] in multiset(cleaned);
      assert cleaned[0] in v;
      var i :| 0 <= i < |v| && v[i] == cleaned[0];
      assert !IsWhitespace(v[i]);
    }
  }

  // ---------------------------------------------------------------------------
  // The validator
  // ---------------------------------------------------------------------------

  /** The four fields, in the order the validator checks them. */
  datatype Field = Name | Email | Phone | Message

  function Value(form: ContactFormData, f: Field): string {
    match f
    case Name => form.name
    case Email => form.email
    case Phone => form.phone
    case Message => form.message
  }

  /** form with field f replaced by v. */
  function With(form: ContactFormData, f: Field, v: string): (r: ContactFormData)
    ensures Value(r, f) == v
    ensures forall g :: g != f ==> Value(r, g) == Value(form, g)
  {
    match f
    case Name => form.(name := v)
    case Email => form.(email := v)
    case Phone => form.(phone := v)
    case Message => form.(message := v)
  }

  function Entry(errors: ValidationErrors, f: Field): Option<string> {
    match f
    case Name => errors.name
    case Email => errors.email
    case Phone => errors.phone
    case Message => errors.message
  }

  /** The message of a field's first rule, "not blank". */
  function RequiredMessage(f: Field): string {
    match f
    case Name => NameRequired
    case Email => EmailRequired
    case Phone => PhoneRequired
    case Message => MessageRequired
  }

  /** The message of a field's second rule. */
  function InvalidMessage(f: Field): string {
    match f
    case Name => NameTooShort
    case Email => EmailInvalid
    case Phone => PhoneInvalid
    case Message => MessageTooShort
  }

  /** A field's second rule, checked only once the first has passed. */
  predicate SecondRule(f: Field, v: string) {
    match f
    case Name => HasMinLength(v, 2)
    case Email => IsValidEmail(v)
    case Phone => IsValidPhone(v)
    case Message => HasMinLength(v, 10)
  }

  /** The entry a field with value v gets: the message of its first failing
      rule, or none. */
  function FieldError(f: Field, v: string): Option<string> {
    if !IsNotEmpty(v) then Some(RequiredMessage(f))
    else if !SecondRule(f, v) then Some(InvalidMessage(f))
    else None
  }

  /** A property of the error record: one per field, and `submit`. */
  datatype Key = FieldKey(field: Field) | SubmitKey

  /** `Object.keys(errors)`: the properties that are set. */
  function Keys(errors: ValidationErrors): set<Key> {
    (if errors.name.Some? then {FieldKey(Name)} else {})
    + (if errors.email.Some? then {FieldKey(Email)} else {})
    + (if errors.phone.Some? then {FieldKey(Phone)} else {})
    + (if errors.message.Some? then {FieldKey(Message)} else {})
    + (if errors.submit.Some? then {SubmitKey} else {})
  }

  /** `validateContactForm` as a value: each field's entry, and the verdict
      from the number of keys. */
  function Validate(form: ContactFormData): ValidationResult {
    var errors := ValidationErrors(
      FieldError(Name, form.name),
      FieldError(Email, form.email),
      FieldError(Phone, form.phone),
      FieldError(Message, form.message),
      None);
    ValidationResult(|Keys(errors)| == 0, errors)
  }

  /** `validateContactForm` as written: a local error record, filled in field
      by field through four if/else-if chains, then the key count. */
  method ValidateContactForm(formData: ContactFormData) returns (result: ValidationResult)
    ensures result == Validate(formData)
    ensures result.isValid <==> result.errors == NoErrors
    ensures result.errors.submit == None
  {
    var errors := NoErrors;

    if !IsNotEmpty(formData.name) {
      errors := errors.(name := Some(NameRequired));
    } else if !HasMinLength(formData.name, 2) {
      errors := errors.(name := Some(NameTooShort));
    }

    if !IsNotEmpty(formData.email) {
      errors := errors.(email := Some(EmailRequired));
    } else if !IsValidEmail(formData.email) {
      errors := errors.(email := Some(EmailInvalid));
    }

    if !IsNotEmpty(formData.phone) {
      errors := errors.(phone := Some(PhoneRequired));
    } else if !IsValidPhone(formData.phone) {
      errors := errors.(phone := Some(PhoneInvalid));
    }

    if !IsNotEmpty(formData.message) {
      errors := errors.(message := Some(MessageRequired));
    } else if !HasMinLength(formData.message, 10) {
      errors := errors.(message := Some(MessageTooShort));
    }

    result := ValidationResult(|Keys(errors)| == 0, errors);
    KeysEmptyIff(errors);
  }

  // ---------------------------------------------------------------------------
  // Properties of the validator
  // ---------------------------------------------------------------------------

  /** The error record has no keys exactly when none of its five properties is
      set. */
  lemma KeysEmptyIff(errors: ValidationErrors)
    ensures |Keys(errors)| == 0 <==> errors == NoErrors
  {
  }

  /** The rule chain of one field: "required" exactly when the value is blank,
      the second message exactly when it is not blank but fails the second
      rule, and no entry otherwise. */
  lemma FieldErrorCases(f: Field, v: string)
    ensures FieldError(f, v) == Some(RequiredMessage(f)) <==> !IsNotEmpty(v)
    ensures FieldError(f, v) == Some(InvalidMessage(f)) <==> IsNotEmpty(v) && !SecondRule(f, v)
    ensures FieldError(f, v) == None <==> IsNotEmpty(v) && SecondRule(f, v)
  {
  }

  /** Every field is validated, and its entry is given by its own rule chain;
      `submit` is never set. */
  lemma ValidateEntries(form: ContactFormData)
    ensures forall f :: Entry(Validate(form).errors, f) == FieldError(f, Value(form, f))
    ensures Validate(form).errors.submit == None
  {
    forall f ensures Entry(Validate(form).errors, f) == FieldError(f, Value(form, f)) {
      match f
      case Name =>
      case Email =>
      case Phone =>
      case Message =>
    }
  }

  /** A result is valid exactly when the error record is empty. */
  lemma ValidIffNoErrors(form: ContactFormData)
    ensures Validate(form).isValid <==> Validate(form).errors == NoErrors
  {
  }

  /** A submission is valid exactly when every rule of every field passes. */
  lemma ValidIffAllRulesPass(form: ContactFormData)
    ensures Validate(form).isValid <==>
      && IsNotEmpty(form.name) && HasMinLength(form.name, 2)
      && IsValidEmail(form.email)
      && IsValidPhone(form.phone)
      && IsNotEmpty(form.message) && HasMinLength(form.message, 10)
  {
    ValidIffNoErrors(form);
    SecondRuleImpliesNotEmpty(form.email);
    SecondRuleImpliesNotEmpty(form.phone);
  }

  /** A field's entry depends on that field's value alone: changing another
      field never changes it. */
  lemma FieldIndependence(form: ContactFormData, f: Field, v: string, g: Field)
    requires g != f
    ensures Entry(Validate(With(form, f, v)).errors, g) == Entry(Validate(form).errors, g)
  {
  }

  /** `Object.keys` lists exactly the properties that are set. */
  lemma KeysOfErrors(errors: ValidationErrors)
    ensures forall f :: FieldKey(f) in Keys(errors) <==> Entry(errors, f).Some?
    ensures SubmitKey in Keys(errors) <==> errors.submit.Some?
    ensures errors.submit == None ==> |Keys(errors)| <= 4
  {
  }

  /** The error record of a result has a key for each failing field and for
      nothing else, so never more than four. */
  lemma KeysOfResult(form: ContactFormData)
    ensures forall f :: FieldKey(f) in Keys(Validate(form).errors) <==> FieldError(f, Value(form, f)).Some?
    ensures SubmitKey !in Keys(Validate(form).errors)
    ensures |Keys(Validate(form).errors)| <= 4
  {
    ValidateEntries(form);
    KeysOfErrors(Validate(form).errors);
  }

}
