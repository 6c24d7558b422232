/**
 * Concrete submissions and field values, with the outcome the validator gives
 * for each. The small lemmas that evaluate a predicate on one literal are
 * stepping stones: each keeps the solver's view of a literal string short.
 */
module ValidationExamples {
  import opened Wrappers
  import opened JsString
  import opened Validation

  const Valid := ContactFormData("Jo", "a@b.co", "1234567890", "Hello there!")

  /** An all-empty submission gets the four "required" messages and is not
      valid. */
  lemma EmptyFormExample()
    ensures Validate(ContactFormData("", "", "", "")).errors ==
      ValidationErrors(Some(NameRequired), Some(EmailRequired), Some(PhoneRequired), Some(MessageRequired), None)
    ensures !Validate(ContactFormData("", "", "", "")).isValid
  {
  }

  lemma ValidName()
    ensures IsNotEmpty("Jo") && HasMinLength("Jo", 2)
  {
  }

  lemma ValidEmailAddress()
    ensures IsValidEmail("a@b.co")
  {
    var email := "a@b.co";
    assert IndexOf(email, '@') == 1;
    assert email[2..][1] == '.';
  }

  lemma ValidPhoneNumber()
    ensures IsValidPhone("1234567890")
  {
  }

  lemma ValidMessage()
    ensures IsNotEmpty("Hello there!") && HasMinLength("Hello there!", 10)
  {
  }

  /** The shortest name, a short email, a ten-digit phone number and a
      twelve-character message pass, and the error record stays empty. */
  lemma ValidFormExample()
    ensures Validate(Valid).isValid
    ensures Validate(Valid).errors == NoErrors
  {
    ValidName();
    ValidEmailAddress();
    ValidPhoneNumber();
    ValidMessage();
    ValidIffAllRulesPass(Valid);
    ValidIffNoErrors(Valid);
  }

  lemma OneLetterName()
    ensures FieldError(Name, "J") == Some(NameTooShort)
  {
  }

  /** A one-letter name fails the minimum length and touches no other field. */
  lemma ShortNameExample()
    ensures Validate(With(Valid, Name, "J")).errors == NoErrors.(name := Some(NameTooShort))
    ensures !Validate(With(Valid, Name, "J")).isValid
  {
    var form := With(Valid, Name, "J");
    ValidFormExample();
    OneLetterName();
    ValidateEntries(form);
    ValidateEntries(Valid);
    forall g | g != Name ensures Entry(Validate(form).errors, g) == None {
      FieldIndependence(Valid, Name, "J", g);
    }
    ValidIffNoErrors(form);
  }

  /** A value with no '@' is reported as an invalid email address. */
  lemma BadEmailExample()
    ensures FieldError(Email, "not-an-email") == Some(EmailInvalid)
  {
    NotEmptyIff("not-an-email");
    assert !IsWhitespace("not-an-email"[0]);
    assert '@' !in "not-an-email";
  }

  /** Five digits are too few for a phone number. */
  lemma ShortPhoneExample()
    ensures FieldError(Phone, "12345") == Some(PhoneInvalid)
  {
  }

  lemma FormattedPhoneSplit()
    ensures "+1 (234) 567-8901" == "+1 (2" + "34) 5" + "67-89" + "01"
  {
  }

  lemma FormattedPhoneDigits()
    ensures KeepDigits("+1 (2" + "34) 5" + "67-89" + "01") == "12345678901"
  {
    var p1, p2, p3, p4 := "+1 (2", "34) 5", "67-89", "01";
    assert KeepDigits(p1) == "12";
    assert KeepDigits(p2) == "345";
    assert KeepDigits(p3) == "6789";
    assert KeepDigits(p4) == "01";
    KeepDigitsAppend(p1, p2);
    KeepDigitsAppend(p1 + p2, p3);
    KeepDigitsAppend(p1 + p2 + p3, p4);
  }

  lemma FormattedPhoneValid()
    ensures IsValidPhone("+1 (234) 567-8901")
  {
    FormattedPhoneSplit();
    FormattedPhoneDigits();
    assert Utf16Length("12345678901") == 11;
  }

  /** Punctuation and spaces are ignored: eleven digits remain, which pass. */
  lemma FormattedPhoneExample()
    ensures FieldError(Phone, "+1 (234) 567-8901") == None
  {
    FormattedPhoneValid();
    SecondRuleImpliesNotEmpty("+1 (234) 567-8901");
  }

  /** The minimum length counts trailing white space, and a character outside
      the Basic Multilingual Plane counts twice; "" and white space only are
      empty. */
  lemma MinLengthExamples()
    ensures HasMinLength("a ", 2)
    ensures HasMinLength("\U{1F600}", 2)
    ensures !HasMinLength("", 0)
    ensures !IsNotEmpty(" \t\n")
  {
  }

  /** The local part and the domain may both contain dots. */
  lemma DottedEmailExample()
    ensures IsValidEmail("a.b@c.d.e")
  {
    assert "a.b@c.d.e" == "a.b" + "@" + "c.d" + "." + "e";
    EmailFromParts("a.b", "c.d", "e");
  }

  /** A second '@' is rejected. */
  lemma TwoAtsExample()
    ensures !IsValidEmail("a@b@c.de")
  {
  }

  /** The '@' needs text before it, and the '.' text on both sides. */
  lemma MissingPartsExample()
    ensures !IsValidEmail("@b.co")
    ensures !IsValidEmail("a@.co")
    ensures !IsValidEmail("a@b.")
  {
  }

  /** White space anywhere is rejected. */
  lemma SpaceInEmailExample()
    ensures !IsValidEmail("a b@c.de")
  {
  }

}
