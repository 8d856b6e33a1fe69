/**
 * Concrete inputs for the contact form's two patterns and its validator.
 */
module ContactExamples {
  import opened Options
  import opened Text
  import opened Patterns
  import opened ContactForm
  import opened ContactSubmit

  // ---------------------------------------------------------------------------
  // The phone expression
  // ---------------------------------------------------------------------------

  lemma PhoneWithAreaCodeInParentheses()
    ensures TestPhone("(647) 971-6235")
  {
  }

  lemma PhoneWithDashes()
    ensures TestPhone("647-971-6235")
  {
  }

  lemma PhoneWithDots()
    ensures TestPhone("647.971.6235")
  {
  }

  lemma PhoneWithSpaces()
    ensures TestPhone("647 971 6235")
  {
  }

  lemma PhoneDigitsOnly()
    ensures TestPhone("6479716235")
  {
  }

  /** The two parentheses are optional independently of each other, so an
      unbalanced one is accepted. */
  lemma UnbalancedParenthesisAccepted()
    ensures TestPhone("(6479716235")
  {
  }

  /** Too few digits, two separators in a row, or a country code: rejected. */
  lemma MalformedPhonesRejected()
    ensures !TestPhone("12345")
    ensures !TestPhone("647--971-6235")
    ensures !TestPhone("+1 647-971-6235")
  {
  }

  // ---------------------------------------------------------------------------
  // The email expression
  // ---------------------------------------------------------------------------

  lemma PlainEmailAccepted()
    ensures TestEmail("jane@example.com")
  {
    EmailOfParts("jane", "example", "com");
    assert "jane" + "@" + "example" + "." + "com" == "jane@example.com";
  }

  /** The domain may itself hold dots: `[^\s@]+` matches them. */
  lemma DottedDomainAccepted()
    ensures TestEmail("a@b.c.d")
  {
    EmailOfParts("a", "b.c", "d");
    assert "a" + "@" + "b.c" + "." + "d" == "a@b.c.d";
  }

  /** No '@', or a second one: rejected. */
  lemma EmailsWithoutOneAtRejected()
    ensures !TestEmail("bad")
    ensures !TestEmail("a@b@c.d")
  {
    assert "a@b@c.d"[2..][1] == '@';
  }

  /** A space anywhere: rejected. */
  lemma EmailWithSpaceRejected()
    ensures !TestEmail("jane doe@example.com")
  {
    assert "jane doe@example.com"[4] == ' ';
  }

  // ---------------------------------------------------------------------------
  // Whole forms
  // ---------------------------------------------------------------------------

  const Jane: FormData := FormData("Jane", "Doe", "647-971-6235", "jane@example.com", "Hello, I would like to connect.")

  lemma JaneNamesPass()
    ensures FieldError(FirstName, Jane.firstName).None?
    ensures FieldError(LastName, Jane.lastName).None?
  {
    assert !IsWs(Jane.firstName[0]) && !IsWs(Jane.lastName[0]);
  }

  lemma JaneMessagePasses()
    ensures FieldError(Message, Jane.message).None?
  {
    assert !IsWs(Jane.message[0]) && !IsWs(Jane.message[|Jane.message| - 1]);
  }

  lemma JanePhonePasses()
    ensures FieldError(Phone, Jane.phone).None?
  {
    PhoneWithDashes();
    assert !IsWs(Jane.phone[0]);
  }

  lemma JaneEmailPasses()
    ensures FieldError(Email, Jane.email).None?
  {
    PlainEmailAccepted();
    assert !IsWs(Jane.email[0]);
  }

  /** A correctly filled-in form validates with no errors at all. */
  lemma JaneIsValid()
    ensures Validate(Jane) == map[]
  {
    JaneNamesPass();
    JaneMessagePasses();
    JanePhonePasses();
    JaneEmailPasses();
    ValidateEmptyIffAllPass(Jane);
  }

  const Sloppy: FormData := FormData("A", "B", "123", "bad", "short")

  /** Names of one letter pass. */
  lemma SloppyNamesPass()
    ensures FieldError(FirstName, Sloppy.firstName).None?
    ensures FieldError(LastName, Sloppy.lastName).None?
  {
    assert !IsWs(Sloppy.firstName[0]) && !IsWs(Sloppy.lastName[0]);
  }

  /** The email, the phone and the message each get their own format or
      length message. */
  lemma SloppyFormatsFail()
    ensures FieldError(Email, Sloppy.email) == Some(InvalidEmailMessage)
    ensures FieldError(Phone, Sloppy.phone) == Some(InvalidPhoneMessage)
  {
    assert !IsWs(Sloppy.email[0]) && !IsWs(Sloppy.phone[0]);
  }

  lemma SloppyMessageTooShort()
    ensures FieldError(Message, Sloppy.message) == Some(ShortMessageMessage)
  {
    assert !IsWs(Sloppy.message[0]) && !IsWs(Sloppy.message[|Sloppy.message| - 1]);
  }

  /** All three failures are reported together, and nothing for the names. */
  lemma SloppyErrors()
    ensures FirstName !in Validate(Sloppy) && LastName !in Validate(Sloppy)
    ensures Email in Validate(Sloppy) && Validate(Sloppy)[Email] == InvalidEmailMessage
    ensures Phone in Validate(Sloppy) && Validate(Sloppy)[Phone] == InvalidPhoneMessage
    ensures Message in Validate(Sloppy) && Validate(Sloppy)[Message] == ShortMessageMessage
  {
    SloppyNamesPass();
    SloppyFormatsFail();
    SloppyMessageTooShort();
    AllFieldsComplete();
  }

  /** Submitting the filled-in form, with the send resolving: the form is
      reset, the status is "success", and the navigation to the home page
      carries a message that greets Jane by name. */
  lemma JaneSubmits()
    ensures var (c, nav) := HandleSubmit(Contact(Jane, map[], false, NoStatus), Resolved);
      && c.formData == EmptyForm && c.submitStatus == Success && !c.isSubmitting
      && nav.Some? && nav.value.path == "/" && Contains(nav.value.message, "Jane")
  {
    JaneIsValid();
  }
}
