/**
 * The contact form's data and its two pure operations: the validator run on
 * submit, and the update applied when one input changes.
 */
module ContactForm {
  import opened Options
  import opened Text
  import opened Patterns

  /** The five inputs of the form, by their `name` attribute. */
  datatype Field = FirstName | LastName | Phone | Email | Message

  /** The `formData` record. */
  datatype FormData = FormData(firstName: string, lastName: string, phone: string, email: string, message: string)
  {
    /** `formData[name]` */
    function Get(f: Field): string
    {
      match f
      case FirstName => firstName
      case LastName => lastName
      case Phone => phone
      case Email => email
      case Message => message
    }

    /** `{ ...formData, [name]: value }` */
    function Set(f: Field, v: string): (d: FormData)
      ensures d.Get(f) == v
      ensures forall g | g != f :: d.Get(g) == Get(g)
    {
      match f
      case FirstName => this.(firstName := v)
      case LastName => this.(lastName := v)
      case Phone => this.(phone := v)
      case Email => this.(email := v)
      case Message => this.(message := v)
    }
  }

  /** The form as first rendered, and as reset after a successful send. */
  const EmptyForm: FormData := FormData("", "", "", "", "")

  /** `formErrors`: a message per failing field. A key whose message is the
      empty string is present but falsy, so no message is shown for it. */
  type Errors = map<Field, string>

  const AllFields: set<Field> := {FirstName, LastName, Phone, Email, Message}

  const MinMessageLength: nat := 10

  const InvalidEmailMessage: string := "Please enter a valid email address"
  const InvalidPhoneMessage: string := "Please enter a valid phone number"
  const ShortMessageMessage: string := "Message must be at least 10 characters long"

  /** The message for a non-blank value that fails its rule. A non-blank
      name always passes, so its entry is never used. */
  function FormatMessage(f: Field): string
  {
    match f
    case Email => InvalidEmailMessage
    case Phone => InvalidPhoneMessage
    case Message => ShortMessageMessage
    case _ => ""
  }

  /** The message for a field left blank. */
  function RequiredMessage(f: Field): string
  {
    match f
    case FirstName => "First name is required"
    case LastName => "Last name is required"
    case Email => "Email is required"
    case Phone => "Phone number is required"
    case Message => "Message is required"
  }

  /** The rule each field must meet, against the languages of the two
      regular expressions: a non-blank value, and for the email and the phone
      a match of the untrimmed value, and for the message at least ten UTF-16
      code units once trimmed. */
  ghost predicate Passes(f: Field, v: string)
  {
    && !AllWs(v)
    && match f
       case Email => EmailPattern(v)
       case Phone => PhonePattern(v)
       case Message => Utf16Length(Trim(v)) >= MinMessageLength
       case _ => true
  }

  /** One field's `if … else if …` chain: the required check on the trimmed
      value first, the format or length check only when that passes. */
  function FieldError(f: Field, v: string): (r: Option<string>)
    ensures AllWs(v) <==> r == Some(RequiredMessage(f))
    ensures r.Some? && !AllWs(v) ==> r.value == FormatMessage(f)
  {
    if IsBlank(v) then Some(RequiredMessage(f))
    else
      match f
      case Email => if TestEmail(v) then None else Some(InvalidEmailMessage)
      case Phone => if TestPhone(v) then None else Some(InvalidPhoneMessage)
      case Message => if Utf16Length(Trim(v)) < MinMessageLength then Some(ShortMessageMessage) else None
      case _ => None
  }

  /** A field's chain reports nothing exactly when the value meets the
      field's rule. */
  lemma FieldErrorMeetsRule(f: Field, v: string)
    ensures FieldError(f, v).None? <==> Passes(f, v)
  {
    TestEmailIsPattern(v);
    TestPhoneIsPattern(v);
  }

  /** `validateForm()`: every field is checked, none short-circuits another,
      and the result holds a message exactly for the fields that fail. */
  function Validate(d: FormData): (errors: Errors)
    ensures forall f :: AllWs(d.Get(f)) <==> f in errors && errors[f] == RequiredMessage(f)
    ensures forall f | f in errors && !AllWs(d.Get(f)) :: errors[f] == FormatMessage(f)
  {
    AllFieldsComplete();
    map f | f in AllFields && FieldError(f, d.Get(f)).Some? :: FieldError(f, d.Get(f)).value
  }

  /** The five constructors of `Field` are all the keys there are. */
  lemma AllFieldsComplete()
    ensures forall f: Field :: f in AllFields
  {
    forall f: Field ensures f in AllFields {
      match f
      case FirstName =>
      case LastName =>
      case Phone =>
      case Email =>
      case Message =>
    }
  }

  /** `handleInputChange`: the named field takes the new value; its error,
      if it had a non-empty one, becomes the empty string rather than being
      removed. Nothing else changes. */
  function InputChange(d: FormData, errors: Errors, f: Field, v: string): (r: (FormData, Errors))
    ensures r.0.Get(f) == v
    ensures forall g | g != f :: r.0.Get(g) == d.Get(g)
    ensures r.1.Keys == errors.Keys
    ensures f in errors ==> r.1[f] == ""
    ensures forall g | g in errors && g != f :: r.1[g] == errors[g]
  {
    var errors' := if f in errors && errors[f] != "" then errors[f := ""] else errors;
    (d.Set(f, v), errors')
  }

  // ---------------------------------------------------------------------------
  // Properties of the validator
  // ---------------------------------------------------------------------------

  /** `validateForm()` against the field rules: a field is reported exactly
      when its value fails the field's rule. */
  lemma ValidateReportsFailures(d: FormData)
    ensures forall f :: f in Validate(d) <==> !Passes(f, d.Get(f))
  {
    AllFieldsComplete();
    forall f ensures f in Validate(d) <==> !Passes(f, d.Get(f)) {
      FieldErrorMeetsRule(f, d.Get(f));
      assert f in Validate(d) <==> FieldError(f, d.Get(f)).Some?;
    }
  }

  /** `Object.keys(errors).length > 0` fails exactly when one of the five
      checks reports. */
  lemma ValidateEmptyIffAllPass(d: FormData)
    ensures Validate(d) == map[] <==>
      && FieldError(FirstName, d.firstName).None?
      && FieldError(LastName, d.lastName).None?
      && FieldError(Phone, d.phone).None?
      && FieldError(Email, d.email).None?
      && FieldError(Message, d.message).None?
  {
    var m := Validate(d);
    AllFieldsComplete();
    assert forall f :: f in m <==> FieldError(f, d.Get(f)).Some?;
    if FieldError(FirstName, d.firstName).None? && FieldError(LastName, d.lastName).None?
      && FieldError(Phone, d.phone).None? && FieldError(Email, d.email).None?
      && FieldError(Message, d.message).None?
    {
      forall f ensures f !in m {
        match f
        case FirstName =>
        case LastName =>
        case Phone =>
        case Email =>
        case Message =>
      }
      assert m.Keys == {};
    }
  }

  /** Whether a field is reported, and with what message, depends on that
      field's value alone. */
  lemma ValidateIsPerField(d1: FormData, d2: FormData, f: Field)
    requires d1.Get(f) == d2.Get(f)
    ensures f in Validate(d1) <==> f in Validate(d2)
    ensures f in Validate(d1) ==> Validate(d1)[f] == Validate(d2)[f]
  {
  }

  /** A form whose five values are all whitespace gets exactly the five
      "required" messages: every field is a key, each with its own message. */
  lemma ValidateAllBlank(d: FormData)
    requires forall f :: AllWs(d.Get(f))
    ensures forall f :: f in Validate(d) && Validate(d)[f] == RequiredMessage(f)
  {
    AllFieldsComplete();
    forall f ensures f in Validate(d) && Validate(d)[f] == RequiredMessage(f) {
      assert AllWs(d.Get(f));
    }
  }

  /** The form as first rendered fails with the five "required" messages. */
  lemma ValidateEmptyForm()
    ensures forall f :: f in Validate(EmptyForm) && Validate(EmptyForm)[f] == RequiredMessage(f)
  {
    forall f ensures AllWs(EmptyForm.Get(f)) {
      assert EmptyForm.Get(f) == "";
    }
    ValidateAllBlank(EmptyForm);
  }

  /** The email is matched untrimmed: a value with whitespace at either end
      that is not all whitespace gets the format message, not the required
      one, and not acceptance. */
  lemma EmailIsNotTrimmed(v: string)
    requires !AllWs(v) && (IsWs(v[0]) || IsWs(v[|v| - 1]))
    ensures FieldError(Email, v) == Some(InvalidEmailMessage)
  {
    if EmailPattern(v) {
      EmailHasOneAt(v);
      assert false;
    }
  }

  /** A message that is not blank is reported as too short exactly when its
      trimmed text has fewer than ten UTF-16 code units, and otherwise not
      reported at all. */
  lemma MessageNeedsTenCodeUnits(v: string)
    requires !AllWs(v)
    ensures FieldError(Message, v) == Some(ShortMessageMessage) <==> Utf16Length(Trim(v)) < MinMessageLength
    ensures FieldError(Message, v).None? <==> Utf16Length(Trim(v)) >= MinMessageLength
  {
    FieldErrorMeetsRule(Message, v);
  }

}
