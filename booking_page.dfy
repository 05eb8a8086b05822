/**
 * client/src/pages/Booking.jsx: the booking form. `validate` reports every
 * offending field at once, editing a field clears that field's message, and
 * a submission goes to the server only when validation reports nothing,
 * carrying the chosen slot's date and time.
 */
module BookingPage {
  import opened Common
  import opened Text
  import opened ExpertModel
  import BookingController

  const NAME_REQUIRED: string := "Name is required"
  const EMAIL_REQUIRED: string := "Email is required"
  const INVALID_EMAIL: string := "Invalid email"
  const PHONE_REQUIRED: string := "Phone is required"
  const INVALID_PHONE: string := "Invalid phone number"

  datatype Field = Name | Email | Phone | Notes

  datatype Form = Form(name: string, email: string, phone: string, notes: string)

  function Get(form: Form, f: Field): string {
    match f
    case Name => form.name
    case Email => form.email
    case Phone => form.phone
    case Notes => form.notes
  }

  /** `{ ...prev, [field]: value }`. */
  function Set(form: Form, f: Field, value: string): (r: Form)
    ensures Get(r, f) == value
    ensures forall g :: g != f ==> Get(r, g) == Get(form, g)
  {
    match f
    case Name => form.(name := value)
    case Email => form.(email := value)
    case Phone => form.(phone := value)
    case Notes => form.(notes := value)
  }

  /**
   * The message a field earns on its own: a blank value is missing, a
   * non-blank e-mail or phone must also match its pattern; notes are free.
   */
  function FieldError(form: Form, f: Field): Option<string> {
    match f
    case Name => if Blank(form.name) then Some(NAME_REQUIRED) else None
    case Email =>
      if Blank(form.email) then Some(EMAIL_REQUIRED)
      else if !EmailMatches(form.email) then Some(INVALID_EMAIL)
      else None
    case Phone =>
      if Blank(form.phone) then Some(PHONE_REQUIRED)
      else if !PhoneMatches(form.phone) then Some(INVALID_PHONE)
      else None
    case Notes => None
  }

  /** Records a field's message, if it has one. */
  function Report(errors: map<Field, string>, f: Field, message: Option<string>): map<Field, string> {
    if message.Some? then errors[f := message.value] else errors
  }

  /** Every field's own message, keyed by field. */
  function Errors(form: Form): map<Field, string> {
    Report(Report(Report(map[], Name, FieldError(form, Name)), Email, FieldError(form, Email)),
           Phone, FieldError(form, Phone))
  }

  predicate FormValid(form: Form) {
    !Blank(form.name) && EmailMatches(form.email) && !Blank(form.phone) && PhoneMatches(form.phone)
  }

  /** `!s.trim()`: nothing is left once the white space is trimmed. */
  function Missing(s: string): (b: bool)
    ensures b <==> Blank(s)
  {
    TrimEmptyIffBlank(s);
    Trim(s) == ""
  }

  /**
   * `validate(form)`: starting from no errors, one conditional assignment
   * per field, each testing the trimmed value before the pattern.
   */
  method Validate(form: Form) returns (errors: map<Field, string>)
    ensures errors == Errors(form)
  {
    errors := map[];
    if Missing(form.name) {
      errors := errors[Name := NAME_REQUIRED];
    }
    if Missing(form.email) {
      errors := errors[Email := EMAIL_REQUIRED];
    } else if !EmailMatches(form.email) {
      errors := errors[Email := INVALID_EMAIL];
    }
    if Missing(form.phone) {
      errors := errors[Phone := PHONE_REQUIRED];
    } else if !PhoneMatches(form.phone) {
      errors := errors[Phone := INVALID_PHONE];
    }
  }

  /**
   * What the error map says: each field is reported exactly when it is
   * invalid, whatever the other fields hold, with one message per field;
   * the map is empty exactly when the whole form is valid.
   */
  lemma ErrorsMeaning(form: Form)
    ensures Name in Errors(form) <==> Blank(form.name)
    ensures Name in Errors(form) ==> Errors(form)[Name] == NAME_REQUIRED
    ensures Email in Errors(form) <==> !EmailMatches(form.email)
    ensures Email in Errors(form) ==>
      Errors(form)[Email] == (if Blank(form.email) then EMAIL_REQUIRED else INVALID_EMAIL)
    ensures Phone in Errors(form) <==> Blank(form.phone) || !PhoneMatches(form.phone)
    ensures Phone in Errors(form) ==>
      Errors(form)[Phone] == (if Blank(form.phone) then PHONE_REQUIRED else INVALID_PHONE)
    ensures Notes !in Errors(form)
    ensures Errors(form) == map[] <==> FormValid(form)
  {
    if EmailMatches(form.email) {
      EmailShape(form.email);
    }
    if !FormValid(form) {
      if Blank(form.name) {
        assert Name in Errors(form);
      } else if !EmailMatches(form.email) {
        assert Email in Errors(form);
      } else {
        assert Phone in Errors(form);
      }
    }
  }

  /** A field's message depends on that field alone. */
  lemma ErrorsIndependent(form: Form, f: Field, value: string, g: Field)
    requires g != f
    ensures (g in Errors(Set(form, f, value))) == (g in Errors(form))
    ensures g in Errors(form) ==> Errors(Set(form, f, value))[g] == Errors(form)[g]
  {
    assert FieldError(Set(form, f, value), g) == FieldError(form, g) by {
      assert Get(Set(form, f, value), g) == Get(form, g);
      match g
      case Name =>
      case Email =>
      case Phone =>
      case Notes =>
    }
  }

  /** The JSON body `handleSubmit` posts: the slot's date and time become `date` and `timeSlot`. */
  function Payload(expertId: Id, form: Form, slot: Slot): (req: BookingController.BookingRequest)
    ensures req.expertId == Some(expertId) && req.date == slot.date && req.timeSlot == slot.time
    ensures req.name == form.name && req.email == form.email && req.phone == form.phone
    ensures req.notes == Some(form.notes)
  {
    BookingController.BookingRequest(Some(expertId), form.name, form.email, form.phone,
                                     slot.date, slot.time, Some(form.notes))
  }

  /**
   * The client's checks are at least as strict as the server's: a form the
   * page lets through, for a slot it offered, passes the server's validation.
   */
  lemma ClientValidPassesServer(expertId: Id, form: Form, slot: Slot)
    requires FormValid(form) && ValidSlot(slot)
    ensures BookingController.ValidateBooking(Payload(expertId, form, slot)).None?
  {
    EmailShape(form.email);
  }

  /** The state of the page's form: the fields and the messages shown under them. */
  class BookingForm {
    var form: Form
    var errors: map<Field, string>

    constructor ()
      ensures form == Form("", "", "", "") && errors == map[]
    {
      form := Form("", "", "", "");
      errors := map[];
    }

    /**
     * `handleChange`: store the edited value; a field whose message is shown
     * (non-empty) gets the empty message, and no other message changes.
     */
    method HandleChange(f: Field, value: string)
      modifies this
      ensures Get(form, f) == value
      ensures forall g :: g != f ==> Get(form, g) == Get(old(form), g)
      ensures f in errors <==> f in old(errors)
      ensures f in errors ==> errors[f] == ""
      ensures forall g :: g != f ==> (g in errors <==> g in old(errors))
      ensures forall g :: g != f && g in errors ==> errors[g] == old(errors)[g]
    {
      form := Set(form, f, value);
      if f in errors && errors[f] != "" {
        errors := errors[f := ""];
      }
    }

    /**
     * `handleSubmit`: validate; on any error show all messages and send
     * nothing, otherwise send the payload for the chosen slot.
     */
    method HandleSubmit(expertId: Id, slot: Slot) returns (sent: Option<BookingController.BookingRequest>)
      modifies this
      ensures form == old(form)
      ensures sent.Some? <==> FormValid(form)
      ensures sent.None? ==> errors == Errors(form)
      ensures sent.Some? ==> sent.value == Payload(expertId, form, slot) && errors == old(errors)
    {
      var v := Validate(form);
      ErrorsMeaning(form);
      if |v| > 0 {
        errors := v;
        return None;
      }
      return Some(Payload(expertId, form, slot));
    }
  }
}
