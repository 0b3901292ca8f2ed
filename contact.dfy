/**
 * The booking-inquiry form: a seven-field draft edited one field at a time, and a
 * simulated submission that flags the form as busy, waits, shows one
 * confirmation notification, clears the flag and resets the draft.
 */
module Contact {

  /** The form's inputs. */
  datatype Field = Name | Email | Phone | CheckIn | CheckOut | Guests | Message

  /** The form data (`formData`); every input holds a string. */
  datatype Draft = Draft(
    name: string,
    email: string,
    phone: string,
    checkIn: string,
    checkOut: string,
    guests: string,
    message: string)

  /** The value an input shows. */
  function Get(d: Draft, f: Field): (value: string)
  {
    match f
    case Name => d.name
    case Email => d.email
    case Phone => d.phone
    case CheckIn => d.checkIn
    case CheckOut => d.checkOut
    case Guests => d.guests
    case Message => d.message
  }

  /** The draft the form starts with and returns to after a submission:
      every input empty except the guest count, which is "2". */
  function InitialDraft(): (d: Draft)
    ensures forall f :: Get(d, f) == (if f == Guests then "2" else "")
  {
    Draft("", "", "", "", "", "2", "")
  }

  /** `{ ...formData, [f]: v }`: input f now holds v and every other input is untouched. */
  function WithField(d: Draft, f: Field, v: string): (r: Draft)
    ensures Get(r, f) == v
    ensures forall g :: g != f ==> Get(r, g) == Get(d, g)
  {
    match f
    case Name => d.(name := v)
    case Email => d.(email := v)
    case Phone => d.(phone := v)
    case CheckIn => d.(checkIn := v)
    case CheckOut => d.(checkOut := v)
    case Guests => d.(guests := v)
    case Message => d.(message := v)
  }

  /** Edits to two different inputs do not interfere: either order gives the same draft. */
  lemma EditsCommute(d: Draft, f: Field, v: string, g: Field, w: string)
    requires f != g
    ensures WithField(WithField(d, f, v), g, w) == WithField(WithField(d, g, w), f, v)
  {
  }

  /** A second edit to the same input overwrites the first. */
  lemma LastEditWins(d: Draft, f: Field, v: string, w: string)
    ensures WithField(WithField(d, f, v), f, w) == WithField(d, f, w)
  {
  }

  /** The values the guests select offers ("4" is shown as "4+ Guests"). */
  const GuestOptions: seq<string> := ["1", "2", "3", "4"]

  /** The inputs marked `required`; phone and message are optional. */
  predicate IsRequired(f: Field)
  {
    f in {Name, Email, CheckIn, CheckOut}
  }

  /** The browser lets the form submit only when every required input is non-empty. */
  predicate Submittable(d: Draft)
  {
    forall f :: IsRequired(f) ==> Get(d, f) != ""
  }

  /** The required inputs are exactly name, email, check-in and check-out. */
  lemma SubmittableFields(d: Draft)
    ensures Submittable(d) <==> d.name != "" && d.email != "" && d.checkIn != "" && d.checkOut != ""
  {
    if d.name != "" && d.email != "" && d.checkIn != "" && d.checkOut != "" {
      forall f | IsRequired(f) ensures Get(d, f) != "" {
      }
    }
    if Submittable(d) {
      assert IsRequired(Name) && IsRequired(Email) && IsRequired(CheckIn) && IsRequired(CheckOut);
    }
  }

  /** Editing an optional input never changes whether the form can be submitted. */
  lemma OptionalFieldsIrrelevant(d: Draft, f: Field, v: string)
    requires !IsRequired(f)
    ensures Submittable(WithField(d, f, v)) == Submittable(d)
  {
  }

  /** A freshly reset form cannot be submitted until the required inputs are filled in. */
  lemma InitialNotSubmittable()
    ensures !Submittable(InitialDraft())
  {
    SubmittableFields(InitialDraft());
  }

  /** A toast shown by the page. */
  datatype Notification = Notification(title: string, description: string)

  /** The toast a completed submission shows. */
  const InquirySent: Notification :=
    Notification("Inquiry Sent!", "We'll get back to you within 24 hours.")

  /** The booking form's state: the draft, the busy flag and the toasts shown so far. */
  class BookingForm {
    var formData: Draft
    var isSubmitting: bool
    var notifications: seq<Notification>

    /** The guest count is always one of the select's options. */
    ghost predicate Valid()
      reads this
    {
      formData.guests in GuestOptions
    }

    /** The form mounts with the initial draft, idle, and no toast shown. */
    constructor ()
      ensures Valid()
      ensures formData == InitialDraft() && !isSubmitting && notifications == []
    {
      formData := InitialDraft();
      isSubmitting := false;
      notifications := [];
    }

    /** An input's change handler: input f now holds v, the rest of the draft is kept.
        The inputs stay enabled while a submission is in flight. The select can only
        deliver one of its options. */
    method UpdateField(f: Field, v: string)
      requires Valid()
      requires f == Guests ==> v in GuestOptions
      modifies this
      ensures Valid()
      ensures formData == WithField(old(formData), f, v)
      ensures isSubmitting == old(isSubmitting) && notifications == old(notifications)
    {
      formData := WithField(formData, f, v);
    }

    /** Pressing "Send Inquiry": nothing happens while the button is disabled (a
        submission is in flight) or while a required input is empty; otherwise the
        submission starts and the form becomes busy. */
    method BeginSubmit() returns (started: bool)
      requires Valid()
      modifies this
      ensures Valid()
      ensures started <==> !old(isSubmitting) && Submittable(old(formData))
      ensures isSubmitting == (old(isSubmitting) || started)
      ensures formData == old(formData) && notifications == old(notifications)
    {
      started := !isSubmitting && Submittable(formData);
      if started {
        isSubmitting := true;
      }
    }

    /** The end of the simulated delay: exactly one confirmation toast, the form
        idle again and the draft back to its initial value, whatever it held. */
    method CompleteSubmit()
      requires Valid()
      requires isSubmitting
      modifies this
      ensures Valid()
      ensures notifications == old(notifications) + [InquirySent]
      ensures !isSubmitting
      ensures formData == InitialDraft()
    {
      notifications := notifications + [InquirySent];
      isSubmitting := false;
      formData := InitialDraft();
    }
  }
}
