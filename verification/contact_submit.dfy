/**
 * The contact page's submission flow: `handleSubmit` as a function from the
 * component state to the state after the handler has run, and the page as
 * a transition system over input, submit and send-settled events.
 *
 * The two 2000 ms timers are not modelled as time: the first (the simulated
 * send) is the step from `BeginSubmit` to `FinishSubmit`, whose outcome is a
 * parameter; the second only delays the navigation, which is returned as the
 * effect `FinishSubmit` schedules.
 */
module ContactSubmit {
  import opened Options
  import opened ContactForm

  /** `submitStatus`: '', 'success' or 'error'. */
  datatype SubmitStatus = NoStatus | Success | Error

  /** The state of the `Contact` component. */
  datatype Contact = Contact(formData: FormData, formErrors: Errors, isSubmitting: bool, submitStatus: SubmitStatus)

  const InitialContact: Contact := Contact(EmptyForm, map[], false, NoStatus)

  /** How the simulated send settles: the awaited promise resolves, or
      something in the `try` block throws. */
  datatype SendOutcome = Resolved | Threw

  /** A request to the router: `navigate(path, { state: { message } })`. */
  datatype Navigation = Navigation(path: string, message: string)

  /** `t` occurs in `s` starting at index `k`. */
  predicate OccursAt(s: string, t: string, k: nat)
  {
    k + |t| <= |s| && s[k..k + |t|] == t
  }

  /** `t` occurs in `s` as a contiguous piece. */
  predicate Contains(s: string, t: string)
  {
    exists k: nat | k <= |s| :: OccursAt(s, t, k)
  }

  /** The message passed in the navigation state after a successful send. */
  function ThankYouMessage(firstName: string): (m: string)
    ensures Contains(m, firstName)
    ensures |m| > |firstName|
  {
    var m := "Thank you " + firstName + "! Your message has been received. I'll get back to you soon.";
    assert OccursAt(m, firstName, 10);
    m
  }

  /** `handleInputChange` on the component state. */
  function ChangeInput(c: Contact, f: Field, v: string): (r: Contact)
    ensures r.isSubmitting == c.isSubmitting && r.submitStatus == c.submitStatus
    ensures r.formData == c.formData.Set(f, v)
    ensures r.formErrors == InputChange(c.formData, c.formErrors, f, v).1
  {
    var (d, e) := InputChange(c.formData, c.formErrors, f, v);
    c.(formData := d, formErrors := e)
  }

  /** `handleSubmit` up to its `await`: `isSubmitting` is set and the status
      cleared, then the form is validated. On failure the errors replace
      `formErrors` wholesale and `isSubmitting` is cleared again; on success
      the handler is left waiting for the send, with `formErrors` untouched. */
  function BeginSubmit(c: Contact): (r: Contact)
    ensures r.formData == c.formData
    ensures r.submitStatus == NoStatus
    ensures r.isSubmitting <==> Validate(c.formData) == map[]
    ensures r.isSubmitting ==> r.formErrors == c.formErrors
    ensures !r.isSubmitting ==> r.formErrors == Validate(c.formData) && |r.formErrors| > 0
  {
    var errors := Validate(c.formData);
    if |errors| > 0 then
      c.(formErrors := errors, isSubmitting := false, submitStatus := NoStatus)
    else
      c.(isSubmitting := true, submitStatus := NoStatus)
  }

  /** `handleSubmit` after its `await`. `captured` is the `formData` the
      handler closed over when it was called, which the thank-you message
      reads even though the form has been reset by then. */
  function FinishSubmit(c: Contact, captured: FormData, outcome: SendOutcome): (r: (Contact, Option<Navigation>))
    ensures !r.0.isSubmitting
    ensures r.0.formErrors == c.formErrors
    ensures outcome == Resolved ==> r.0.submitStatus == Success && r.0.formData == EmptyForm
    ensures outcome == Resolved ==> r.1.Some? && r.1.value.path == "/" && Contains(r.1.value.message, captured.firstName)
    ensures outcome == Threw ==> r.0.submitStatus == Error && r.0.formData == c.formData && r.1.None?
  {
    match outcome
    case Resolved =>
      var nav := Navigation("/", ThankYouMessage(captured.firstName));
      (c.(submitStatus := Success, formData := EmptyForm, isSubmitting := false), Some(nav))
    case Threw =>
      (c.(submitStatus := Error, isSubmitting := false), None)
  }

  /** `handleSubmit` from start to end, the send settling with `outcome`.
      The handler has no guard of its own against being re-entered. */
  function HandleSubmit(c: Contact, outcome: SendOutcome): (r: (Contact, Option<Navigation>))
    // validation fails: errors replaced, nothing else of the form touched
    ensures Validate(c.formData) != map[] ==>
      && r.0.formErrors == Validate(c.formData)
      && !r.0.isSubmitting && r.0.submitStatus == NoStatus
      && r.0.formData == c.formData && r.1.None?
    // validation passes and the send resolves: form reset, thank-you scheduled
    ensures Validate(c.formData) == map[] && outcome == Resolved ==>
      && r.0.submitStatus == Success && r.0.formData == EmptyForm && !r.0.isSubmitting
      && r.0.formErrors == c.formErrors
      && r.1 == Some(Navigation("/", ThankYouMessage(c.formData.firstName)))
    // validation passes and the send throws: error banner, form kept
    ensures Validate(c.formData) == map[] && outcome == Threw ==>
      && r.0.submitStatus == Error && r.0.formData == c.formData && !r.0.isSubmitting
      && r.0.formErrors == c.formErrors && r.1.None?
  {
    var started := BeginSubmit(c);
    if !started.isSubmitting then (started, None)
    else FinishSubmit(started, c.formData, outcome)
  }

  /** Neither the in-flight flag nor the previous status influences what the
      handler does: it has no re-entry guard. */
  lemma HandleSubmitIgnoresFlags(c: Contact, outcome: SendOutcome, busy: bool, status: SubmitStatus)
    ensures HandleSubmit(c.(isSubmitting := busy, submitStatus := status), outcome) == HandleSubmit(c, outcome)
  {
  }

  // ---------------------------------------------------------------------------
  // The page as a transition system
  // ---------------------------------------------------------------------------

  /** The component state plus the handler call, if any, suspended at its
      `await`, with the `formData` it closed over. */
  datatype Page = Page(contact: Contact, inFlight: Option<FormData>)

  const InitialPage: Page := Page(InitialContact, None)

  /** What can happen to the page: an input's `onChange`, the form's
      `onSubmit`, and the simulated send settling. */
  datatype Event = Change(field: Field, value: string) | Submit | SendSettles(outcome: SendOutcome)

  /** One event. While a send is in flight every input and the submit button
      carry `disabled`, so change and submit events do not reach the
      handlers; a settle event with nothing in flight does nothing. */
  function Dispatch(p: Page, e: Event): (r: (Page, Option<Navigation>))
    ensures r.1.Some? ==> e.SendSettles? && p.inFlight.Some?
    ensures r.1.Some? ==> r.1.value == Navigation("/", ThankYouMessage(p.inFlight.value.firstName))
    ensures p.contact.isSubmitting && !e.SendSettles? ==> r == (p, None)
    ensures !p.contact.isSubmitting && e.Change? ==>
      r.0.contact == ChangeInput(p.contact, e.field, e.value) && r.0.inFlight == p.inFlight && r.1.None?
    ensures !p.contact.isSubmitting && e.Submit? ==>
      && r.0.contact == BeginSubmit(p.contact) && r.1.None?
      && (r.0.inFlight.Some? <==> r.0.contact.isSubmitting)
      && (r.0.inFlight.Some? ==> r.0.inFlight.value == p.contact.formData)
    ensures e.SendSettles? && p.inFlight.Some? ==>
      r == (Page(FinishSubmit(p.contact, p.inFlight.value, e.outcome).0, None), FinishSubmit(p.contact, p.inFlight.value, e.outcome).1)
  {
    match e
    case Change(f, v) =>
      if p.contact.isSubmitting then (p, None)
      else (p.(contact := ChangeInput(p.contact, f, v)), None)
    case Submit =>
      if p.contact.isSubmitting then (p, None)
      else
        var c := BeginSubmit(p.contact);
        (Page(c, if c.isSubmitting then Some(p.contact.formData) else None), None)
    case SendSettles(outcome) =>
      match p.inFlight
      case None => (p, None)
      case Some(captured) =>
        var (c, nav) := FinishSubmit(p.contact, captured, outcome);
        (Page(c, None), nav)
  }

  /** A submit that passes validation leaves the call in flight, and the
      send settling finishes it as `handleSubmit` does. */
  lemma SubmitThenSettleWhenValid(c: Contact, outcome: SendOutcome)
    ensures !c.isSubmitting && BeginSubmit(c).isSubmitting ==>
      Dispatch(Page(c, None), Submit) == (Page(BeginSubmit(c), Some(c.formData)), None)
    ensures BeginSubmit(c).isSubmitting ==>
      Dispatch(Page(BeginSubmit(c), Some(c.formData)), SendSettles(outcome))
      == (Page(HandleSubmit(c, outcome).0, None), HandleSubmit(c, outcome).1)
  {
  }

  /** A submit that fails validation leaves nothing in flight. */
  lemma SubmitWhenInvalid(c: Contact)
    ensures !c.isSubmitting && !BeginSubmit(c).isSubmitting ==>
      Dispatch(Page(c, None), Submit) == (Page(BeginSubmit(c), None), None)
  {
  }

  /** `handleSubmit` returns before its `await` when validation fails. */
  lemma HandleSubmitWhenInvalid(c: Contact, outcome: SendOutcome)
    ensures !BeginSubmit(c).isSubmitting ==> HandleSubmit(c, outcome) == (BeginSubmit(c), None)
  {
  }

  /** On an idle page, a submit followed by the send settling does what one
      uninterrupted call of `handleSubmit` does. */
  lemma SubmitThenSettleIsHandleSubmit(c: Contact, outcome: SendOutcome)
    requires !c.isSubmitting
    ensures var first := Dispatch(Page(c, None), Submit);
      && first.1.None?
      && Dispatch(first.0, SendSettles(outcome)) == (Page(HandleSubmit(c, outcome).0, None), HandleSubmit(c, outcome).1)
  {
    if BeginSubmit(c).isSubmitting {
      SubmitThenSettleWhenValid(c, outcome);
    } else {
      SubmitWhenInvalid(c);
      HandleSubmitWhenInvalid(c, outcome);
    }
  }

  /** Every non-empty message in `formErrors` is the one the validator
      would report for the field's current value: an error is only ever
      shown for a value that still fails. */
  ghost predicate ErrorsAreCurrent(c: Contact)
  {
    forall f | f in c.formErrors && c.formErrors[f] != "" ::
      f in Validate(c.formData) && Validate(c.formData)[f] == c.formErrors[f]
  }

  /** What holds of every reachable page. */
  ghost predicate PageInv(p: Page)
  {
    && (p.contact.isSubmitting <==> p.inFlight.Some?)
    && (p.inFlight.Some? ==>
         && p.inFlight.value == p.contact.formData
         && Validate(p.contact.formData) == map[]
         && p.contact.submitStatus == NoStatus)
    && ErrorsAreCurrent(p.contact)
  }

  lemma InitialPageInv()
    ensures PageInv(InitialPage)
  {
  }

  /** Editing one field keeps every other field's shown error current. */
  lemma ChangeKeepsErrorsCurrent(c: Contact, f: Field, v: string)
    requires ErrorsAreCurrent(c)
    ensures ErrorsAreCurrent(ChangeInput(c, f, v))
  {
    var c' := ChangeInput(c, f, v);
    forall g | g in c'.formErrors && c'.formErrors[g] != ""
      ensures g in Validate(c'.formData) && Validate(c'.formData)[g] == c'.formErrors[g]
    {
      assert g != f;
      ValidateIsPerField(c.formData, c'.formData, g);
    }
  }

  /** Every event keeps the page invariant. */
  lemma DispatchKeepsInv(p: Page, e: Event)
    requires PageInv(p)
    ensures PageInv(Dispatch(p, e).0)
  {
    match e
    case Change(f, v) =>
      if !p.contact.isSubmitting {
        ChangeKeepsErrorsCurrent(p.contact, f, v);
      }
    case Submit =>
    case SendSettles(outcome) =>
      if p.inFlight.Some? {
        var c := Dispatch(p, e).0.contact;
        forall g | g in c.formErrors ensures c.formErrors[g] == "" {
          assert g !in Validate(p.contact.formData);
        }
      }
  }

  /** The page after a run of events, and the navigations requested on the
      way. */
  function Run(p: Page, events: seq<Event>): (r: (Page, seq<Navigation>))
    decreases |events|
  {
    if |events| == 0 then (p, [])
    else
      var (p1, nav) := Dispatch(p, events[0]);
      var (p2, navs) := Run(p1, events[1..]);
      (p2, (if nav.Some? then [nav.value] else []) + navs)
  }

  function CountSubmits(events: seq<Event>): nat
  {
    if |events| == 0 then 0 else (if events[0].Submit? then 1 else 0) + CountSubmits(events[1..])
  }

  /** Every reachable page satisfies the invariant, and no submission
      produces more than one navigation: the navigations of a run, plus the
      send still in flight at its end, never outnumber the submits. */
  lemma {:induction false} RunKeepsInv(p: Page, events: seq<Event>)
    requires PageInv(p)
    ensures PageInv(Run(p, events).0)
    ensures |Run(p, events).1| + (if Run(p, events).0.inFlight.Some? then 1 else 0)
            <= CountSubmits(events) + (if p.inFlight.Some? then 1 else 0)
    decreases |events|
  {
    if |events| > 0 {
      var (p1, nav) := Dispatch(p, events[0]);
      DispatchKeepsInv(p, events[0]);
      RunKeepsInv(p1, events[1..]);
    }
  }

  /** From the first render, every page reached satisfies the invariant and
      there are at most as many thank-you navigations as submits. */
  lemma ReachableFromInitial(events: seq<Event>)
    ensures PageInv(Run(InitialPage, events).0)
    ensures |Run(InitialPage, events).1| <= CountSubmits(events)
  {
    InitialPageInv();
    RunKeepsInv(InitialPage, events);
  }

  /** While a send is in flight no error message is shown: on any page
      reached from the first render, `formErrors` may still hold keys then,
      but only with the empty message. */
  lemma NoErrorShownWhileSubmitting(events: seq<Event>)
    ensures var c := Run(InitialPage, events).0.contact;
      c.isSubmitting ==> forall f | f in c.formErrors :: c.formErrors[f] == ""
  {
    ReachableFromInitial(events);
    var c := Run(InitialPage, events).0.contact;
    forall f | f in c.formErrors && c.isSubmitting ensures c.formErrors[f] == "" {
      assert f !in Validate(c.formData);
    }
  }
}
