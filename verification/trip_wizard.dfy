/**
 * The trip-creation screen: a two-step form (trip details, then guest
 * e-mails) with one overlay slot that holds the date picker, the guest list
 * or nothing.
 *
 * The date-range ordering of the calendar helper and the e-mail validator
 * are not part of this model; they arrive as the `order` and `validEmail`
 * fields of `Helpers`. Trip creation, device storage and navigation are
 * external.
 */
module TripWizard {
  import opened Results
  import JsString
  import GuestEmails

  datatype StepForm = TripDetails | AddEmail

  /** The overlay slot: a single value, so at most one modal is open. */
  datatype Modal = NoModal | CalendarModal | GuestsModal

  /** A calendar day, as the date string the calendar reports. */
  type Day = string

  /** The selected start and end days; either may still be missing. */
  datatype DateRange = DateRange(startsAt: Option<Day>, endsAt: Option<Day>)

  datatype WizardState = WizardState(
    step: StepForm,
    modal: Modal,
    dates: DateRange,
    destination: string,
    emailInput: string,
    emails: seq<string>)

  /** Collaborators whose code is not modelled. */
  datatype Helpers = Helpers(order: (DateRange, Day) -> DateRange, validEmail: string -> bool)

  /** The screen when it first shows. */
  function Init(): (s: WizardState)
    ensures s.step == TripDetails && s.modal == NoModal
    ensures s.dates.startsAt.None? && s.dates.endsAt.None?
    ensures |s.destination| == 0 && |s.emailInput| == 0 && |s.emails| == 0
  {
    WizardState(TripDetails, NoModal, DateRange(None, None), "", "", [])
  }

  /** What pressing the main button leads to. */
  datatype NextOutcome = FillAllFields | DestinationTooShort | Advanced | ConfirmRequested

  /**
   * Both of the main button's guards pass. The length guard reads the
   * JavaScript `length`, which counts UTF-16 code units.
   */
  predicate ReadyToAdvance(destination: string, dates: DateRange)
  {
    && !JsString.IsBlank(destination)
    && dates.startsAt.Some? && dates.endsAt.Some?
    && JsString.Utf16Length(destination) >= 4
  }

  /**
   * `handleNextStepForm`. A destination that is all whitespace or a missing
   * start or end day is refused first; then a destination shorter than four
   * UTF-16 code units, counted before trimming. Passing both on the details step
   * moves to the e-mail step and leaves the overlay as it was; passing both
   * on the e-mail step only asks for confirmation. A refusal changes nothing.
   */
  function Next(s: WizardState): (r: (WizardState, NextOutcome))
    ensures r.1 == FillAllFields <==>
              (forall i :: 0 <= i < |s.destination| ==> JsString.IsWhitespace(s.destination[i]))
              || s.dates.startsAt.None? || s.dates.endsAt.None?
    ensures r.1 == DestinationTooShort <==> r.1 != FillAllFields && JsString.Utf16Length(s.destination) < 4
    ensures r.1 == DestinationTooShort ==> |s.destination| < 4
    ensures r.1 == Advanced <==> ReadyToAdvance(s.destination, s.dates) && s.step == TripDetails
    ensures r.1 == ConfirmRequested <==> ReadyToAdvance(s.destination, s.dates) && s.step == AddEmail
    ensures r.1 == Advanced ==> r.0 == s.(step := AddEmail)
    ensures r.1 != Advanced ==> r.0 == s
  {
    JsString.BlankIffAllWhitespace(s.destination);
    if JsString.IsBlank(s.destination) || s.dates.startsAt.None? || s.dates.endsAt.None? then
      (s, FillAllFields)
    else if JsString.Utf16Length(s.destination) < 4 then (s, DestinationTooShort)
    else if s.step == TripDetails then (s.(step := AddEmail), Advanced)
    else
      assert ReadyToAdvance(s.destination, s.dates);
      assert s.step == AddEmail;
      (s, ConfirmRequested)
  }

  /** The length check counts padding: "  ab" passes although it trims to "ab". */
  lemma PaddedDestinationAdvances(dates: DateRange)
    requires dates.startsAt.Some? && dates.endsAt.Some?
    ensures Next(Init().(destination := "  ab", dates := dates)).1 == Advanced
  {
    var d := "  ab";
    assert !JsString.IsWhitespace(d[2]);
  }

  /**
   * Two characters outside the Basic Multilingual Plane are four UTF-16 code
   * units, so the length guard lets them through.
   */
  lemma AstralDestinationAdvances(dates: DateRange)
    requires dates.startsAt.Some? && dates.endsAt.Some?
    ensures Next(Init().(destination := "\U{1F5FC}\U{1F5FC}", dates := dates)).1 == Advanced
  {
    var d := "\U{1F5FC}\U{1F5FC}";
    assert !JsString.IsWhitespace(d[0]);
  }

  /** A two-letter destination is refused as too short. */
  lemma ShortDestinationRefused(dates: DateRange)
    requires dates.startsAt.Some? && dates.endsAt.Some?
    ensures Next(Init().(destination := "Pa", dates := dates)).1 == DestinationTooShort
  {
    var d := "Pa";
    assert !JsString.IsWhitespace(d[0]);
  }

  /** `handleSelectedDate`: the calendar helper decides the new range. */
  function SelectDay(s: WizardState, day: Day, h: Helpers): (r: WizardState)
    ensures r.dates == h.order(s.dates, day)
    ensures r.(dates := s.dates) == s
  {
    s.(dates := h.order(s.dates, day))
  }

  /** The "When?" field opens the date picker only on the details step. */
  function PressWhen(s: WizardState): (r: WizardState)
    ensures r.modal == CalendarModal <==> s.step == TripDetails || s.modal == CalendarModal
    ensures r.(modal := s.modal) == s
  {
    if s.step == TripDetails then s.(modal := CalendarModal) else s
  }

  /** The user-visible events of the screen. */
  datatype Event =
    | EditDestination(text: string)
    | PressWhenField
    | TapDay(day: Day)
    | CloseCalendar
    | ConfirmCalendar
    | ChangeLocalDate
    | OpenGuests
    | CloseGuests
    | EditEmail(text: string)
    | InviteEmail
    | RemoveGuest(email: string)
    | PressNext

  /**
   * Whether the control behind an event can be used. The destination field
   * is editable only on the details step; the "Change local/date" button and
   * the guests field exist only on the e-mail step; controls inside a modal
   * exist only while it is visible, and a visible modal covers the main form.
   */
  predicate Enabled(s: WizardState, e: Event)
    ensures Enabled(s, e) && s.modal == CalendarModal ==>
              e.TapDay? || e == CloseCalendar || e == ConfirmCalendar
    ensures Enabled(s, e) && s.modal == GuestsModal ==>
              e == CloseGuests || e.EditEmail? || e == InviteEmail || e.RemoveGuest?
    ensures Enabled(s, e) && s.modal == NoModal ==>
              !(e.TapDay? || e == CloseCalendar || e == ConfirmCalendar || e == CloseGuests
                || e.EditEmail? || e == InviteEmail || e.RemoveGuest?)
  {
    match e
    case EditDestination(_) => s.modal == NoModal && s.step == TripDetails
    case PressWhenField => s.modal == NoModal
    case TapDay(_) => s.modal == CalendarModal
    case CloseCalendar => s.modal == CalendarModal
    case ConfirmCalendar => s.modal == CalendarModal
    case ChangeLocalDate => s.modal == NoModal && s.step == AddEmail
    case OpenGuests => s.modal == NoModal && s.step == AddEmail
    case CloseGuests => s.modal == GuestsModal
    case EditEmail(_) => s.modal == GuestsModal
    case InviteEmail => s.modal == GuestsModal
    case RemoveGuest(email) => s.modal == GuestsModal && email in s.emails
    case PressNext => s.modal == NoModal
  }

  /**
   * The handler behind each event. Each part of the form has its own
   * handlers: only the main button and "Change local/date" move between the
   * steps, only the destination field edits the destination, only a tapped
   * day changes the dates, and only inviting or removing a guest changes the
   * guest list.
   */
  function Step(s: WizardState, e: Event, h: Helpers): (r: WizardState)
    ensures r.step != s.step ==> e == PressNext || e == ChangeLocalDate
    ensures r.destination != s.destination ==> e.EditDestination?
    ensures r.dates != s.dates ==> e.TapDay?
    ensures r.emails != s.emails ==> e == InviteEmail || e.RemoveGuest?
  {
    match e
    case EditDestination(text) => s.(destination := text)
    case PressWhenField => PressWhen(s)
    case TapDay(day) => SelectDay(s, day, h)
    case CloseCalendar => s.(modal := NoModal)
    case ConfirmCalendar => s.(modal := NoModal)
    case ChangeLocalDate => s.(step := TripDetails)
    case OpenGuests => s.(modal := GuestsModal)
    case CloseGuests => s.(modal := NoModal)
    case EditEmail(text) => s.(emailInput := text)
    case InviteEmail =>
      var a := GuestEmails.AddEmail(s.emails, s.emailInput, h.validEmail);
      s.(emails := a.emails, emailInput := a.input)
    case RemoveGuest(email) => s.(emails := GuestEmails.RemoveEmail(s.emails, email))
    case PressNext => Next(s).0
  }

  /**
   * A sequence of events; an event whose control is unavailable does nothing.
   * A run that ends with another guest list contains an invitation or a
   * removal, and one that ends on another step contains a press of the main
   * button or of "Change local/date".
   */
  function Run(s: WizardState, events: seq<Event>, h: Helpers): (r: WizardState)
    ensures r.emails != s.emails ==>
              exists i :: 0 <= i < |events| && (events[i] == InviteEmail || events[i].RemoveGuest?)
    ensures r.step != s.step ==>
              exists i :: 0 <= i < |events| && (events[i] == PressNext || events[i] == ChangeLocalDate)
    decreases |events|
  {
    if |events| == 0 then s
    else
      var s' := if Enabled(s, events[0]) then Step(s, events[0], h) else s;
      assert forall i :: 0 <= i < |events| - 1 ==> events[1..][i] == events[i + 1];
      Run(s', events[1..], h)
  }

  /**
   * "Change local/date" goes back to the details step and keeps everything
   * else, the open overlay included.
   */
  lemma ChangeLocalDateKeepsForm(s: WizardState, h: Helpers)
    ensures Step(s, ChangeLocalDate, h).step == TripDetails
    ensures Step(s, ChangeLocalDate, h).(step := s.step) == s
  {
  }

  /** Every way out of a modal leaves no modal open. */
  lemma ClosingReturnsToNoModal(s: WizardState, h: Helpers)
    ensures Step(s, CloseCalendar, h).modal == NoModal
    ensures Step(s, ConfirmCalendar, h).modal == NoModal
    ensures Step(s, CloseGuests, h).modal == NoModal
  {
  }

  /** The date picker is only ever opened from the details step, by the "When?" field. */
  lemma CalendarOpensOnlyOnDetails(s: WizardState, e: Event, h: Helpers)
    requires s.modal != CalendarModal
    requires Step(s, e, h).modal == CalendarModal
    ensures e == PressWhenField && s.step == TripDetails
  {
  }

  /**
   * What every reachable screen satisfies: the date picker is open only on
   * the details step, the guest list only on the e-mail step, and the
   * e-mail step is reached only with a destination and both days that pass
   * the main button's guards.
   */
  predicate Consistent(s: WizardState)
  {
    && (s.modal == CalendarModal ==> s.step == TripDetails)
    && (s.modal == GuestsModal ==> s.step == AddEmail)
    && (s.step == AddEmail ==> ReadyToAdvance(s.destination, s.dates))
  }

  /** The guest list never holds an address twice nor one the validator refused. */
  predicate GuestsWellFormed(s: WizardState, validEmail: string -> bool)
  {
    && GuestEmails.NoDuplicates(s.emails)
    && forall i :: 0 <= i < |s.emails| ==> validEmail(s.emails[i])
  }

  lemma StepKeepsConsistent(s: WizardState, e: Event, h: Helpers)
    requires Consistent(s) && Enabled(s, e)
    ensures Consistent(Step(s, e, h))
  {
  }

  lemma StepKeepsGuestsWellFormed(s: WizardState, e: Event, h: Helpers)
    requires GuestsWellFormed(s, h.validEmail) && !h.validEmail("")
    ensures GuestsWellFormed(Step(s, e, h), h.validEmail)
  {
    match e
    case InviteEmail =>
      GuestEmails.AddEmailKeepsNoDuplicates(s.emails, s.emailInput, h.validEmail);
      GuestEmails.AddEmailKeepsValid(s.emails, s.emailInput, h.validEmail);
    case RemoveGuest(email) =>
      GuestEmails.RemoveEmailKeepsNoDuplicates(s.emails, email);
      GuestEmails.RemoveEmailSubset(s.emails, email);
      var r := GuestEmails.RemoveEmail(s.emails, email);
      forall i | 0 <= i < |r|
        ensures h.validEmail(r[i])
      {
        assert r[i] in s.emails;
      }
    case _ =>
  }

  /**
   * Every run from the initial screen ends in a consistent screen whose guest
   * list is duplicate-free and validated, provided the validator refuses "".
   */
  lemma {:induction false} RunKeepsInvariants(s: WizardState, events: seq<Event>, h: Helpers)
    requires Consistent(s) && GuestsWellFormed(s, h.validEmail) && !h.validEmail("")
    ensures Consistent(Run(s, events, h))
    ensures GuestsWellFormed(Run(s, events, h), h.validEmail)
    decreases |events|
  {
    if |events| > 0 {
      var s' := if Enabled(s, events[0]) then Step(s, events[0], h) else s;
      if Enabled(s, events[0]) {
        StepKeepsConsistent(s, events[0], h);
        StepKeepsGuestsWellFormed(s, events[0], h);
      }
      RunKeepsInvariants(s', events[1..], h);
    }
  }

  lemma InitialRunsAreConsistent(events: seq<Event>, h: Helpers)
    requires !h.validEmail("")
    ensures Consistent(Run(Init(), events, h))
    ensures GuestsWellFormed(Run(Init(), events, h), h.validEmail)
  {
    RunKeepsInvariants(Init(), events, h);
  }
}
