/**
 * The activities tab of a trip: an overlay slot holding nothing, the
 * add-activity form or the date picker nested inside that form; the form's
 * title, day and hour fields; and the list sections loaded from the server.
 *
 * The server calls are not part of this model: their answers arrive as the
 * payload of the events that await them.
 */
module ActivityPanel {
  import opened Results
  import JsString
  import opened ActivitySections

  /** The overlay slot. The date picker is a child of the add-activity form. */
  datatype Modal = NoModal | CalendarModal | NewActivityModal

  datatype PanelState = PanelState(
    modal: Modal,
    isCreating: bool,
    isLoading: bool,
    title: string,
    date: string,
    hour: string,
    sections: seq<Section>)

  /** The tab when it mounts: no overlay, empty form, list loading. */
  function Init(): (s: PanelState)
    ensures s.modal == NoModal && !s.isCreating && s.isLoading
    ensures |s.title| == 0 && |s.date| == 0 && |s.hour| == 0 && |s.sections| == 0
  {
    PanelState(NoModal, false, true, "", "", "", [])
  }

  /**
   * The hour field's change handler: it drops the first '.' of the typed
   * text and then the first ',' of what is left, and keeps every other
   * character, later dots and commas included, in place.
   */
  function SanitizeHour(text: string): (r: string)
    ensures var i := JsString.IndexOf(text, '.');
            var t := if i < 0 then text else text[..i] + text[i + 1..];
            var j := JsString.IndexOf(t, ',');
            r == (if j < 0 then t else t[..j] + t[j + 1..])
    ensures |r| == |text| - (if '.' in text then 1 else 0) - (if ',' in text then 1 else 0)
    ensures '.' !in text && ',' !in text ==> r == text
    ensures multiset(r) + (if '.' in text then multiset{'.'} else multiset{})
                        + (if ',' in text then multiset{','} else multiset{}) == multiset(text)
  {
    var noDot := JsString.RemoveFirst(text, '.');
    var r := JsString.RemoveFirst(noDot, ',');
    JsString.RemoveFirstFacts(text, '.');
    JsString.RemoveFirstFacts(noDot, ',');
    SanitizeSteps(text, noDot, r);
    SanitizePositions(text, noDot, r);
    r
  }

  /** Where the two removals cut, stated by the positions `indexOf` reports. */
  lemma SanitizePositions(text: string, noDot: string, r: string)
    requires noDot == JsString.RemoveFirst(text, '.') && r == JsString.RemoveFirst(noDot, ',')
    ensures var i := JsString.IndexOf(text, '.');
            var t := if i < 0 then text else text[..i] + text[i + 1..];
            var j := JsString.IndexOf(t, ',');
            r == (if j < 0 then t else t[..j] + t[j + 1..])
  {
    JsString.RemoveFirstAt(text, '.');
    JsString.RemoveFirstAt(noDot, ',');
  }

  /** The two replacements, one after the other, each removing at most one character. */
  lemma SanitizeSteps(text: string, noDot: string, r: string)
    requires multiset(noDot) + (if '.' in text then multiset{'.'} else multiset{}) == multiset(text)
    requires multiset(r) + (if ',' in noDot then multiset{','} else multiset{}) == multiset(noDot)
    requires '.' !in text ==> noDot == text
    requires ',' !in noDot ==> r == noDot
    ensures |r| == |text| - (if '.' in text then 1 else 0) - (if ',' in text then 1 else 0)
    ensures '.' !in text && ',' !in text ==> r == text
    ensures multiset(r) + (if '.' in text then multiset{'.'} else multiset{})
                        + (if ',' in text then multiset{','} else multiset{}) == multiset(text)
  {
    assert ',' in noDot <==> ',' in text by {
      assert multiset(noDot)[','] == multiset(text)[','];
      assert ',' in noDot <==> ',' in multiset(noDot);
      assert ',' in text <==> ',' in multiset(text);
    }
    assert |multiset(r)| == |r| && |multiset(noDot)| == |noDot| && |multiset(text)| == |text|;
  }

  /** Only the first '.' goes: in "1.2." the second one stays, at the end. */
  lemma SanitizeHourKeepsLaterDot()
    ensures SanitizeHour("1.2.") == "12."
  {
    var text := "1.2.";
    assert text[0] != '.' && text[1] == '.';
    assert JsString.IndexOf(text, '.') == 1;
    var t := text[..1] + text[2..];
    assert t == "12.";
    assert JsString.IndexOf(t, ',') == -1 by {
      assert forall k :: 0 <= k < |t| ==> t[k] != ',';
    }
  }

  /** Only the first ',' goes: in "1,2," the second one stays, at the end. */
  lemma SanitizeHourKeepsLaterComma()
    ensures SanitizeHour("1,2,") == "12,"
  {
    var text := "1,2,";
    assert JsString.IndexOf(text, '.') == -1 by {
      assert forall k :: 0 <= k < |text| ==> text[k] != '.';
    }
    assert text[0] != ',' && text[1] == ',';
    assert JsString.IndexOf(text, ',') == 1;
    assert text[..1] + text[2..] == "12,";
  }

  /** `resetFields`: empty form, overlay closed, everything else kept. */
  function ResetFields(s: PanelState): (r: PanelState)
    ensures |r.title| == 0 && |r.date| == 0 && |r.hour| == 0 && r.modal == NoModal
    ensures r.isCreating == s.isCreating && r.isLoading == s.isLoading && r.sections == s.sections
  {
    s.(title := "", date := "", hour := "", modal := NoModal)
  }

  /**
   * `loadActivities`: a successful answer replaces the sections with one
   * section per server day, titled by that day and holding its rows sorted;
   * a failed one keeps the old sections. Either way the list stops loading
   * and nothing else changes.
   */
  function LoadActivities(s: PanelState, reply: Option<seq<ServerDay>>, fmt: DayFormat, now: Instant): (r: PanelState)
    ensures !r.isLoading
    ensures reply.None? ==> r.sections == s.sections
    ensures reply.Some? ==> r.sections == BuildSections(fmt, now, reply.value)
    ensures reply.Some? ==> |r.sections| == |reply.value|
    ensures reply.Some? ==> forall i :: 0 <= i < |reply.value| ==>
              r.sections[i].title == SectionTitle(fmt.dayNumber(reply.value[i].date), fmt.dayName(reply.value[i].date))
    ensures reply.Some? ==> forall i :: 0 <= i < |reply.value| ==>
              SortedByHour(r.sections[i].data)
              && multiset(r.sections[i].data) == multiset(ToItems(fmt, now, reply.value[i].activities))
    ensures r.(isLoading := s.isLoading, sections := s.sections) == s
  {
    match reply
    case None => s.(isLoading := false)
    case Some(days) => s.(isLoading := false, sections := BuildSections(fmt, now, days))
  }

  /**
   * What the add call receives. The occurrence instant is the day plus the
   * hour field read as a number of hours, computed by the date library.
   */
  datatype ActivityRequest = ActivityRequest(tripId: string, date: string, hour: string, title: string)

  /** The first half of `handleCreateActivity`: the required-fields guard. */
  datatype Submission = Rejected | Submitted(pending: PanelState, request: ActivityRequest)

  /**
   * An empty title, hour or day is refused; otherwise the busy flag is set
   * and the request carries the fields as typed.
   */
  function StartCreate(s: PanelState, tripId: string): (r: Submission)
    ensures r.Rejected? <==> |s.title| == 0 || |s.hour| == 0 || |s.date| == 0
    ensures r.Submitted? ==> r.pending.isCreating && r.pending.(isCreating := s.isCreating) == s
    ensures r.Submitted? ==> r.request == ActivityRequest(tripId, s.date, s.hour, s.title)
  {
    if s.title == "" || s.hour == "" || s.date == "" then Rejected
    else Submitted(s.(isCreating := true), ActivityRequest(tripId, s.date, s.hour, s.title))
  }

  /** A reset form is refused by the guard until its fields are filled in again. */
  lemma ResetThenSaveRefused(s: PanelState, tripId: string)
    ensures StartCreate(ResetFields(s), tripId).Rejected?
  {
  }

  /**
   * The second half, once the add call has answered: after a successful
   * call the list is reloaded and the form reset; after a failed one only
   * the busy flag changes. The busy flag is cleared on both paths.
   */
  function FinishCreate(pending: PanelState, created: bool, reload: Option<seq<ServerDay>>,
                        fmt: DayFormat, now: Instant): (r: PanelState)
    ensures !r.isCreating
    ensures created ==> |r.title| == 0 && |r.date| == 0 && |r.hour| == 0 && r.modal == NoModal && !r.isLoading
    ensures created && reload.Some? ==> r.sections == BuildSections(fmt, now, reload.value)
    ensures created && reload.None? ==> r.sections == pending.sections
    ensures !created ==> r == pending.(isCreating := false)
  {
    if created then ResetFields(LoadActivities(pending, reload, fmt, now)).(isCreating := false)
    else pending.(isCreating := false)
  }

  /** After a successful save the same activity cannot be sent again without retyping it. */
  lemma SavedFormRefusesResend(pending: PanelState, reload: Option<seq<ServerDay>>,
                               fmt: DayFormat, now: Instant, tripId: string)
    ensures StartCreate(FinishCreate(pending, true, reload, fmt, now), tripId).Rejected?
  {
  }

  /**
   * `handleCreateActivity` end to end, when nothing else happens while the
   * call is awaited. A refusal sends nothing and changes no field; the
   * `finally` block still clears the busy flag, as it does on every other
   * path.
   */
  function CreateActivity(s: PanelState, tripId: string, created: bool, reload: Option<seq<ServerDay>>,
                          fmt: DayFormat, now: Instant): (r: (PanelState, Option<ActivityRequest>))
    ensures !r.0.isCreating
    ensures r.1.None? <==> |s.title| == 0 || |s.hour| == 0 || |s.date| == 0
    ensures r.1.None? ==> r.0 == s.(isCreating := false)
    ensures r.1.Some? ==> r.1.value == ActivityRequest(tripId, s.date, s.hour, s.title)
    ensures r.1.Some? && !created ==> r.0 == s.(isCreating := false)
    ensures r.1.Some? && created ==>
              |r.0.title| == 0 && |r.0.date| == 0 && |r.0.hour| == 0 && r.0.modal == NoModal && !r.0.isLoading
    ensures r.1.Some? && created && reload.Some? ==> r.0.sections == BuildSections(fmt, now, reload.value)
    ensures r.1.Some? && created && reload.None? ==> r.0.sections == s.sections
  {
    match StartCreate(s, tripId)
    case Rejected => (s.(isCreating := false), None)
    case Submitted(pending, request) => (FinishCreate(pending, created, reload, fmt, now), Some(request))
  }

  /**
   * The user-visible events and the server's answers. A save is two events:
   * the press, which sends the add call, and the call's answer, which carries
   * whether the call succeeded and the answer of the reload that follows a
   * success. `ListLoaded` is the answer to the load started when the tab
   * mounts.
   */
  datatype Event =
    | PressNewActivity
    | CloseNewActivity
    | EditTitle(text: string)
    | PressDateField
    | EditHour(text: string)
    | TapDay(day: string)
    | CloseCalendar
    | ConfirmCalendar
    | PressSave
    | SaveAnswered(created: bool, reload: Option<seq<ServerDay>>, now: Instant)
    | ListLoaded(reply: Option<seq<ServerDay>>, now: Instant)

  /**
   * Whether an event can happen: the form's controls only while the form is
   * visible, the picker's only while the picker is, the save button not
   * while a save is running, and the "New Activity" button only while no
   * modal covers it. An add call is answered only while one is running; the
   * mount load may answer at any time. So while an overlay is open only its
   * own controls and the server's answers get through.
   */
  predicate Enabled(s: PanelState, e: Event)
    ensures Enabled(s, e) && s.modal == CalendarModal ==>
              e.TapDay? || e == CloseCalendar || e == ConfirmCalendar || e.SaveAnswered? || e.ListLoaded?
    ensures Enabled(s, e) && s.modal == NoModal ==>
              e == PressNewActivity || e.SaveAnswered? || e.ListLoaded?
    ensures Enabled(s, e) && e.SaveAnswered? ==> s.isCreating
  {
    match e
    case PressNewActivity => s.modal == NoModal
    case CloseNewActivity => s.modal == NewActivityModal
    case EditTitle(_) => s.modal == NewActivityModal
    case PressDateField => s.modal == NewActivityModal
    case EditHour(_) => s.modal == NewActivityModal
    case TapDay(_) => s.modal == CalendarModal
    case CloseCalendar => s.modal == CalendarModal
    case ConfirmCalendar => s.modal == CalendarModal
    case PressSave => s.modal == NewActivityModal && !s.isCreating
    case SaveAnswered(_, _, _) => s.isCreating
    case ListLoaded(_, _) => true
  }

  /**
   * The handler behind each event. Only the server's answers touch the
   * sections, only a save press or its answer touches the busy flag, and
   * only the title field or a successful save touches the title.
   */
  function Step(s: PanelState, e: Event, tripId: string, fmt: DayFormat): (r: PanelState)
    ensures r.sections != s.sections ==> e.ListLoaded? || e.SaveAnswered?
    ensures r.isCreating != s.isCreating ==> e == PressSave || e.SaveAnswered?
    ensures r.title != s.title ==> e.EditTitle? || (e.SaveAnswered? && e.created)
  {
    match e
    case PressNewActivity => s.(modal := NewActivityModal)
    case CloseNewActivity => s.(modal := NoModal)
    case EditTitle(text) => s.(title := text)
    case PressDateField => s.(modal := CalendarModal)
    case EditHour(text) => s.(hour := SanitizeHour(text))
    case TapDay(day) => s.(date := day)
    case CloseCalendar => s.(modal := NewActivityModal)
    case ConfirmCalendar => s.(modal := NewActivityModal)
    case PressSave =>
      (match StartCreate(s, tripId)
       case Rejected => s.(isCreating := false)
       case Submitted(pending, _) => pending)
    case SaveAnswered(created, reload, now) => FinishCreate(s, created, reload, fmt, now)
    case ListLoaded(reply, now) => LoadActivities(s, reply, fmt, now)
  }

  /** The add call an event sends: only a save press that passes the guard sends one. */
  function Sent(s: PanelState, e: Event, tripId: string): (r: Option<ActivityRequest>)
    ensures r.Some? <==> Enabled(s, e) && e == PressSave && |s.title| > 0 && |s.hour| > 0 && |s.date| > 0
    ensures r.Some? ==> r.value == ActivityRequest(tripId, s.date, s.hour, s.title)
  {
    if Enabled(s, e) && e == PressSave && StartCreate(s, tripId).Submitted? then Some(StartCreate(s, tripId).request)
    else None
  }

  /** Where a run ends, the add calls it sent in order, and how many answers it received. */
  datatype Trace = Trace(final: PanelState, sent: seq<ActivityRequest>, answered: nat)

  /**
   * A sequence of events; an event that cannot happen does nothing. Each
   * event sends at most one add call or brings at most one answer, and every
   * add call a run sends is for this trip and has a title, an hour and a day.
   */
  function Run(s: PanelState, events: seq<Event>, tripId: string, fmt: DayFormat): (r: Trace)
    ensures |r.sent| + r.answered <= |events|
    ensures forall i :: 0 <= i < |r.sent| ==>
              r.sent[i].tripId == tripId && |r.sent[i].title| > 0 && |r.sent[i].hour| > 0 && |r.sent[i].date| > 0
    decreases |events|
  {
    if |events| == 0 then Trace(s, [], 0)
    else
      var e := events[0];
      var s' := if Enabled(s, e) then Step(s, e, tripId, fmt) else s;
      var sent := Sent(s, e, tripId);
      var t := Run(s', events[1..], tripId, fmt);
      Trace(t.final,
            (if sent.Some? then [sent.value] else []) + t.sent,
            (if Enabled(s, e) && e.SaveAnswered? then 1 else 0) + t.answered)
  }

  /** A run that ends with other sections holds a server answer. */
  lemma {:induction false} RunChangesSectionsOnlyByAnswers(s: PanelState, events: seq<Event>, tripId: string,
                                                           fmt: DayFormat)
    ensures Run(s, events, tripId, fmt).final.sections != s.sections ==>
              exists i :: 0 <= i < |events| && (events[i].ListLoaded? || events[i].SaveAnswered?)
    decreases |events|
  {
    if |events| > 0 {
      var s' := if Enabled(s, events[0]) then Step(s, events[0], tripId, fmt) else s;
      RunChangesSectionsOnlyByAnswers(s', events[1..], tripId, fmt);
      if Run(s', events[1..], tripId, fmt).final.sections != s'.sections {
        var i :| 0 <= i < |events[1..]| && (events[1..][i].ListLoaded? || events[1..][i].SaveAnswered?);
        assert events[i + 1] == events[1..][i];
      }
    }
  }

  /** The busy flag as a count: one add call awaited, or none. */
  function Busy(s: PanelState): (n: nat)
    ensures n <= 1 && (n == 1 <==> s.isCreating)
  {
    if s.isCreating then 1 else 0
  }

  /**
   * Calls and answers balance: the calls awaited at the end of a run, plus
   * the answers received during it, are the calls awaited at its start plus
   * those it sent.
   */
  lemma {:induction false} RunBalancesCalls(s: PanelState, events: seq<Event>, tripId: string, fmt: DayFormat)
    ensures var t := Run(s, events, tripId, fmt);
            Busy(t.final) + t.answered == Busy(s) + |t.sent|
    decreases |events|
  {
    if |events| > 0 {
      var s' := if Enabled(s, events[0]) then Step(s, events[0], tripId, fmt) else s;
      StepBalancesCalls(s, events[0], tripId, fmt);
      RunBalancesCalls(s', events[1..], tripId, fmt);
    }
  }

  /** One event sends a call, answers one, or leaves the busy flag as it was. */
  lemma StepBalancesCalls(s: PanelState, e: Event, tripId: string, fmt: DayFormat)
    ensures var s' := if Enabled(s, e) then Step(s, e, tripId, fmt) else s;
            Busy(s') + (if Enabled(s, e) && e.SaveAnswered? then 1 else 0)
            == Busy(s) + (if Sent(s, e, tripId).Some? then 1 else 0)
  {
  }

  /**
   * From a screen that is not saving, the save button is busy exactly while
   * a sent add call is unanswered, and at most one call is ever awaited.
   */
  lemma RunBusyIffCallPending(s: PanelState, events: seq<Event>, tripId: string, fmt: DayFormat)
    requires !s.isCreating
    ensures var t := Run(s, events, tripId, fmt);
            && t.answered <= |t.sent| <= t.answered + 1
            && (t.final.isCreating <==> |t.sent| == t.answered + 1)
  {
    RunBalancesCalls(s, events, tripId, fmt);
  }

  /** A press of the save button while a save is running sends nothing and changes nothing. */
  lemma SaveWhileBusyIgnored(s: PanelState, tripId: string, fmt: DayFormat)
    requires s.isCreating
    ensures Run(s, [PressSave], tripId, fmt) == Trace(s, [], 0)
  {
  }

  /**
   * With nothing in between, a press of the save button and the call's
   * answer do what `handleCreateActivity` does end to end.
   */
  lemma PressThenAnswerIsCreate(s: PanelState, tripId: string, fmt: DayFormat,
                                created: bool, reload: Option<seq<ServerDay>>, now: Instant)
    requires s.modal == NewActivityModal && !s.isCreating
    ensures var t := Run(s, [PressSave, SaveAnswered(created, reload, now)], tripId, fmt);
            var c := CreateActivity(s, tripId, created, reload, fmt, now);
            t.final == c.0 && (c.1.None? ==> t.sent == []) && (c.1.Some? ==> t.sent == [c.1.value])
  {
    var answer := SaveAnswered(created, reload, now);
    assert [PressSave, answer][1..] == [answer];
    var s1 := Step(s, PressSave, tripId, fmt);
    AnswerAlone(s1, created, reload, now, tripId, fmt);
    match StartCreate(s, tripId)
    case Rejected =>
      assert s1 == s;
    case Submitted(pending, request) =>
      assert Sent(s, PressSave, tripId) == Some(request);
  }

  /** A run of a single add-call answer: it lands only while a call is awaited. */
  lemma AnswerAlone(s: PanelState, created: bool, reload: Option<seq<ServerDay>>, now: Instant,
                    tripId: string, fmt: DayFormat)
    ensures Run(s, [SaveAnswered(created, reload, now)], tripId, fmt)
            == if s.isCreating then Trace(FinishCreate(s, created, reload, fmt, now), [], 1) else Trace(s, [], 0)
  {
    assert [SaveAnswered(created, reload, now)][1..] == [];
  }

  /**
   * The overlay's forward moves: "New Activity" shows the form, the day
   * field swaps it for the picker, both ways out of the picker return to the
   * form, and closing the form leaves no overlay.
   */
  lemma OverlayMoves(s: PanelState, tripId: string, fmt: DayFormat)
    ensures Step(s, PressNewActivity, tripId, fmt).modal == NewActivityModal
    ensures Step(s, PressDateField, tripId, fmt).modal == CalendarModal
    ensures Step(s, CloseCalendar, tripId, fmt).modal == NewActivityModal
    ensures Step(s, ConfirmCalendar, tripId, fmt).modal == NewActivityModal
    ensures Step(s, CloseNewActivity, tripId, fmt).modal == NoModal
  {
  }

  /**
   * The date picker nests inside the form: it is entered only from the
   * form, by the day field, and every control that leaves it lands back on
   * the form. The one other way out is the answer of a successful save sent
   * before the picker was opened: its reset closes every overlay.
   */
  lemma CalendarNestedInForm(s: PanelState, e: Event, tripId: string, fmt: DayFormat)
    requires Enabled(s, e)
    ensures s.modal != CalendarModal && Step(s, e, tripId, fmt).modal == CalendarModal
            ==> s.modal == NewActivityModal && e == PressDateField
    ensures s.modal == CalendarModal && Step(s, e, tripId, fmt).modal != CalendarModal
            ==> Step(s, e, tripId, fmt).modal == NewActivityModal
                || (e.SaveAnswered? && e.created && Step(s, e, tripId, fmt).modal == NoModal)
  {
  }

  /** The form is opened only by the "New Activity" button, from no overlay. */
  lemma FormOpensFromNothing(s: PanelState, e: Event, tripId: string, fmt: DayFormat)
    requires Enabled(s, e)
    requires s.modal == NoModal && Step(s, e, tripId, fmt).modal == NewActivityModal
    ensures e == PressNewActivity
  {
  }
}
