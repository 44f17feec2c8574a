/**
 * The links part of a trip's details tab: a modal that is open or closed,
 * the title and URL typed into it, the busy flag of the save button, and the
 * list of links loaded from the server.
 *
 * The URL syntax check is not part of this model; it is the `validUrl`
 * parameter. Server answers arrive as the payload of the events that await
 * them.
 */
module LinkPanel {
  import opened Results
  import JsString

  datatype Link = Link(id: string, title: string, url: string)

  datatype LinkState = LinkState(
    showModal: bool,
    isCreating: bool,
    title: string,
    url: string,
    links: seq<Link>)

  function Init(): (s: LinkState)
    ensures !s.showModal && !s.isCreating
    ensures |s.title| == 0 && |s.url| == 0 && |s.links| == 0
  {
    LinkState(false, false, "", "", [])
  }

  /** The alerts `handleCreateLink` can show instead of saving. */
  datatype LinkAlert = MissingTitle | InvalidLink

  /** What the create call receives. */
  datatype LinkRequest = LinkRequest(tripId: string, title: string, url: string)

  /**
   * The guard of `handleCreateLink`, in its order: a title that is blank
   * after trimming is reported first, even when the URL is bad too; then a
   * URL whose trimmed text the validator rejects. What passes is submitted
   * as typed, untrimmed.
   */
  function CheckLink(tripId: string, title: string, url: string, validUrl: string -> bool): (r: Result<LinkRequest, LinkAlert>)
    ensures r == Err(MissingTitle) <==> forall i :: 0 <= i < |title| ==> JsString.IsWhitespace(title[i])
    ensures r == Err(InvalidLink) <==> !JsString.IsBlank(title) && !validUrl(JsString.Trim(url))
    ensures r.Ok? <==> !JsString.IsBlank(title) && validUrl(JsString.Trim(url))
    ensures r.Ok? ==> r.value.tripId == tripId && r.value.title == title && r.value.url == url
  {
    JsString.BlankIffAllWhitespace(title);
    if JsString.IsBlank(title) then Err(MissingTitle)
    else if !validUrl(JsString.Trim(url)) then Err(InvalidLink)
    else Ok(LinkRequest(tripId, title, url))
  }

  /**
   * Padding is checked away but sent: " Map " passes the title check and is
   * submitted with its spaces.
   */
  lemma PaddedLinkSubmittedRaw(tripId: string, url: string, validUrl: string -> bool)
    requires validUrl(JsString.Trim(url))
    ensures CheckLink(tripId, " Map ", url, validUrl) == Ok(LinkRequest(tripId, " Map ", url))
    ensures JsString.Trim(" Map ") != " Map "
  {
    var t := " Map ";
    assert !JsString.IsWhitespace(t[1]);
    assert JsString.IsWhitespace(t[0]);
  }

  /** `resetFields`: empty title and URL, modal closed, the rest kept. */
  function ResetFields(s: LinkState): (r: LinkState)
    ensures |r.title| == 0 && |r.url| == 0 && !r.showModal
    ensures r.isCreating == s.isCreating && r.links == s.links
  {
    s.(title := "", url := "", showModal := false)
  }

  /** A reset form is refused for its missing title until a title is typed again. */
  lemma ResetThenCheckRefused(s: LinkState, tripId: string, validUrl: string -> bool)
    ensures CheckLink(tripId, ResetFields(s).title, ResetFields(s).url, validUrl) == Err(MissingTitle)
  {
  }

  /** `getTripLinks`: a successful answer replaces the list, a failed one keeps it. */
  function LoadLinks(s: LinkState, reply: Option<seq<Link>>): (r: LinkState)
    ensures reply.Some? ==> r.links == reply.value
    ensures reply.None? ==> r == s
    ensures r.(links := s.links) == s
  {
    match reply
    case None => s
    case Some(links) => s.(links := links)
  }

  /**
   * The second half of `handleCreateLink`, once the create call has
   * answered: a success reloads the list and resets the form, a failure
   * changes nothing else. The busy flag is cleared on both paths.
   */
  function FinishLink(pending: LinkState, created: bool, reload: Option<seq<Link>>): (r: LinkState)
    ensures !r.isCreating
    ensures created ==> |r.title| == 0 && |r.url| == 0 && !r.showModal
    ensures created && reload.Some? ==> r.links == reload.value
    ensures created && reload.None? ==> r.links == pending.links
    ensures !created ==> r == pending.(isCreating := false)
  {
    if created then ResetFields(LoadLinks(pending, reload)).(isCreating := false)
    else pending.(isCreating := false)
  }

  /**
   * `handleCreateLink` end to end, when nothing else happens while the call
   * is awaited. A refused link sends nothing and changes no field. A sent
   * one that the server accepts reloads the list and resets the form; one it
   * refuses changes nothing. The busy flag, set just before the call, is
   * cleared on every path by the `finally` block.
   */
  function CreateLink(s: LinkState, tripId: string, validUrl: string -> bool,
                      created: bool, reload: Option<seq<Link>>): (r: (LinkState, Result<LinkRequest, LinkAlert>))
    ensures !r.0.isCreating
    ensures r.1 == CheckLink(tripId, s.title, s.url, validUrl)
    ensures r.1.Err? || !created ==> r.0 == s.(isCreating := false)
    ensures r.1.Ok? && created ==> |r.0.title| == 0 && |r.0.url| == 0 && !r.0.showModal
    ensures r.1.Ok? && created && reload.Some? ==> r.0.links == reload.value
    ensures r.1.Ok? && created && reload.None? ==> r.0.links == s.links
  {
    var check := CheckLink(tripId, s.title, s.url, validUrl);
    if check.Err? then (s.(isCreating := false), check)
    else (FinishLink(s.(isCreating := true), created, reload), check)
  }

  /**
   * The user-visible events and the server's answers. A save is two events:
   * the press, which sends the create call when the guard passes, and the
   * call's answer, which carries whether it succeeded and the answer of the
   * reload that follows a success. `LinksLoaded` is the answer to the load
   * started when the tab mounts.
   */
  datatype Event =
    | PressCreateLink
    | CloseModal
    | EditTitle(text: string)
    | EditUrl(text: string)
    | PressSave
    | SaveAnswered(created: bool, reload: Option<seq<Link>>)
    | LinksLoaded(reply: Option<seq<Link>>)

  /**
   * Whether an event can happen: the create button only while the modal
   * does not cover it, the modal's controls only while it is open, the save
   * button not while a save is running, and a create call's answer only
   * while one is running. With the modal closed, only the create button and
   * the server's answers get through.
   */
  predicate Enabled(s: LinkState, e: Event)
    ensures Enabled(s, e) && !s.showModal ==> e == PressCreateLink || e.SaveAnswered? || e.LinksLoaded?
    ensures Enabled(s, e) && s.showModal ==> e != PressCreateLink
    ensures Enabled(s, e) && e.SaveAnswered? ==> s.isCreating
  {
    match e
    case PressCreateLink => !s.showModal
    case CloseModal => s.showModal
    case EditTitle(_) => s.showModal
    case EditUrl(_) => s.showModal
    case PressSave => s.showModal && !s.isCreating
    case SaveAnswered(_, _) => s.isCreating
    case LinksLoaded(_) => true
  }

  /**
   * The handler behind each event. Only the server's answers touch the
   * list, and only a save press or its answer touches the busy flag.
   */
  function Step(s: LinkState, e: Event, tripId: string, validUrl: string -> bool): (r: LinkState)
    ensures r.links != s.links ==> e.LinksLoaded? || e.SaveAnswered?
    ensures r.isCreating != s.isCreating ==> e == PressSave || e.SaveAnswered?
  {
    match e
    case PressCreateLink => s.(showModal := true)
    case CloseModal => s.(showModal := false)
    case EditTitle(text) => s.(title := text)
    case EditUrl(text) => s.(url := text)
    case PressSave => s.(isCreating := CheckLink(tripId, s.title, s.url, validUrl).Ok?)
    case SaveAnswered(created, reload) => FinishLink(s, created, reload)
    case LinksLoaded(reply) => LoadLinks(s, reply)
  }

  /**
   * The modal opens through the create button and closes through its close
   * control; the only other way it closes is the answer of an accepted save.
   */
  lemma ModalOpensAndClosesOnlyThus(s: LinkState, e: Event, tripId: string, validUrl: string -> bool)
    requires Enabled(s, e)
    ensures Step(s, PressCreateLink, tripId, validUrl).showModal
    ensures !Step(s, CloseModal, tripId, validUrl).showModal
    ensures !s.showModal && Step(s, e, tripId, validUrl).showModal ==> e == PressCreateLink
    ensures s.showModal && !Step(s, e, tripId, validUrl).showModal ==>
              e == CloseModal || (e.SaveAnswered? && e.created)
  {
  }

  /** The create call an event sends: only a save press that passes the guard sends one. */
  function Sent(s: LinkState, e: Event, tripId: string, validUrl: string -> bool): (r: Option<LinkRequest>)
    ensures r.Some? <==> Enabled(s, e) && e == PressSave && CheckLink(tripId, s.title, s.url, validUrl).Ok?
    ensures r.Some? ==> r.value == LinkRequest(tripId, s.title, s.url)
    ensures r.Some? ==> CheckLink(tripId, r.value.title, r.value.url, validUrl) == Ok(r.value)
  {
    if Enabled(s, e) && e == PressSave && CheckLink(tripId, s.title, s.url, validUrl).Ok?
    then Some(CheckLink(tripId, s.title, s.url, validUrl).value)
    else None
  }

  /** Where a run ends, the create calls it sent in order, and how many answers it received. */
  datatype Trace = Trace(final: LinkState, sent: seq<LinkRequest>, answered: nat)

  /**
   * A sequence of events; an event that cannot happen does nothing. Each
   * event sends at most one create call or brings at most one answer, and
   * every call is for this trip.
   */
  function Run(s: LinkState, events: seq<Event>, tripId: string, validUrl: string -> bool): (r: Trace)
    ensures |r.sent| + r.answered <= |events|
    ensures forall i :: 0 <= i < |r.sent| ==> r.sent[i].tripId == tripId
    decreases |events|
  {
    if |events| == 0 then Trace(s, [], 0)
    else
      var e := events[0];
      var s' := if Enabled(s, e) then Step(s, e, tripId, validUrl) else s;
      var sent := Sent(s, e, tripId, validUrl);
      var t := Run(s', events[1..], tripId, validUrl);
      Trace(t.final,
            (if sent.Some? then [sent.value] else []) + t.sent,
            (if Enabled(s, e) && e.SaveAnswered? then 1 else 0) + t.answered)
  }

  /** The calls a run sends: the first event's, then those of the rest of the run. */
  lemma RunSentSplit(s: LinkState, events: seq<Event>, tripId: string, validUrl: string -> bool)
    requires |events| > 0
    ensures var here := Sent(s, events[0], tripId, validUrl);
            var s' := if Enabled(s, events[0]) then Step(s, events[0], tripId, validUrl) else s;
            Run(s, events, tripId, validUrl).sent
            == (if here.Some? then [here.value] else []) + Run(s', events[1..], tripId, validUrl).sent
  {
  }

  /**
   * Every create call a run sends is one the guard lets through as it is:
   * with a title that is not blank and a URL whose trimmed text the
   * validator accepts.
   */
  lemma {:induction false} RunSendsOnlyGuarded(s: LinkState, events: seq<Event>, tripId: string,
                                               validUrl: string -> bool)
    ensures var sent := Run(s, events, tripId, validUrl).sent;
            forall i :: 0 <= i < |sent| ==> CheckLink(tripId, sent[i].title, sent[i].url, validUrl) == Ok(sent[i])
    decreases |events|
  {
    if |events| > 0 {
      var s' := if Enabled(s, events[0]) then Step(s, events[0], tripId, validUrl) else s;
      RunSendsOnlyGuarded(s', events[1..], tripId, validUrl);
      RunSentSplit(s, events, tripId, validUrl);
      var guarded := (q: LinkRequest) => CheckLink(tripId, q.title, q.url, validUrl) == Ok(q);
      AllAfterCons(guarded, Sent(s, events[0], tripId, validUrl), Run(s', events[1..], tripId, validUrl).sent);
    }
  }

  /** A run that ends with another list of links holds a server answer. */
  lemma {:induction false} RunChangesLinksOnlyByAnswers(s: LinkState, events: seq<Event>, tripId: string,
                                                        validUrl: string -> bool)
    ensures Run(s, events, tripId, validUrl).final.links != s.links ==>
              exists i :: 0 <= i < |events| && (events[i].LinksLoaded? || events[i].SaveAnswered?)
    decreases |events|
  {
    if |events| > 0 {
      var s' := if Enabled(s, events[0]) then Step(s, events[0], tripId, validUrl) else s;
      RunChangesLinksOnlyByAnswers(s', events[1..], tripId, validUrl);
      if Run(s', events[1..], tripId, validUrl).final.links != s'.links {
        var i :| 0 <= i < |events[1..]| && (events[1..][i].LinksLoaded? || events[1..][i].SaveAnswered?);
        assert events[i + 1] == events[1..][i];
      }
    }
  }

  /** The busy flag as a count: one create call awaited, or none. */
  function Busy(s: LinkState): (n: nat)
    ensures n <= 1 && (n == 1 <==> s.isCreating)
  {
    if s.isCreating then 1 else 0
  }

  /**
   * Calls and answers balance: the calls awaited at the end of a run, plus
   * the answers received during it, are the calls awaited at its start plus
   * those it sent.
   */
  lemma {:induction false} RunBalancesCalls(s: LinkState, events: seq<Event>, tripId: string, validUrl: string -> bool)
    ensures var t := Run(s, events, tripId, validUrl);
            Busy(t.final) + t.answered == Busy(s) + |t.sent|
    decreases |events|
  {
    if |events| > 0 {
      var s' := if Enabled(s, events[0]) then Step(s, events[0], tripId, validUrl) else s;
      StepBalancesCalls(s, events[0], tripId, validUrl);
      RunBalancesCalls(s', events[1..], tripId, validUrl);
    }
  }

  /** One event sends a call, answers one, or leaves the busy flag as it was. */
  lemma StepBalancesCalls(s: LinkState, e: Event, tripId: string, validUrl: string -> bool)
    ensures var s' := if Enabled(s, e) then Step(s, e, tripId, validUrl) else s;
            Busy(s') + (if Enabled(s, e) && e.SaveAnswered? then 1 else 0)
            == Busy(s) + (if Sent(s, e, tripId, validUrl).Some? then 1 else 0)
  {
  }

  /**
   * From a screen that is not saving, the save button is busy exactly while
   * a sent create call is unanswered, and at most one call is ever awaited.
   */
  lemma RunBusyIffCallPending(s: LinkState, events: seq<Event>, tripId: string, validUrl: string -> bool)
    requires !s.isCreating
    ensures var t := Run(s, events, tripId, validUrl);
            && t.answered <= |t.sent| <= t.answered + 1
            && (t.final.isCreating <==> |t.sent| == t.answered + 1)
  {
    RunBalancesCalls(s, events, tripId, validUrl);
  }

  /** A press of the save button while a save is running sends nothing and changes nothing. */
  lemma SaveWhileBusyIgnored(s: LinkState, tripId: string, validUrl: string -> bool)
    requires s.isCreating
    ensures Run(s, [PressSave], tripId, validUrl) == Trace(s, [], 0)
  {
  }

  /**
   * With nothing in between, a press of the save button and the call's
   * answer do what `handleCreateLink` does end to end.
   */
  lemma PressThenAnswerIsCreate(s: LinkState, tripId: string, validUrl: string -> bool,
                                created: bool, reload: Option<seq<Link>>)
    requires s.showModal && !s.isCreating
    ensures var t := Run(s, [PressSave, SaveAnswered(created, reload)], tripId, validUrl);
            var c := CreateLink(s, tripId, validUrl, created, reload);
            t.final == c.0 && (c.1.Err? ==> t.sent == []) && (c.1.Ok? ==> t.sent == [c.1.value])
  {
    var answer := SaveAnswered(created, reload);
    assert [PressSave, answer][1..] == [answer];
    var check := CheckLink(tripId, s.title, s.url, validUrl);
    var s1 := s.(isCreating := check.Ok?);
    assert Step(s, PressSave, tripId, validUrl) == s1;
    AnswerAlone(s1, created, reload, tripId, validUrl);
    if check.Ok? {
      assert Sent(s, PressSave, tripId, validUrl) == Some(check.value);
    } else {
      assert s1 == s;
    }
  }

  /** A run of a single create-call answer: it lands only while a call is awaited. */
  lemma AnswerAlone(s: LinkState, created: bool, reload: Option<seq<Link>>, tripId: string, validUrl: string -> bool)
    ensures Run(s, [SaveAnswered(created, reload)], tripId, validUrl)
            == if s.isCreating then Trace(FinishLink(s, created, reload), [], 1) else Trace(s, [], 0)
  {
    assert [SaveAnswered(created, reload)][1..] == [];
  }
}
