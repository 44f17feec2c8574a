# Trip planner screens, modelled in Dafny

This project models the event handling of the trip-planner mobile client's three screen controllers. Each one becomes an immutable state record with pure `(state, event) -> state` functions:

- **Trip creation** (`src/app/index.tsx`), modules `TripWizard` and `GuestEmails`. It is a two-step form: trip details, then guest e-mails. It has one overlay slot that holds the date picker, the guest list or nothing. The main button's guard checks the destination and both days. The guest list has add and remove handlers.
- **Activities tab** (`src/app/trip/activities.tsx`), modules `ActivityPanel` and `ActivitySections`. It has an overlay slot whose date picker nests inside the add-activity form. The other parts are:
  - the required-fields guard;
  - the hour-field sanitiser;
  - the busy flag of the save button;
  - how the server's day groups become list sections, sorted by their `"hh:mm a"` label compared as text.
- **Links part of the details tab** (`src/app/trip/details.tsx`), module `LinkPanel`. It has a boolean modal and a title/URL guard that checks trimmed values but submits the raw ones. It also has the form reset and the busy flag.

`JsString` models the JavaScript string operations these handlers use:
- `trim`;
- `length`, which counts UTF-16 code units (`Utf16Length`);
- `indexOf` and `replace` with a one-character pattern;
- the `<` operator on strings.

`Results` holds `Option` and `Result`.

Collaborators that are not part of this model are passed in as function-valued parameters or as event payloads:
- the e-mail and URL validators (`validateInput`);
- the calendar helper that orders a tapped day into the range (`calendarUtils.orderStartsAtAndEndsAt`);
- the date library's formatters;
- the clock;
- the answers of the server calls.

Each screen's `Step` applies the handler behind an event. Its `Enabled` predicate says whether the control behind that event can be used at all. That depends on:
- JSX conditional rendering;
- a modal's `visible` flag;
- a text field's `editable` flag;
- `disabled={isLoading}` on a button.

`Run` applies a sequence of events and skips the disabled ones. The model assumes that a visible modal covers the controls of the screen beneath it. The modal component itself is not part of this model.

A save on the activities tab or the links panel awaits the server. It is therefore two events: `PressSave` runs the guard and, when it passes, sends the create call and sets the busy flag; `SaveAnswered` carries the call's outcome and clears the flag. Any other event may come in between. In the two panels, `Run` also returns the calls sent and the number of answers received, so that the busy flag can be related to the calls still awaited.

Behaviours of the code that the model keeps as written:
- Passing the guard on the details step changes only the step. The open overlay is left as it was.
- "Change local/date" changes only the step. The open overlay, the e-mails, the days and the destination are kept.
- The destination's length guard counts UTF-16 code units of the untrimmed text. Padding counts, and a character above U+FFFF counts twice.
- Guest e-mails are compared and stored exactly as typed, with no case normalisation.
- The duplicate check uses `find`, whose result is tested for truthiness. An existing `""` entry therefore does not count as a duplicate. The no-duplicates invariant holds only when the validator refuses `""` (`GuestEmails.EmptyAddressCanRepeat`).
- Sections keep the server's day order. Days with no activities are kept as empty sections.
- The hour sanitiser removes only the first `'.'` and the first `','`, not every separator.
- A successful save resets the form and closes every overlay, the date picker included when it was opened while the call was awaited.

## Model

| member | source | states |
|---|---|---|
| TripWizard.Init | src/app/index.tsx:31-38 | The screen starts on the details step with no overlay, no days, an empty destination, an empty e-mail input and no guests |
| TripWizard.Next | src/app/index.tsx:45-69 | "Fill all fields" exactly when the destination is all whitespace or a day is missing. "Too short" exactly when that passes but the untrimmed length in UTF-16 code units is under 4. Passing on the details step moves to the e-mail step with nothing else changed. Passing on the e-mail step only requests confirmation. A refusal changes nothing |
| TripWizard.PaddedDestinationAdvances | src/app/index.tsx:51-56 | `"  ab"` with both days passes both guards and advances, because the length is counted before trimming |
| TripWizard.AstralDestinationAdvances | src/app/index.tsx:51-56 | Two characters above U+FFFF with both days advance: their JavaScript length is 4 |
| TripWizard.ShortDestinationRefused | src/app/index.tsx:51-53 | `"Pa"` with both days is refused as too short |
| TripWizard.SelectDay | src/app/index.tsx:71-80 | Tapping a day sets the range to what the calendar helper returns and changes nothing else |
| TripWizard.PressWhen | src/app/index.tsx:188 | The "When?" field opens the date picker exactly on the details step and otherwise changes nothing |
| TripWizard.Enabled | src/app/index.tsx:179-290 | While the date picker is open only its day taps, close and confirm get through. While the guest list is open only its close, e-mail field, invite and remove get through. With no overlay, none of the modals' controls does |
| TripWizard.Step | src/app/index.tsx:45-99 | Only the main button and "Change local/date" change the step. Only the destination field changes the destination. Only a tapped day changes the dates. Only inviting or removing a guest changes the guest list |
| TripWizard.Run | src/app/index.tsx:179-290 | A run ending with another guest list contains an invitation or a removal. A run ending on another step contains a press of the main button or of "Change local/date" |
| TripWizard.ChangeLocalDateKeepsForm | src/app/index.tsx:196 | "Change local/date" sets the details step. Overlay, days, destination, input and guests are all kept |
| TripWizard.ClosingReturnsToNoModal | src/app/index.tsx:239-261 | Closing or confirming the date picker and closing the guest list all leave no overlay open |
| TripWizard.CalendarOpensOnlyOnDetails | src/app/index.tsx:184-188 | Any event that opens the date picker is the "When?" field pressed on the details step |
| TripWizard.StepKeepsConsistent | src/app/index.tsx:179-222 | An enabled event keeps three facts true. The date picker is open only on the details step. The guest list is open only on the e-mail step. The e-mail step holds only a destination and days that pass the guard |
| TripWizard.StepKeepsGuestsWellFormed | src/app/index.tsx:82-99 | Every event keeps the guest list duplicate-free and made of validated addresses, given that `""` is not a valid address |
| TripWizard.RunKeepsInvariants | src/app/index.tsx:45-99 | Every run of events from a consistent, well-formed screen ends in a consistent, well-formed screen |
| TripWizard.InitialRunsAreConsistent | src/app/index.tsx:31-99 | Every run of events from the initial screen ends consistent, with a duplicate-free, validated guest list |
| GuestEmails.AddEmail | src/app/index.tsx:86-99 | An invalid candidate changes nothing. So does a non-empty candidate already in the list. Otherwise the candidate is appended at the end and the input is cleared. Each outcome is stated both ways |
| GuestEmails.AddEmailKeepsNoDuplicates | src/app/index.tsx:91-97 | Adding keeps a duplicate-free list duplicate-free when `""` is not a valid address |
| GuestEmails.AddEmailKeepsValid | src/app/index.tsx:87-97 | Every address in the list after an add passed the validator |
| GuestEmails.EmptyAddressCanRepeat | src/app/index.tsx:91-95 | Because `find` returns the found element and `""` is falsy, a validator accepting `""` would let `""` in twice |
| GuestEmails.RemoveEmail | src/app/index.tsx:82-84 | Removal drops every copy of the target and keeps the count of every other address |
| GuestEmails.RemoveEmailConcat | src/app/index.tsx:83 | Filtering distributes over concatenation, so the survivors keep their relative order |
| GuestEmails.RemoveAbsentIsNoOp | src/app/index.tsx:83 | Removing an address that is not listed leaves the list unchanged |
| GuestEmails.RemoveEmailIdempotent | src/app/index.tsx:83 | Removing twice equals removing once |
| GuestEmails.RemoveEmailKeepsNoDuplicates | src/app/index.tsx:82-84 | A duplicate-free list stays duplicate-free after a removal |
| GuestEmails.RemoveEmailSubset | src/app/index.tsx:83 | Every address left after a removal was listed before and is not the target |
| JsString.Trim | src/app/index.tsx:46 | `trim()` gives the slice of the input between whitespace-only margins. It is empty exactly when the input is all whitespace. Otherwise it starts and ends with a non-whitespace character |
| JsString.LeadingWhitespace | src/app/index.tsx:46 | The length of the longest all-whitespace prefix |
| JsString.TrailingStart | src/app/index.tsx:46 | The start of the longest all-whitespace suffix |
| JsString.TrimPieces | src/app/index.tsx:46 | The two scans split the input into margin, kept part and margin. The kept part is empty exactly for an all-whitespace input |
| JsString.IsBlank | src/app/trip/details.tsx:32 | `!s.trim()` holds exactly when every character is whitespace |
| JsString.Utf16Length | src/app/index.tsx:51 | `length` lies between the number of characters and twice that. It equals the number of characters exactly when none is above U+FFFF, and twice it exactly when all are. With `JsString.Utf16LengthConcat` this fixes the value: one unit per character up to U+FFFF and two per character above |
| JsString.Utf16LengthConcat | src/app/index.tsx:51 | `length` of a concatenation is the sum of the parts' lengths, so every string's `length` is the sum over its characters |
| JsString.MixedUtf16Length | src/app/index.tsx:51 | `"a" + two U+1F5FC` has `length` 5 |
| JsString.BlankIffAllWhitespace | src/app/trip/details.tsx:32 | `!s.trim()` holds exactly when every character is whitespace |
| JsString.TrimIdempotent | src/app/trip/details.tsx:32-36 | Trimming twice equals trimming once |
| JsString.IndexOf | src/app/trip/activities.tsx:173-174 | The position of the first occurrence, or -1 exactly when the character is absent |
| JsString.RemoveFirst | src/app/trip/activities.tsx:173-174 | `replace(c, "")` cuts out exactly the first occurrence, or returns the input when there is none |
| JsString.RemoveFirstAt | src/app/trip/activities.tsx:173-174 | `replace(c, "")` is the input with the position reported by `indexOf` cut out, or the input itself when that is -1 |
| JsString.IndexOfStep | src/app/trip/activities.tsx:173-174 | (helper of RemoveFirst) Past a leading non-matching character, the first occurrence is the tail's first occurrence shifted by one |
| JsString.ConsSplice | src/app/trip/activities.tsx:173-174 | (helper of RemoveFirst) Cutting a position out of a tail and putting a character in front equals cutting the next position out of the whole |
| JsString.RemoveFirstStep | src/app/trip/activities.tsx:173-174 | Keeping a leading non-matching character agrees with cutting at the first occurrence |
| JsString.RemoveFirstFacts | src/app/trip/activities.tsx:173-174 | One character fewer exactly when `c` occurs, and then the input's multiset minus one `c` |
| JsString.SpliceFacts | src/app/trip/activities.tsx:173-174 | Cutting one position out of a string loses exactly the character at that position |
| JsString.Less | src/app/trip/activities.tsx:90 | No string is `<` an equal string. The empty string is `<` exactly the non-empty ones |
| JsString.LessOrEqual | src/app/trip/activities.tsx:90 | `a <= b`, read as `!(b < a)`, holds exactly when `a` equals `b` or `a < b` |
| JsString.LessIffFirstDifference | src/app/trip/activities.tsx:90 | String `<` holds exactly for a proper prefix, or for a smaller character at the first differing position |
| JsString.SamePrefixTail | src/app/trip/activities.tsx:90 | (helper of Less) Dropping an equal first character shifts a common prefix by one |
| JsString.LessFromPrefix | src/app/trip/activities.tsx:90 | A proper prefix is smaller |
| JsString.LessFromDifference | src/app/trip/activities.tsx:90 | A smaller character after a common prefix makes the string smaller |
| JsString.LessHasWitness | src/app/trip/activities.tsx:90 | A smaller string is a proper prefix or has a smaller character after a common prefix |
| JsString.LessIrreflexive | src/app/trip/activities.tsx:90 | No string is `<` itself |
| JsString.LessAsymmetric | src/app/trip/activities.tsx:90 | `a < b` excludes `b < a` |
| JsString.LessConnected | src/app/trip/activities.tsx:90 | Two different strings are ordered one way or the other |
| JsString.LessTransitive | src/app/trip/activities.tsx:90 | `<` is transitive |
| JsString.LessOrEqualTotal | src/app/trip/activities.tsx:90 | `<=` relates every pair one way or the other |
| JsString.LessOrEqualTransitive | src/app/trip/activities.tsx:90 | `<=` is transitive |
| ActivitySections.ToItem | src/app/trip/activities.tsx:85-89 | A row keeps its activity's id and title, carries the label of its instant, and is flagged past exactly when the instant is before `now` |
| ActivitySections.ToItems | src/app/trip/activities.tsx:85-89 | One row per activity of the day, in the server's order |
| ActivitySections.InsertByHour | src/app/trip/activities.tsx:90 | Inserting into a label-sorted list gives a label-sorted list with one more copy of the new row |
| ActivitySections.InsertFrontSorted | src/app/trip/activities.tsx:90 | A row no later than the head can go in front of a sorted list |
| ActivitySections.InsertBehindSorted | src/app/trip/activities.tsx:90 | A head smaller than the inserted row stays in front of the sorted rest |
| ActivitySections.SortByHour | src/app/trip/activities.tsx:90 | The sort gives a permutation of its input, non-decreasing under JavaScript string `<=` of the labels |
| ActivitySections.BuildSection | src/app/trip/activities.tsx:80-91 | A day's section has that day's title and a sorted permutation of that day's rows |
| ActivitySections.BuildSections | src/app/trip/activities.tsx:80-91 | One section per server day, in server order. Each has that day's title and a sorted permutation of that day's rows |
| ActivitySections.EmptyDayKeptAsEmptySection | src/app/trip/activities.tsx:80-91 | A server day with no activities still yields a section, with no rows |
| ActivitySections.ItemsComeFromTheirDay | src/app/trip/activities.tsx:85-89 | Every row comes from an activity of its own day. It has the same id and title and that activity's label. It is flagged past exactly when the activity is before `now` |
| ActivitySections.DayActivitiesAllShown | src/app/trip/activities.tsx:85-90 | Every activity of a day appears as a row of that day's section |
| ActivitySections.AfternoonBeforeMorning | src/app/trip/activities.tsx:88-90 | An activity labelled `"01:00 pm"` is listed before one labelled `"11:00 am"` on the same day |
| ActivityPanel.Init | src/app/trip/activities.tsx:35-43 | The tab starts with no overlay, not saving, loading, an empty form and no sections |
| ActivityPanel.SanitizeHour | src/app/trip/activities.tsx:172-175 | The result is the text with the first `'.'` cut out, then the first `','` of what is left cut out, at the positions `indexOf` reports. So it is one character shorter for a `'.'` and one for a `','`. Text with neither is unchanged. Every other character keeps its count |
| ActivityPanel.SanitizePositions | src/app/trip/activities.tsx:172-175 | The two removals cut at the first `'.'` of the text and at the first `','` of what is left |
| ActivityPanel.SanitizeSteps | src/app/trip/activities.tsx:172-175 | Two removals of at most one character each, `'.'` then `','`, compose to the sanitiser's length and multiset facts |
| ActivityPanel.SanitizeHourKeepsLaterDot | src/app/trip/activities.tsx:173 | `"1.2."` becomes `"12."`: only the first `'.'` goes, and the later one stays in place |
| ActivityPanel.SanitizeHourKeepsLaterComma | src/app/trip/activities.tsx:174 | `"1,2,"` becomes `"12,"`: only the first `','` goes, and the later one stays in place |
| ActivityPanel.ResetFields | src/app/trip/activities.tsx:45-50 | Title, day and hour are emptied and the overlay is closed. The busy flags and sections are kept |
| ActivityPanel.LoadActivities | src/app/trip/activities.tsx:77-99 | A successful answer gives one section per server day, in the server's order. Each is titled with that day's number and name and holds a sorted permutation of that day's rows. A failed answer keeps the old sections. Loading stops either way and nothing else changes |
| ActivityPanel.StartCreate | src/app/trip/activities.tsx:54-58 | The request is refused exactly when title, hour or day is empty. Otherwise only the busy flag is set and the request carries the fields as typed |
| ActivityPanel.ResetThenSaveRefused | src/app/trip/activities.tsx:45-58 | After a reset, the required-fields guard refuses to save |
| ActivityPanel.FinishCreate | src/app/trip/activities.tsx:60-74 | The busy flag is cleared. On success the form is reset and closed, the list has stopped loading, and the sections are built from the reload's answer, or kept when the reload failed. On failure only the busy flag changes |
| ActivityPanel.SavedFormRefusesResend | src/app/trip/activities.tsx:54-68 | After a successful save, a further press is refused until the fields are filled in again |
| ActivityPanel.CreateActivity | src/app/trip/activities.tsx:52-75 | Nothing is sent exactly when a field is empty, and then only the busy flag is cleared. A sent request carries the typed fields. On success the form is reset and closed, loading has stopped and the sections come from the reload's answer. The busy flag is false at the end on every path |
| ActivityPanel.Enabled | src/app/trip/activities.tsx:109-204 | While the date picker is open only its day taps, close, confirm and the server's answers get through. With no overlay only the "New Activity" button and the server's answers do. An add call's answer arrives only while a call is awaited |
| ActivityPanel.Step | src/app/trip/activities.tsx:52-204 | Only server answers change the sections. Only a save press or its answer changes the busy flag. Only the title field or a successful save's reset changes the title |
| ActivityPanel.Sent | src/app/trip/activities.tsx:54-64 | An event sends an add call exactly when it is an enabled save press with title, hour and day filled in. The call carries those fields |
| ActivityPanel.Run | src/app/trip/activities.tsx:52-101 | Each event sends at most one call or brings at most one answer. Every add call sent is for this trip and has a title, an hour and a day |
| ActivityPanel.RunChangesSectionsOnlyByAnswers | src/app/trip/activities.tsx:67-92 | A run that ends with other sections contains a load answer or an add-call answer |
| ActivityPanel.Busy | src/app/trip/activities.tsx:37 | The busy flag read as the number of awaited calls, 0 or 1 |
| ActivityPanel.StepBalancesCalls | src/app/trip/activities.tsx:58-74 | One event changes the busy count by the calls it sends minus the answers it brings |
| ActivityPanel.RunBalancesCalls | src/app/trip/activities.tsx:58-74 | Over a run, the busy count at the end plus the answers received equals the busy count at the start plus the calls sent |
| ActivityPanel.RunBusyIffCallPending | src/app/trip/activities.tsx:58-74 | From a screen that is not saving, the save button is busy exactly while one sent call is unanswered, and never more than one call is awaited |
| ActivityPanel.SaveWhileBusyIgnored | src/app/trip/activities.tsx:183-185 | A press of the save button while it is busy sends nothing and changes nothing |
| ActivityPanel.AnswerAlone | src/app/trip/activities.tsx:60-74 | An add-call answer lands only while a call is awaited, and then finishes the save |
| ActivityPanel.PressThenAnswerIsCreate | src/app/trip/activities.tsx:52-75 | A save press followed directly by its answer ends where `handleCreateActivity` ends, having sent the same call |
| ActivityPanel.OverlayMoves | src/app/trip/activities.tsx:109-204 | "New Activity" shows the form. The day field swaps it for the date picker. Closing or confirming the picker returns to the form. Closing the form leaves no overlay |
| ActivityPanel.CalendarNestedInForm | src/app/trip/activities.tsx:140-208 | The date picker is entered only from the add-activity form, by the day field. Every control that leaves it returns to the form. The only other way out is a successful save's answer, which leaves no overlay |
| ActivityPanel.FormOpensFromNothing | src/app/trip/activities.tsx:109 | From no overlay, only the "New Activity" button opens the form |
| LinkPanel.Init | src/app/trip/details.tsx:15-21 | The panel starts closed, not saving, with empty fields and no links |
| LinkPanel.CheckLink | src/app/trip/details.tsx:32-45 | A title that trims to nothing is reported first, even when the URL is also invalid. Then a URL whose trimmed text fails the validator is reported. A link passes exactly when neither applies, and is submitted with the raw, untrimmed title and URL |
| LinkPanel.PaddedLinkSubmittedRaw | src/app/trip/details.tsx:36-45 | `" Map "` passes the title check and is submitted with its spaces, although its trimmed form differs |
| LinkPanel.ResetFields | src/app/trip/details.tsx:24-28 | Title and URL are emptied and the modal is closed. The busy flag and links are kept |
| LinkPanel.ResetThenCheckRefused | src/app/trip/details.tsx:24-33 | After a reset, the guard refuses the link for its missing title |
| LinkPanel.LoadLinks | src/app/trip/details.tsx:66-72 | A successful answer replaces the list. A failed one changes nothing |
| LinkPanel.FinishLink | src/app/trip/details.tsx:41-55 | The busy flag is cleared. On success the form is reset and closed and the list comes from the reload's answer, or is kept when the reload failed. On failure only the busy flag changes |
| LinkPanel.CreateLink | src/app/trip/details.tsx:30-56 | A refusal or a server failure changes only the busy flag. A success resets and closes the form, and takes the reloaded links when the reload succeeds. The busy flag is false at the end on every path |
| LinkPanel.Enabled | src/app/trip/details.tsx:96-134 | With the modal closed only the create button and the server's answers get through. With it open the create button does not. A create call's answer arrives only while a call is awaited |
| LinkPanel.Step | src/app/trip/details.tsx:30-134 | Only server answers change the list. Only a save press or its answer changes the busy flag |
| LinkPanel.ModalOpensAndClosesOnlyThus | src/app/trip/details.tsx:96-118 | The create button opens the modal and its close control closes it. It opens in no other way, and the only other way it closes is the answer of an accepted save |
| LinkPanel.Sent | src/app/trip/details.tsx:30-45 | An event sends a create call exactly when it is an enabled save press whose link passes the guard. The call carries the raw title and URL and is itself let through by the guard |
| LinkPanel.Run | src/app/trip/details.tsx:30-74 | Each event sends at most one call or brings at most one answer. Every call sent is for this trip |
| LinkPanel.RunSentSplit | src/app/trip/details.tsx:30-45 | The calls a run sends are the first event's call, if any, then the calls of the rest of the run |
| LinkPanel.RunSendsOnlyGuarded | src/app/trip/details.tsx:32-45 | Every create call a run sends has a title that is not blank and a URL whose trimmed text the validator accepts |
| LinkPanel.RunChangesLinksOnlyByAnswers | src/app/trip/details.tsx:48-72 | A run that ends with another list of links contains a load answer or a create-call answer |
| LinkPanel.Busy | src/app/trip/details.tsx:16 | The busy flag read as the number of awaited calls, 0 or 1 |
| LinkPanel.StepBalancesCalls | src/app/trip/details.tsx:40-55 | One event changes the busy count by the calls it sends minus the answers it brings |
| LinkPanel.RunBalancesCalls | src/app/trip/details.tsx:40-55 | Over a run, the busy count at the end plus the answers received equals the busy count at the start plus the calls sent |
| LinkPanel.RunBusyIffCallPending | src/app/trip/details.tsx:40-55 | From a screen that is not saving, the save button is busy exactly while one sent call is unanswered, and never more than one call is awaited |
| LinkPanel.SaveWhileBusyIgnored | src/app/trip/details.tsx:130-131 | A press of the save button while it is busy sends nothing and changes nothing |
| LinkPanel.AnswerAlone | src/app/trip/details.tsx:41-55 | A create-call answer lands only while a call is awaited, and then finishes the save |
| LinkPanel.PressThenAnswerIsCreate | src/app/trip/details.tsx:30-56 | A save press followed directly by its answer ends where `handleCreateLink` ends, having sent the same call |

## Left out

- Trip creation, device storage and the start-up lookup of a stored trip (`createTrip`, `saveTripOnDevice`, `getTrip`, `isCreatingTrip`, `isGettingTrip`) are left out. They are asynchronous server, storage and navigation plumbing. The main button's `isLoading` is not modelled either.
- The marked-days map (`calendarUtils.getIntervalDates`) and the range-ordering algorithm are left out. The calendar helper is not part of this model, and only its result enters, through `Helpers.order`.
- E-mail and URL syntax are left out. `validateInput` is not part of this model and enters as a predicate parameter.
- Date parsing, formatting and arithmetic are left out. This covers the `"hh:mm a"` label, the day number and name, the occurrence instant built from day and hour, and the range label. Instants are integers and formatters are parameters.
- Alerts are reduced to the outcome values they report. Their buttons' callbacks are not modelled.
- ActivitySections.SortByHour: it assumes the engine still orders rows by label, and it fixes a stable order among rows with equal labels. The source's comparator answers 1 or -1 and never 0, so it is inconsistent on any two equal labels. ECMAScript then leaves the whole result order to the implementation, not only the order among equal labels.
- ActivitySections.BuildSections: it takes one `now` for the whole load. The source reads the clock once per row, and the model treats those reads as one instant.
- JsString.Less: it compares Unicode scalar values, while JavaScript compares UTF-16 code units. The two orders differ only outside the Basic Multilingual Plane, and the compared labels do not reach it.
- The create call and the list reload that follows it are awaited one after the other, but their answers arrive together in one `SaveAnswered` event. No event can come between them in the model. Both steps only read the server's answers, and the reload changes nothing else.
- The load started when a tab mounts may answer at any time, and the model does not limit it to one answer. Requests and answers are not matched by identity.
- Closures capture the fields when the save is pressed. The model sends the call with the fields at press time, and a success resets the fields current at answer time, as the state setters do.
- The hour field's `maxLength={2}` and the day field's own change handler are left out. The handler never fires because the keyboard is suppressed. Both are widget behaviour.
- The link inputs have no `value` binding, so after a reset they may still show old text. Rendering is not modelled.
- Participants of the details tab (`getTripParticipants`) are left out. It is a fetch with no logic.
- The trip screen `src/app/trip/[id].tsx` is left out. Its update overlay and tab state are outside the three controllers modelled here.
- `src/components/button.tsx` is purely presentational. Its one behaviour, `disabled={isLoading}`, appears as the busy conditions in `Enabled`.
