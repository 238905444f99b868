# MediConvo core in Dafny

This project models the core of the MediConvo consultation front-end and proves properties of that model. It has three parts.

- **The live translation session** (`components/LiveTranslator.tsx`). The session has:
  - two transcription accumulators;
  - the committed transcript;
  - the playback cursor and the set of scheduled audio sources;
  - the connection status, `isLive`, and the stream and session slots.

  This part is the class `LiveSession.LiveTranslator`. Its methods are `startSession` with its transport callbacks, `handleMessage`, a source's `onended`, `stopSession` and `handleFinishConsultation`. Each method is proved against value-level functions in module `Transcript`: the accumulation of partials, the turn commit, the final flush and the playback plan.
- **The prescription download and the application state** (`App.tsx`).
  - Module `Vitals` holds the five `getVital` patterns. They are written as hand-coded leftmost-match functions over the lower-cased summary. The unit fix-ups follow them.
  - Module `Medication` holds the medication split with its `for`/`break` loop.
  - Module `Prescription` holds the values the prescription PDF places: the date and record id, the patient's name, age and gender, the vitals, the clinical text, the Rx block, the signature label and the file name. It also holds the date of birth and the prescriber name the handler computes; neither is printed.
  - Class `AppState.App` holds `handleSelectRole`, `handleLogin`, `handleBackToLanding` and `handleSessionEnd` over the in-memory patients, history and statistics.
- **The login form** (`components/Auth.tsx`). Module `Auth` holds the role's title and button text, and the validator behind `handleLoginAttempt`. Class `Auth.AuthScreen` writes the error message and records each call to `onLogin`.

Shared modules:
- `Wrappers` holds the `Option` and `Result` types.
- `Types` holds the records from `types.ts`.
- `Text` holds JavaScript's `trim`, the `\s` class, ASCII `toLowerCase`, `indexOf`/`includes`, and the `[^\d\.]` filter.

The model follows the code as written, including its three defects, which are listed under Findings. It also adds the corrected definitions and proves the intended behaviour of those.

Where the code's evident intent and what it does part ways, the model follows what it does:
- **The vitals.** The placeholders (`App.tsx:67-71`) and the unit fix-ups under the comment "Fix Pulse and SpO2 if units weren't captured correctly" (`App.tsx:75-77`) show that each value is meant to be a reading with its unit. `getVital` returns `match[1]` (`App.tsx:64`), which is the keyword group of every pattern, so a "pulse is 76" summary yields ` bpm` rather than `76 bpm` (see Findings).
- **Tie-breaking between markers.** The test `index < splitIndex` and the comment "Found the earliest point" (`App.tsx:86-88`) aim at the earliest marker. The `break` stops the loop at the first marker in list order that occurs anywhere (see Findings).
- **Closing the transport.** `stopSession` only sets the session reference to `null` (`components/LiveTranslator.tsx:235-237`); it calls no `close`. The model empties the slot and closes nothing.
- **The `Patient` record.** It takes the shape declared in `components/Auth.tsx:5-12`, which `App.tsx` relies on (`id`, `name`, `dob`, `gender`, `address`, `primaryLanguage`). It does not take the different shape in `types.ts:11-17`.

Where the proofs live:
- The regexes' `\s*` is matched greedily. `Vitals.SkipWhiteUnique` proves that backtracking cannot change the result: every `\s*` in the five patterns is followed by a literal that is not white space.
- `String.prototype.match` returns the leftmost position with a match. Within a position, the first alternative of the SpO2 pattern that matches wins.

## Model

| member | source | states |
|---|---|---|
| Text.Trim | components/Auth.tsx:38-50 | `trim()` yields the empty string exactly for all-white input; otherwise it yields the slice of the input that starts at its first non-white character and ends at its last one, with only white space before and after it |
| Text.TrimIdempotent | components/Auth.tsx:45-50 | trimming a trimmed string changes nothing |
| Text.BlankIffAllWhite | components/Auth.tsx:38 | `!x.trim()` holds exactly when every character of `x` is white space |
| Text.TrimWhiteSuffix | components/LiveTranslator.tsx:196-213 | white space appended to a text disappears when the text is trimmed |
| Text.TrimWhitePrefix | components/LiveTranslator.tsx:196-213 | white space in front of a text disappears when the text is trimmed |
| Text.ToLower | App.tsx:57 | lower-casing keeps the length; each upper-case ASCII letter becomes lower-case and every other character stays |
| Text.IndexOf | App.tsx:85 | `indexOf` is -1 exactly when the text does not occur; otherwise it is an occurrence with none before it |
| Text.AppendedIsContained | App.tsx:76 | a string ending in `t` includes `t` |
| Text.NotContainsWithoutFirst | App.tsx:76-77 | a string without the first character of `t` does not include `t` |
| Text.KeepNumeric | App.tsx:77 | the `[^\d\.]` filter keeps only digits and dots and never lengthens |
| Text.KeepNumericConcat | App.tsx:77 | the global `replace` works character by character: filtering a concatenation concatenates the filtered parts |
| Text.KeepNumericChar | App.tsx:77 | one character survives the filter exactly when it is a digit or a dot |
| Text.KeepNumericNone | App.tsx:77 | the filter empties a string without digits or dots |
| Text.KeepNumericAll | App.tsx:77 | the filter leaves a string of digits and dots unchanged |
| Transcript.AppendPartial | components/LiveTranslator.tsx:183-190 | `if (part) acc += part`: a missing or empty partial leaves the accumulator as it was, any other is appended |
| Transcript.TurnEntries | components/LiveTranslator.tsx:194-213 | one entry per non-blank accumulator, each carrying the commit's stamp; when the input is not blank the first entry is the `'user'` line of the trimmed input, and when the output is not blank the last entry is the `'model'` line of the trimmed output; no other entry has either role |
| Transcript.CommittedLinesAreClean | components/LiveTranslator.tsx:196-213 | every committed line is non-empty and has nothing left to trim |
| Transcript.DisplayFollowsAccumulator | components/LiveTranslator.tsx:183-213 | a streaming display that equals its accumulator keeps equalling it after a message, except that it is cleared when its accumulator is committed |
| Transcript.ApplyTextExtendsLog | components/LiveTranslator.tsx:193-217 | one message adds at most two lines and rewrites none; it adds none without `turnComplete` |
| Transcript.CommitTurnLeavesBlank | components/LiveTranslator.tsx:193-217 | after the commit (`CommitTurn`) both accumulators are blank, each kept or reset to `''`, and the transcript has gained at most two lines at its end |
| Transcript.NextDisplay | components/LiveTranslator.tsx:183-213 | a display after a message is what it was, `''`, or the new accumulator; a message without that partial and without `turnComplete` leaves it |
| Transcript.FinalTranscript | components/LiveTranslator.tsx:246-252 | the final transcript starts with the committed lines and adds at most two non-empty lines, each with the given stamp |
| Transcript.TurnCompleteEffect | components/LiveTranslator.tsx:179-217 | on `turnComplete`, the partials of the same message are appended first; then each non-blank accumulator is committed and reset to `''`, and a blank one is kept |
| Transcript.CarriedWhiteSpaceIsDropped | components/LiveTranslator.tsx:196-213 | white space carried over from a turn that committed nothing does not change what the next commit writes |
| Transcript.PartialsAccumulate | components/LiveTranslator.tsx:179-190 | over messages without a turn boundary, each accumulator is its old text followed by the partials in arrival order, and the transcript is unchanged |
| Transcript.TurnOfPartials | components/LiveTranslator.tsx:179-217 | a run of partial messages followed by a turn-complete message commits exactly the accumulated texts (input before output) after the earlier transcript |
| Transcript.ReplaySplit | components/LiveTranslator.tsx:159-219 | replaying messages one after another composes: the last message applies to the state the earlier ones left |
| Transcript.FinishCommitsLikeTurnBoundary | components/LiveTranslator.tsx:242-256 | the final transcript is what a turn boundary would commit at that moment, and it begins with the committed transcript unchanged |
| Transcript.StartTime | components/LiveTranslator.tsx:165-168 | a buffer starts at `max(cursor, now)`: no earlier than now and no earlier than the cursor |
| Transcript.PlanIsSequential | components/LiveTranslator.tsx:165-175 | over any run of arrivals, each buffer starts at the later of its arrival and the previous buffer's end, plays for its duration, and no two buffers overlap |
| LiveSession.AudioSource.constructor | components/LiveTranslator.tsx:170-173 | a new source starts at the given time, plays for the buffer's duration and is not stopped |
| LiveSession.AudioSource.Stop | components/LiveTranslator.tsx:231 | `source.stop()` marks the source stopped |
| LiveSession.MediaStream.StopTracks | components/LiveTranslator.tsx:223 | stopping the tracks ends the stream |
| LiveSession.LiveTranslator.constructor | components/LiveTranslator.tsx:14-32 | initial state: `'idle'`, not live, no stream and no session, empty accumulators, displays and transcript, cursor 0 and no sources |
| LiveSession.LiveTranslator.StartSession | components/LiveTranslator.tsx:51-64 | no API key: the user is alerted and nothing changes; otherwise `'connecting'` with a fresh live stream when the set-up succeeds, and `'error'` (the `catch` at lines 124-127) when it fails; the text state is not touched |
| LiveSession.LiveTranslator.OnOpen | components/LiveTranslator.tsx:101-105 | `'connected'` and live; nothing else changes |
| LiveSession.LiveTranslator.OnClose | components/LiveTranslator.tsx:107-111 | `'idle'` and not live; nothing else changes |
| LiveSession.LiveTranslator.OnError | components/LiveTranslator.tsx:112-116 | `'error'` and not live; nothing else changes |
| LiveSession.LiveTranslator.OnSessionResolved | components/LiveTranslator.tsx:120-122 | the resolved session fills the session slot; nothing else changes |
| LiveSession.LiveTranslator.ScheduleAudio | components/LiveTranslator.tsx:161-176 | the new source starts at `StartTime(cursor, now)`, the cursor moves to its end, and it joins the set; the no-overlap invariant is kept |
| LiveSession.LiveTranslator.AppendPartials | components/LiveTranslator.tsx:179-190 | each accumulator becomes `AppendPartial` of its partial, and a non-empty partial sets its display to the new accumulator |
| LiveSession.LiveTranslator.CommitAccumulators | components/LiveTranslator.tsx:193-217 | the text state becomes `CommitTurn` of the old one; each committed accumulator's display is cleared; audio and connection state are unchanged |
| LiveSession.LiveTranslator.HandleMessage | components/LiveTranslator.tsx:159-219 | the text state becomes `ApplyText` of the message; each display follows `NextDisplay`; audio, when present, is scheduled at `StartTime(cursor, now)` and its source returned; the connection state is unchanged and the no-overlap invariant is kept |
| LiveSession.LiveTranslator.OnEnded | components/LiveTranslator.tsx:176 | exactly the ended source leaves the set; nothing else changes |
| LiveSession.LiveTranslator.StopSession | components/LiveTranslator.tsx:221-240 | the tracks are stopped and the stream slot is emptied; every scheduled source is stopped and the set is empty; no session, not live, `'idle'`; accumulators, displays, transcript and cursor are unchanged |
| LiveSession.LiveTranslator.HandleFinishConsultation | components/LiveTranslator.tsx:242-256 | after the teardown of `StopSession` (tracks ended, every source stopped, all slots empty, `'idle'`), the result is `FinalTranscript` of the old text state; both accumulators are `''`, the committed transcript, the displays and the cursor are kept |
| LiveSession.CapturePending | components/LiveTranslator.tsx:246-252 | the captured transcript is `FinalTranscript` of the committed lines and the two pending accumulators |
| LiveSession.StopTwice | components/LiveTranslator.tsx:44-49 | a second `stopSession` (the unmount clean-up after finishing) changes nothing the first one left: text state, displays, cursor, slots and status are as the first one left them |
| Vitals.SkipWhite | App.tsx:68-72 | `\s*` consumes the longest white-space run |
| Vitals.SkipWhiteUnique | App.tsx:68-72 | a white-space run followed by a non-white character is the only way `\s*` can end there |
| Vitals.DigitRun | App.tsx:68-70 | `\d{1,n}` reads at most `n` digits, greedily |
| Vitals.NumericRun | App.tsx:71-72 | `[\d\.]+` reads the longest run of digits and dots |
| Vitals.AltMatch | App.tsx:68-72 | a match of one alternative at a position: the keyword group, then exactly a `\s*` run, the connective and another `\s*` run (`ConnectiveBetween`), then a reading group that starts with a digit (a digit or dot for height and weight) |
| Vitals.MatchFrom | App.tsx:68 | a match has a non-empty reading that starts with a digit (a digit or dot for height and weight); a present group 1 is the keyword text; group 1 is absent only when the pattern has a second alternative |
| Vitals.FirstSomeIsFirst | App.tsx:68 | the chosen alternative is the first that matches: every earlier one fails, and it matches unless none does |
| Vitals.MatchFromIsFirstAlt | App.tsx:68 | the captures come from the first alternative that matches, and there are none exactly when no alternative matches; group 1 is the keyword text for the pattern's first alternative and absent for any later one; the reading is the reading group's text |
| Vitals.Placeholder | App.tsx:67-71 | each placeholder is a blank of eight underscores with more text (the unit) after it |
| Vitals.PatternShapes | App.tsx:68-72 | `PatternOf`: only the SpO2 pattern has a second alternative (`at`); every first alternative uses `is`; only height and weight read a measure with a unit |
| Vitals.FirstMatch | App.tsx:63 | `match` without the global flag: -1 when the pattern matches nowhere, otherwise the leftmost matching position |
| Vitals.GetVital | App.tsx:62-65 | only SpO2 can fail |
| Vitals.GetVitalIsKeywordGroup | App.tsx:62-68 | as written: a matched vital yields the trimmed keyword group when the first alternative matches at the leftmost matching position, and fails when a later one does |
| Vitals.KeywordSpelling | App.tsx:68-72 | the keyword group's text is one of the pattern's spellings, white space between two-word spellings included |
| Vitals.WordSpelling | App.tsx:69-70 | a matched two-word spelling (`blood\s*pressure`, `heart\s*rate`) is its two words with white space between |
| Vitals.Group1Spelled | App.tsx:64 | group 1 of a match is a spelling that trimming leaves unchanged |
| Vitals.MatchedVitalIsKeyword | App.tsx:62-73 | a matched vital yields the trimmed keyword (group 1), never its placeholder |
| Vitals.PlaceholderIffUnmatched | App.tsx:62-73 | a vital yields its placeholder exactly when its pattern matches nowhere |
| Vitals.FailsIffOnlyAtMatches | App.tsx:64-68 | the SpO2 call fails exactly when its leftmost match is made by the `at` alternative alone |
| Vitals.SpO2KeywordFix | App.tsx:76 | an SpO2 keyword has no `%`, so the fix-up turns it into `spo2%` or `saturation%` |
| Vitals.PulseSpellings | App.tsx:70 | a Pulse keyword spells `pulse` or `heart rate` |
| Vitals.PulseKeywordNotNumeric | App.tsx:77 | filtering a Pulse keyword leaves nothing |
| Vitals.PulseKeywordFix | App.tsx:77 | a Pulse keyword has no `bpm`, so the fix-up turns it into ` bpm` |
| Vitals.ExtractVitals | App.tsx:67-77 | as written: fails exactly when the SpO2 call fails; unmatched vitals are their placeholders, which the fix-ups leave alone; a matched SpO2 is `spo2%` or `saturation%`, a matched Pulse is ` bpm`, BP, Height and Weight are their `getVital` values |
| Vitals.PulseYieldsKeyword | App.tsx:70 | `"pulse is 72"` yields `pulse` |
| Vitals.SpO2AtFails | App.tsx:64-68 | `"spo2 at 95"` makes the call fail |
| Vitals.GetReading | App.tsx:62-72 | corrected: an unmatched vital yields its placeholder |
| Vitals.GetReadingIsReadingGroup | App.tsx:62-72 | corrected: a matched vital yields the trimmed text of the reading group of the first alternative that matches at the leftmost matching position |
| Vitals.MatchedReadingIsNumber | App.tsx:68-72 | corrected: a matched reading is non-empty, starts with a digit (a digit or dot for height and weight), and is never a placeholder |
| Vitals.PulseReadingDigits | App.tsx:70 | corrected: a matched Pulse reading is a non-empty run of digits |
| Vitals.DigitsPulseFix | App.tsx:77 | a run of digits has no `bpm` and survives the filter, so the fix-up appends ` bpm` to it |
| Vitals.ExtractReadings | App.tsx:67-77 | corrected: never fails; each value is the reading or the placeholder, SpO2 carries a `%` and Pulse is its digits plus ` bpm`; SpO2 and Pulse are their placeholders exactly when unmatched |
| Vitals.PulseReadingIs72 | App.tsx:70 | corrected: `"pulse is 72"` reads `72` |
| Vitals.SpO2ReadingIs95 | App.tsx:68 | corrected: `"spo2 at 95"` reads `95` |
| Medication.KeywordsShape | App.tsx:81 | every marker ends in `:` and no two markers start with the same letter |
| Medication.FirstListed | App.tsx:84-90 | none exactly when no marker occurs; otherwise one of the markers and a position where it occurs |
| Medication.FirstListedChooses | App.tsx:84-90 | the loop stops at the first marker in list order that occurs anywhere, at its first occurrence, whatever occurs earlier in the text |
| Medication.SplitMedication | App.tsx:80-99 | as written: the summary is split by `SplitAt` at `FirstListed` of the lower-cased summary |
| Medication.FirstListedExample | App.tsx:84-90 | as written: `"rx: A. medication: B"` is split at `medication:` (index 7) |
| Medication.NoMarkerKeepsSummary | App.tsx:58-92 | without a marker the clinical text is the whole, untrimmed summary and the medication text is `""` |
| Medication.SplitAtMarker | App.tsx:92-99 | with a marker at `i`, the clinical text is the trimmed text before `i` and the medication text is the trimmed text after the marker |
| Medication.MedicationAfterMarker | App.tsx:94-98 | trimming, stripping the case-insensitive marker and trimming again leaves the trimmed text after the marker |
| Medication.StripMarker | App.tsx:98 | the `replace` leaves a suffix of the text, and the whole text when no marker is at its start |
| Medication.SplitAt | App.tsx:92-99 | without a marker the summary and `""`; with one, both texts are trimmed |
| Medication.StripFound | App.tsx:98 | the anchored, case-insensitive marker pattern removes exactly the marker at the start |
| Medication.MarkerAtStartFinds | App.tsx:98 | the alternation picks the marker that is at the start, because no two markers share a first letter |
| Medication.LowerOccursInSlice | App.tsx:94-95 | a marker found at index `i` of the lower-cased summary starts the lower-cased slice of the original summary taken from `i` |
| Medication.Earliest | App.tsx:86-88 | corrected: none exactly when no marker occurs; otherwise the occurring marker with the smallest offset, at its first occurrence |
| Medication.EarliestIsEarliest | App.tsx:86-88 | corrected: no marker occurs anywhere before the chosen one |
| Medication.EarliestNoLater | App.tsx:84-90 | the corrected split point is never later than the one the loop picks |
| Medication.SplitMedicationEarliest | App.tsx:80-99 | corrected: the summary is split by `SplitAt` at `Earliest` |
| Medication.EarliestExample | App.tsx:86-88 | corrected: `"rx: A. medication: B"` is split at `rx:` (index 0) |
| Prescription.RxBlockFor | App.tsx:175-189 | the medication is printed exactly when it is non-empty; otherwise the `Medications :` label and 4 ruled lines |
| Prescription.RuledLineOffsets | App.tsx:185-187 | the loop draws 4 lines, each 5 units below the one before |
| Prescription.NoMarkerHandwritten | App.tsx:175-189 | a summary without a marker always gets the handwriting space |
| Prescription.MarkerPrintedIff | App.tsx:92-99 | with a marker, the medication is printed exactly when something other than white space follows the marker |
| Prescription.PdfFileName | App.tsx:208 | the name is as long as the id plus the fixed prefix and suffix (its shape is stated by the two lemmas below) |
| Prescription.FileNameRoundTrip | App.tsx:208 | the record id can be read back from the file name |
| Prescription.FileNameParsedBack | App.tsx:208 | every name of that shape is the file name of the id it carries |
| Prescription.OrNotAvailable | App.tsx:43-46 | `value \|\| 'N/A'` keeps a non-empty value and turns the empty one into `N/A`, so it is never empty |
| Prescription.DemographicsOf | App.tsx:43-46 | name, date of birth and gender are the user's field or `N/A` when it is empty, and `N/A` without a user, so they are never empty; the age is `N/A` exactly when the date of birth is `N/A`, `NaN` exactly when it is not and does not parse, and otherwise the current year minus the birth year |
| Prescription.AgeIsYearsIff | App.tsx:44-45 | the age is a number exactly when there is a signed-in user whose date of birth is neither empty nor `N/A` and parses; it is then the current year minus the birth year |
| Prescription.NoUserNotAvailable | App.tsx:43-46 | without a user every patient line is `N/A` |
| Prescription.PrescriberName | App.tsx:50 | the computed prescriber name, which the document does not print: `N/A Doctor` exactly without a user; `Dr. Smith (Cardiologist)` exactly for the id `DR-98765`; `PRESCRIBER NAME` for any other user |
| Prescription.DownloadPdf | App.tsx:40-208 | as written: no document when the SpO2 call fails; otherwise the date and record id, the file name, the split at `FirstListed`, the Rx block, the patient's name, age and gender, the bare signature label, and the `getVital` values: SpO2 and Pulse are their placeholders exactly when unmatched, a matched SpO2 is `spo2%` or `saturation%` and a matched Pulse is ` bpm` |
| Prescription.DownloadPdfCorrected | App.tsx:40-208 | corrected: always a document with the same header, patient values, signature label and file name, split at `Earliest`, with the vitals satisfying `ShowsReadings` |
| AppState.InitialStats | App.tsx:24-33 | the statistics start with no consultations and no daily activity |
| AppState.FindById | App.tsx:222 | `find` yields nothing exactly when no patient has the id; otherwise a listed patient with that id |
| AppState.Names | App.tsx:265-269 | the names of the chart entries, in order |
| AppState.Matches | App.tsx:265-269 | the number of chart entries named after the language; none without a language |
| AppState.IncrementLanguage | App.tsx:265-269 | the `map` keeps each entry's name, adds one to the entries named after the user's language, and leaves the others unchanged |
| AppState.TotalIncrement | App.tsx:262-270 | the chart total grows by the number of matching entries |
| AppState.MatchesAtMostOne | App.tsx:265-269 | with distinct names at most one entry matches, and none for a language not on the chart |
| AppState.EnglishCountsNowhere | App.tsx:265-269 | the demo doctor's language (English) leaves the chart unchanged |
| AppState.CountedOnce | App.tsx:262-270 | counting a consultation keeps the chart's languages and adds at most one to its total |
| AppState.DoctorPrescriptionValues | App.tsx:43-50 | for the demo doctor the computed prescriber name is `Dr. Smith (Cardiologist)` (not printed) and the printed age is `N/A` (their date of birth is empty) |
| AppState.NewRecord | App.tsx:248-257 | a new record has the id `CONS-` followed by the stamp, the given date, transcript and summary, is `'completed'`, has no doctor notes, and belongs to the user's id or `'Unknown'` |
| AppState.App.constructor | App.tsx:13-33 | the landing view with no role, no user, no patients, no history and the initial statistics |
| AppState.App.HandleSelectRole | App.tsx:213-216 | the role is set and the login view shown; nothing else changes |
| AppState.App.HandleLogin | App.tsx:218-230 | a patient login signs the patient in and appends them only when no patient has their id; a doctor login installs `DR-98765` and leaves the patients; otherwise nothing changes; history and statistics are kept and ids stay unique |
| AppState.App.HandleBackToLanding | App.tsx:232-236 | the landing view with no role and no user; patients, history and statistics are kept |
| AppState.App.HandleSessionEnd | App.tsx:242-273 | with the patient role and no user, only the view changes; otherwise one completed record is prepended, the total grows by one, the user's language entry is incremented, and the other statistics are kept; the count of consultations always equals the history's length |
| Auth.Title | components/Auth.tsx:31 | the heading is `Patient Login / Registration` exactly for the patient role and `Doctor Login` exactly for the doctor role |
| Auth.ButtonText | components/Auth.tsx:32 | the button reads `Access Patient Dashboard` exactly for the patient role and `Access Clinical Dashboard` exactly for the doctor role |
| Auth.AnyPatientFieldBlank | components/Auth.tsx:41 | some input is empty after trimming exactly when one of them holds only white space |
| Auth.RoleTextsIdentifyRole | components/Auth.tsx:30-32 | the title and the button text depend on the role alone, and each tells the two roles apart |
| Auth.Validate | components/Auth.tsx:34-62 | patient role: the fixed patient error exactly when a field is blank after trimming, otherwise the patient built from the trimmed inputs and the fixed address; doctor role: the doctor error exactly when the id is blank, otherwise a login with no patient |
| Auth.DoctorReadsOnlyId | components/Auth.tsx:54-61 | a doctor attempt ignores every field but the id |
| Auth.LoggedInPatientIsClean | components/Auth.tsx:38-51 | a patient passed on has no empty field and nothing left to trim |
| Auth.LoginAgainSamePatient | components/Auth.tsx:44-53 | filling the form from a patient that a login produced logs in the same patient |
| Auth.AuthScreen.constructor | components/Auth.tsx:20-28 | every input and the error start empty |
| Auth.AuthScreen.HandleLoginAttempt | components/Auth.tsx:34-62 | the error is cleared first; a rejected attempt shows its message and does not call `onLogin`; an accepted one calls `onLogin` once with the attempt's user and leaves the error empty; the form is unchanged |

## Left out

- Audio is not modelled:
  - whether the set-up succeeds is a parameter (`setupSucceeded`): creating the client, resuming both audio contexts and `getUserMedia` (`components/LiveTranslator.tsx:58-64`) all reach the same `catch` when they fail; a failure after `getUserMedia` (the connection request), which leaves the new stream in place and sets `'error'`, is not modelled;
  - the `ScriptProcessor` wiring and the PCM frames it sends, with its disconnection in `stopSession`, are not modelled;
  - decoding becomes the buffer's duration, a parameter;
  - the audio-level meter is not modelled.
- The translation service is an external collaborator. The connection request and its system instruction are out of scope. Its callbacks are methods, and each inbound message is a `ServerEvent`.
- `generateSummary`, the audio-note transcription and text-to-speech are foreign calls. The transcript `handleFinishConsultation` returns is what would be handed to `generateSummary` and `onSessionEnd`.
- Asynchrony is not modelled.
  - Events are handled one after another, each to completion.
  - Awaiting the decoder before the accumulators change is not modelled.
  - The possibly stale `transcript` closure that `handleFinishConsultation` reads is not modelled; the model reads the current committed transcript.
- Transcript.TurnEntries: both lines of one commit carry one timestamp, a parameter; the source reads `Date.now()` once per line (`components/LiveTranslator.tsx:200`, `209`, `248`, `251`), so the two may differ by the time between the reads. LiveSession.CapturePending does the same.
- The clock, dates and locale are parameters: `audioContext.currentTime`, `Date.now()` stamps and ids, `toISOString`, `toLocaleDateString`, the current year, and the year `new Date(dob)` parses to.
- Prescription.DemographicsOf: the age is held as a number, or as "does not parse" (JavaScript's `NaN`), or `N/A`. Its rendering with `toString` is not modelled.
- The PDF layout is not modelled: fonts, coordinates, `splitTextToSize`, the `yPos` arithmetic, the fixed headings and labels (`Patient Demographics`, `Vitals:`, `Diagnosis & Assessment:`, `Rx`) and the footer text. The model holds the values placed (date, record id, name, age, gender, vitals, clinical text, Rx block, signature label), the ruled-line offsets and the file name. Saving the file is not modelled.
- Prescription.PrescriberName: the handler computes the prescriber name (`App.tsx:50`) and a licence number (`App.tsx:51`) but never places either on the document; the signature block is the bare label `Prescriber's Signature` (`App.tsx:197`). The date of birth (`App.tsx:44`) is likewise computed only to derive the age and is not printed. `PrescriptionDoc` therefore has no prescriber or date-of-birth field.
- Text.ToLower: lower-cases ASCII letters only. Unicode case folding is out of scope, so indices found in the lower-cased summary apply to the original one.
- LiveSession.LiveTranslator.StopSession: `source.stop()` is modelled as always succeeding. The `try`/`catch` around it has no effect in the model.
- Vitals.ExtractReadings: for a matched SpO2 it states that the value carries a `%` and is the reading with or without a `%` appended. It does not say which of the two.
- `components/Dashboard.tsx`, `components/Landing.tsx`, `components/Login.tsx` and all JSX rendering are presentation and are not part of this model. This includes `handleStartLiveSession`, `handleViewConsultation` and the other view switches.

## Findings

| source | as written | input that shows it | evidently intended | confidence | as-written member | corrected member |
|---|---|---|---|---|---|---|
| App.tsx:64, 70 | `getVital` returns `match[1]`, which is the keyword group of every pattern; the Pulse fix-up then filters the keyword down to nothing | `"pulse is 72"` yields `pulse`, which is printed as ` bpm` | the reading group: `72`, printed as `72 bpm` | high; not executed | Vitals.PulseYieldsKeyword, Vitals.GetVitalIsKeywordGroup, Vitals.ExtractVitals, Prescription.DownloadPdf | Vitals.GetReading, Vitals.GetReadingIsReadingGroup, Vitals.PulseReadingIs72, Vitals.ExtractReadings, Prescription.DownloadPdfCorrected |
| App.tsx:64, 68 | when only the SpO2 `at` alternative matches, group 1 is `undefined` and `match[1].trim()` throws, so no document is saved | `"spo2 at 95"` | the reading of the `at` alternative (group 4): `95`, printed as `95%` | high; not executed | Vitals.SpO2AtFails, Vitals.FailsIffOnlyAtMatches, Prescription.DownloadPdf | Vitals.SpO2ReadingIs95, Vitals.ExtractReadings, Prescription.DownloadPdfCorrected |
| App.tsx:84-90 | the loop `break`s at the first marker in list order that occurs anywhere, so `index < splitIndex` never compares against an earlier find | `"rx: A. medication: B"` is split at `medication:` (index 7), and the clinical text is `rx: A.` | the earliest marker, as the comment at line 88 says: split at `rx:` (index 0) | high; not executed | Medication.FirstListedExample, Medication.SplitMedication | Medication.EarliestExample, Medication.EarliestIsEarliest, Medication.SplitMedicationEarliest |
