# Oratio speech-practice timer: a Dafny model

Oratio is a browser timer for practising speeches. The user picks a speech
type (impromptu, prepared or evaluative). For an impromptu speech they also
pick a topic from a small fixed catalogue. Then they run a countdown whose
ring changes colour as time runs out. This project models the parts that have
exact behaviour as immutable records with pure transition functions, and it
proves their properties, including lemmas over event traces.

- `types.dfy` (`Types`) mirrors `src/types.ts`: `SpeechType`, `Theme`, `Topic`,
  `TimerState` and an `Option` for the source's `null`.
- `decimal.dfy` (`Decimal`) covers JavaScript's `toString` on whole numbers
  of magnitude at most 2^53, which are exact as doubles, and `padStart`, plus
  a reader that turns digits back into a number.
- `timer.dfy` (`Timer`) is the Timer component:
  - initial state, one-second tick, play/pause, reset, show-numbers toggle;
  - the `[duration]` effect, written as `Reconfigure`;
  - the colour tier and `formatTime`;
  - trace lemmas: a 150-second countdown completes on its 150th tick, and
    completion fires at most once per countdown.
- `topic_generator.dfy` (`TopicGenerator`) is the topic catalogue, the id
  scheme `"<theme>-<index>"` with its reader, and the picker state.
- `speech_selector.dfy` (`SpeechSelector`) is the table of speech types, the
  highlight rule and what a click reports.
- `app.dfy` (`App`) is the session controller:
  - the session record and its four handlers;
  - `getDuration`, in seconds;
  - which view and panel are on screen;
  - trace lemmas over arbitrary handler calls, and over a wider set of calls
    that includes every call the rendered screen can make (`App.Enabled`).

All times are whole seconds. The source's 2.5 and 7 minutes become 150 and
420 seconds, and the Timer's `duration * 60` is already applied.

In these places the model follows the code, which differs from what one might expect:

- Changing the `duration` prop refills the timer but keeps `isRunning` and
  `showNumbers`. It does not force the stopped state.
- React runs that effect only when the prop actually changes. The timer's
  `duration` field always holds the current prop, so `Reconfigure` with an
  unchanged value leaves the state as it is.
- Play/pause flips `isRunning` even on an expired timer. No tick follows,
  because the interval is created only while `isRunning && timeRemaining > 0`.
- Completion does not clear `isRunning`. It only stores the new time. From
  any valid state that time is exactly 0, never negative
  (`Timer.Tick`, `Timer.RunPreservesValid`).
- No handler ever sets `isInProgress` to true. The in-progress view and its
  back arrow are therefore never rendered (`App.NeverInProgress`,
  `App.BackArrowNeverRendered`). `onComplete` leaves every reachable session
  unchanged.
- `handleBackToSelection` and `handleTimerComplete` have the same body in the
  source. The model keeps them as two functions with the same contract.

## Model

| member | source | states |
|---|---|---|
| Timer.Init | src/components/Timer.tsx:13-18 | a mounted timer is stopped, shows numbers, and holds its full duration, so the bounds invariant holds |
| Timer.Tick | src/components/Timer.tsx:31-41 | a tick happens only while running with time left. It takes exactly one second off and leaves duration, running flag and display mode alone. It completes exactly when a running timer goes from 1 to 0, and it keeps `0 <= timeRemaining <= duration` |
| Timer.Toggle | src/components/Timer.tsx:104-106 | play/pause flips only `isRunning` (also on an expired timer) and keeps the bounds |
| Timer.Reset | src/components/Timer.tsx:119-124 | reset restores the full duration, stops the timer, keeps the display mode |
| Timer.ToggleNumbers | src/components/Timer.tsx:134-136 | the eye button flips only `showNumbers`; time and running flag are untouched |
| Timer.Reconfigure | src/components/Timer.tsx:20-26 | a new duration sets duration and remaining time to it, keeps `isRunning` and `showNumbers`, and keeps the bounds; an unchanged duration changes nothing |
| Timer.Step | src/components/Timer.tsx:28-45 | only a tick can fire completion; every event keeps the bounds |
| Timer.RunPreservesValid | src/components/Timer.tsx:13-39 | `0 <= timeRemaining <= duration` holds after any sequence of events from a valid state |
| Timer.Countdown | src/components/Timer.tsx:31-41 | k ticks on a running timer lower the time by k, stopping at 0, and change nothing else; completion has fired once iff the ticks reached 0, and zero times otherwise |
| Timer.StartedImpromptuCompletesOnTick150 | src/components/Timer.tsx:31-41 | a started 150-second timer has not completed after 149 ticks, completes on the 150th, and then shows 0 |
| Timer.AtMostOneCompletionPerCountdown | src/components/Timer.tsx:31-41 | along any events without a reset or duration change, time never goes up, and completions fired plus the one still pending never exceed one |
| Timer.PauseHoldsResumeContinues | src/components/Timer.tsx:104-106 | ticks delivered to a paused timer change nothing; resuming gives back the exact state paused, and the next tick continues from the paused value |
| Timer.ToggleTwiceRestores | src/components/Timer.tsx:104-106 | play/pause twice is the identity |
| Timer.ToggleNumbersTwiceRestores | src/components/Timer.tsx:134-136 | the show-numbers toggle is an involution |
| Timer.ResetIdempotent | src/components/Timer.tsx:119-124 | resetting twice is resetting once |
| Timer.ColorTier | src/components/Timer.tsx:47-52 | red iff at most 0 s, orange iff 1..30 s, green iff 31..60 s, gray iff over 60 s |
| Timer.TierMonotone | src/components/Timer.tsx:47-52 | less remaining time is never a less urgent colour |
| Timer.TierNeverRelaxes | src/components/Timer.tsx:47-52 | along any events without a refill, the ring colour only moves towards red |
| Timer.TierBoundaries | src/components/Timer.tsx:47-52 | 0 is red; 1 and 30 are orange; 31 and 60 are green; 61 is gray |
| Timer.JsRemainder | src/components/Timer.tsx:56 | JavaScript `%` by a positive number stays strictly between minus and plus the divisor, agrees with the mathematical remainder on non-negative numbers, and is never positive for a negative dividend |
| Timer.PaddedSeconds | src/components/Timer.tsx:57 | the padded seconds field of a value below 60 is two digits that read back as that value |
| Timer.FormatTimeRoundTrip | src/components/Timer.tsx:54-58 | for S >= 0 the display reads back as minutes `S / 60` and seconds `S % 60` (below 60), and `mins * 60 + secs == S` |
| Timer.FormatTimeInjective | src/components/Timer.tsx:54-58 | two non-negative times never give the same display |
| Timer.FormatTime | src/components/Timer.tsx:54-58 | for S >= 0 the display is the rendering of `S / 60`, a colon, and the rendering of `S % 60` padded to two places; its minutes field is "0" or starts with a non-zero digit |
| Timer.DisplayShape | src/components/Timer.tsx:57 | with whole minutes and seconds below 60, the template gives the unpadded minutes, a colon in the third place from the end, and two seconds digits |
| Timer.FormatTimeAsFields | src/components/Timer.tsx:54-58 | for S >= 0 the display equals the minutes, ":" and the padded seconds, joined |
| Timer.FormatTime75 | src/components/Timer.tsx:54-58 | 75 seconds show "1:15" |
| Timer.FormatTime5 | src/components/Timer.tsx:54-58 | 5 seconds show "0:05" |
| Timer.FormatTime0 | src/components/Timer.tsx:54-58 | 0 seconds show "0:00" |
| Timer.FormatTime150 | src/components/Timer.tsx:54-58 | the 2.5-minute start value shows "2:30" |
| Decimal.NatToStringShape | src/components/Timer.tsx:57 | a whole number renders as one or more digits with no leading zero; exactly one digit iff the number is below 10 |
| Decimal.ParseNatToString | src/components/Timer.tsx:57 | reading the rendering of n back gives n |
| Decimal.IntToStringReadsBack | src/components/Timer.tsx:55-57 | the rendering reads back as the number: a non-negative number as plain digits that parse to it, a negative one as a minus sign followed by digits that parse to its magnitude |
| Decimal.PadStart | src/components/Timer.tsx:57 | padding gives the full width (or the original length if that is longer), ends with the original string, and fills the front with the pad character |
| TopicGenerator.GenerateTopics | src/components/TopicGenerator.tsx:19-63 | every theme gives exactly 5 topics; topic i carries the theme, the theme's i-th prompt, and an id that reads back as (theme, i) |
| TopicGenerator.TopicId | src/components/TopicGenerator.tsx:58-62 | the id `"<theme>-<index>"` of a single-digit index reads back as that theme and index |
| TopicGenerator.ThemeNameRoundTrip | src/components/TopicGenerator.tsx:11-17 | the theme names read back as their themes, so they are distinct |
| TopicGenerator.TopicIdsDistinct | src/components/TopicGenerator.tsx:58-62 | two catalogue topics share an id only if they have the same theme and index, within one batch and across themes |
| TopicGenerator.ThemesListEachOnce | src/components/TopicGenerator.tsx:11-17 | the theme list holds every theme exactly once |
| TopicGenerator.SelectTheme | src/components/TopicGenerator.tsx:85 | a theme click changes the selected theme and does not regenerate the batch |
| TopicGenerator.InitialPickerShowsFirstTheme | src/components/TopicGenerator.tsx:66-67 | a fresh picker has technology selected and no topics, and a generate click on it shows the technology batch |
| TopicGenerator.Generate | src/components/TopicGenerator.tsx:69-71 | generating keeps the theme and shows exactly 5 topics; topic i has the selected theme, that theme's i-th prompt, and an id that reads back as (theme, i) |
| TopicGenerator.PickTopic | src/components/TopicGenerator.tsx:122 | a topic button hands out a topic of the shown batch |
| TopicGenerator.GenerateIdempotent | src/components/TopicGenerator.tsx:69-71 | generating twice is generating once |
| TopicGenerator.GenerateReplacesBatch | src/components/TopicGenerator.tsx:69-71 | the new batch depends only on the selected theme, never on the previous batch, so batches do not accumulate |
| TopicGenerator.PickerEmptyUntilGenerate | src/components/TopicGenerator.tsx:66-71 | from the initial picker, the batch is empty iff generate was never clicked |
| TopicGenerator.PickerBatchIsCatalogue | src/components/TopicGenerator.tsx:66-71 | a non-empty batch is the whole catalogue batch of the theme that was selected at the latest generate click |
| TopicGenerator.PickedTopicIsCatalogued | src/components/TopicGenerator.tsx:122 | a topic the picker hands out has an id that reads back as its theme and position, and it carries that theme's prompt |
| SpeechSelector.IndexOf | src/components/SpeechSelector.tsx:10-14 | every speech type has a button in the table |
| SpeechSelector.Click | src/components/SpeechSelector.tsx:31 | clicking button k reports the type whose button is k |
| SpeechSelector.EachTypeOnce | src/components/SpeechSelector.tsx:10-14 | the table holds impromptu, prepared and evaluative in that order, and each type has only one button |
| SpeechSelector.Highlighted | src/components/SpeechSelector.tsx:34 | a button is highlighted iff a type is selected and this is its button |
| SpeechSelector.HighlightIsUnique | src/components/SpeechSelector.tsx:34 | at most one button is highlighted, and none when nothing is selected |
| SpeechSelector.ClickReportsType | src/components/SpeechSelector.tsx:31 | a type's button reports that type |
| App.InitialSessionShowsSelectorOnly | src/App.tsx:10-13 | the App opens on the selection screen with no type, no topic, no picker and no timer |
| App.HandleSpeechSelect | src/App.tsx:15-19 | records the type, opens the picker iff it is impromptu, clears the topic, leaves `isInProgress` alone |
| App.HandleTopicSelect | src/App.tsx:21-24 | records the topic and closes the picker, leaving type and `isInProgress` alone |
| App.HandleBackToSelection | src/App.tsx:26-28 | ends the session and keeps type, topic and picker flag |
| App.HandleTimerComplete | src/App.tsx:30-32 | ends the session and keeps type, topic and picker flag |
| App.GetDuration | src/App.tsx:42-53 | 420 s exactly for prepared, and 150 s for every other case (impromptu, evaluative, nothing selected) |
| App.TableAgreesWithGetDuration | src/components/SpeechSelector.tsx:11-13 | each table entry's duration equals what the App hands to the timer for that type |
| App.CurrentView | src/App.tsx:79-118 | the in-progress view shows iff `isInProgress`; the picker panel shows iff on the selection screen with the picker open |
| App.TimerShown | src/App.tsx:102-118 | the timer is rendered iff the session is in progress, or the picker is closed and the type is prepared or evaluative or a topic is set |
| App.NonImpromptuShowsTimer | src/App.tsx:116-118 | choosing prepared or evaluative shows the timer at once, with no topic |
| App.ImpromptuOpensPicker | src/App.tsx:102-115 | choosing impromptu on the selection screen shows the picker and no timer |
| App.NeverInProgress | src/App.tsx:10-32 | after any handler calls from the initial session, `isInProgress` is false |
| App.TimerShownIff | src/App.tsx:102-118 | on every reachable screen, the timer shows iff the picker is closed and the type is prepared or evaluative or a topic is set |
| App.TopicPickedAfterLatestSelection | src/App.tsx:15-24 | a topic is held only if a topic was picked after the latest speech-type selection |
| App.ImpromptuTimerNeedsTopic | src/App.tsx:116-118 | an impromptu timer is on screen only with a topic picked after the latest selection |
| App.FeasibleRunsAreReachable | src/App.tsx:10-32 | along handler calls the rendered screens allow: never in progress; the picker is open only for impromptu; a held topic means impromptu and comes from the catalogue |
| App.ShownTimerHasSpeechType | src/App.tsx:116-118 | on every such screen a shown timer has a selected type, so its duration never comes from the fallback |
| App.BackArrowNeverRendered | src/App.tsx:66-75 | the back arrow is never rendered on such a screen |
| App.CompletionChangesNothing | src/App.tsx:30-32 | on every such screen the timer's completion leaves the session unchanged |

## Left out

- Decimal.IntToString: matches JavaScript's `toString` only up to a magnitude
  of 2^53. Larger numbers are not exact as doubles, and JavaScript prints
  other digits for them (and exponent notation from 10^21). The times shown
  never come near that.
- Animation, icons and styling (framer-motion, lucide, Tailwind classes). The
  four ring colours are kept only as the tier enumeration `Timer.Tier`.
- Fullscreen toggling (`src/App.tsx:34-40`): a browser call that owns no state
  of this system.
- Real-time scheduling: `setInterval`/`clearInterval`, effect cleanup, and
  React's re-render and StrictMode semantics. A tick is a discrete event,
  possible only where the source keeps an interval alive.
- The progress percentage of the ring (`src/components/Timer.tsx:71`): it is
  floating-point division. `Timer.Valid` keeps it within 0 to 100 whenever
  the duration is positive.
- Fractional minutes: durations are whole seconds. The only values used
  (2.5 and 7 minutes) are whole in seconds.
- Timer.FormatTimeRoundTrip: the round trip is stated only for non-negative
  times. `FormatTime` itself is total and follows JavaScript on negative
  input, but no valid timer reaches a negative time.
- The Timer's `isActive` prop: the component never reads it, so it is not
  modelled. The speech table's `duration` field is kept as
  `SpeechSelector.Entry.seconds`, which the selector itself never reads.
- The joint run of the App and a mounted Timer. Switching panels mounts a
  fresh timer, which is `Timer.Init`. A type change while the timer panel
  stays up passes the new `App.GetDuration` to `Timer.Reconfigure`. The model
  states the two machines separately and does not compose them.
- The TopicGenerator's `isOpen` prop: it is always true and never read.
- The joint run of the App and the picker. Every time the App shows the
  picker it mounts a fresh one with an empty batch. `App.Enabled` does not
  track that batch; it accepts any catalogued topic (`TopicGenerator.Catalogued`)
  while the picker panel is up, even before a batch is generated.
  `TopicGenerator.PickedTopicIsCatalogued` shows that a real pick is always
  catalogued.
- App.Enabled (and so `App.Feasible`): it allows `onComplete` whenever a timer
  is shown, not only when its countdown reaches 0. The set of feasible calls
  is therefore wider than what the screen can produce, so the lemmas over it
  cover the real runs and more.
