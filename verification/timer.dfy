/** The countdown of the Timer component as a pure state machine over
    `TimerState`. Every button handler and the `[duration]` effect becomes a
    transition; the one-second interval becomes a discrete `Tick` event that
    also reports whether it fired the completion callback. */
module Timer {
  import opened Types
  import Decimal

  /** The bounds every reachable timer keeps. */
  predicate Valid(s: TimerState) {
    0 <= s.timeRemaining <= s.duration
  }

  /** The state a freshly mounted timer starts in, for a duration in seconds. */
  function Init(seconds: nat): (r: TimerState)
    ensures Valid(r)
    ensures r.duration == seconds && r.timeRemaining == seconds
    ensures !r.isRunning && r.showNumbers
  {
    TimerState(seconds, false, seconds, true)
  }

  /** The interval exists, and so a tick can happen, only in these states. */
  predicate TickEnabled(s: TimerState) {
    s.isRunning && s.timeRemaining > 0
  }

  /** An event's new state, and whether it called `onComplete`. */
  datatype StepOutcome = StepOutcome(state: TimerState, completed: bool)

  /** One elapsed second. Outside `TickEnabled` no interval is scheduled, so
      nothing happens. Inside it, the time drops by one and completion fires
      when the new time is no longer positive; `isRunning` is left as it is. */
  function Tick(s: TimerState): (r: StepOutcome)
    ensures r.state.duration == s.duration
    ensures r.state.isRunning == s.isRunning
    ensures r.state.showNumbers == s.showNumbers
    ensures r.state.timeRemaining == if TickEnabled(s) then s.timeRemaining - 1 else s.timeRemaining
    ensures r.completed <==> s.isRunning && s.timeRemaining == 1
    ensures Valid(s) ==> Valid(r.state)
  {
    if TickEnabled(s) then
      var newTime := s.timeRemaining - 1;
      StepOutcome(s.(timeRemaining := newTime), newTime <= 0)
    else
      StepOutcome(s, false)
  }

  /** The play/pause button: flips `isRunning`, even on an expired timer. */
  function Toggle(s: TimerState): (r: TimerState)
    ensures r.isRunning != s.isRunning
    ensures r.duration == s.duration && r.timeRemaining == s.timeRemaining
    ensures r.showNumbers == s.showNumbers
    ensures Valid(s) ==> Valid(r)
  {
    s.(isRunning := !s.isRunning)
  }

  /** The reset button: back to the full duration, stopped. */
  function Reset(s: TimerState): (r: TimerState)
    ensures r.timeRemaining == s.duration && r.duration == s.duration
    ensures !r.isRunning && r.showNumbers == s.showNumbers
    ensures 0 <= s.duration ==> Valid(r)
  {
    s.(timeRemaining := s.duration, isRunning := false)
  }

  /** The eye button: flips whether the numbers are shown. */
  function ToggleNumbers(s: TimerState): (r: TimerState)
    ensures r.showNumbers != s.showNumbers
    ensures r.duration == s.duration && r.timeRemaining == s.timeRemaining
    ensures r.isRunning == s.isRunning
    ensures Valid(s) ==> Valid(r)
  {
    s.(showNumbers := !s.showNumbers)
  }

  /** The `[duration]` effect. React runs it only when the `duration` prop
      changes, and `state.duration` always holds the current prop in seconds,
      so an unchanged value does nothing. A changed value refills the timer
      but keeps `isRunning` and `showNumbers`: it is not a stop. */
  function Reconfigure(s: TimerState, seconds: nat): (r: TimerState)
    ensures r.duration == seconds
    ensures seconds != s.duration ==> r.timeRemaining == seconds
    ensures seconds == s.duration ==> r == s
    ensures r.isRunning == s.isRunning && r.showNumbers == s.showNumbers
    ensures Valid(s) ==> Valid(r)
  {
    if seconds == s.duration then s
    else s.(duration := seconds, timeRemaining := seconds)
  }

  /** Everything that can happen to a mounted timer. */
  datatype TimerEvent =
    | TogglePlay
    | ResetPressed
    | ToggleNumbersPressed
    | DurationChanged(seconds: nat)
    | TickElapsed

  function Step(s: TimerState, e: TimerEvent): (r: StepOutcome)
    ensures r.completed ==> e.TickElapsed?
    ensures Valid(s) ==> Valid(r.state)
  {
    match e
    case TogglePlay => StepOutcome(Toggle(s), false)
    case ResetPressed => StepOutcome(Reset(s), false)
    case ToggleNumbersPressed => StepOutcome(ToggleNumbers(s), false)
    case DurationChanged(seconds) => StepOutcome(Reconfigure(s, seconds), false)
    case TickElapsed => Tick(s)
  }

  /** The state after a trace of events and how many completions it fired. */
  datatype RunOutcome = RunOutcome(state: TimerState, completions: nat)

  function Run(s: TimerState, events: seq<TimerEvent>): RunOutcome {
    if |events| == 0 then RunOutcome(s, 0)
    else
      var prev := Run(s, events[..|events| - 1]);
      var last := Step(prev.state, events[|events| - 1]);
      RunOutcome(last.state, prev.completions + if last.completed then 1 else 0)
  }

  /** `k` consecutive ticks. */
  function Ticks(k: nat): (r: seq<TimerEvent>)
    ensures |r| == k
    ensures forall i :: 0 <= i < k ==> r[i] == TickElapsed
  {
    seq(k, _ => TickElapsed)
  }

  /** `0 <= timeRemaining <= duration` holds after any trace from a valid state. */
  lemma {:induction false} RunPreservesValid(s: TimerState, events: seq<TimerEvent>)
    requires Valid(s)
    ensures Valid(Run(s, events).state)
  {
    if |events| > 0 {
      RunPreservesValid(s, events[..|events| - 1]);
    }
  }

  /** A running countdown ticked `k` times: the time falls by one per tick and
      stops at zero, nothing else changes, and completion has fired once if and
      only if the `k` ticks reached zero. */
  lemma {:induction false} Countdown(s: TimerState, k: nat)
    requires s.isRunning && 0 <= s.timeRemaining
    ensures Run(s, Ticks(k)).state
         == s.(timeRemaining := if k <= s.timeRemaining then s.timeRemaining - k else 0)
    ensures Run(s, Ticks(k)).completions == if 0 < s.timeRemaining <= k then 1 else 0
  {
    if k > 0 {
      assert Ticks(k)[..k - 1] == Ticks(k - 1);
      Countdown(s, k - 1);
    }
  }

  /** A 2.5-minute timer, once started, completes on its 150th tick and not
      before. */
  lemma StartedImpromptuCompletesOnTick150()
    ensures Run(Toggle(Init(150)), Ticks(149)).completions == 0
    ensures Tick(Run(Toggle(Init(150)), Ticks(149)).state).completed
    ensures Run(Toggle(Init(150)), Ticks(150)).completions == 1
    ensures Run(Toggle(Init(150)), Ticks(150)).state.timeRemaining == 0
  {
    Countdown(Toggle(Init(150)), 149);
    Countdown(Toggle(Init(150)), 150);
  }

  /** No event other than a reset or a duration change puts time back. */
  predicate Refills(e: TimerEvent) {
    e.ResetPressed? || e.DurationChanged?
  }

  /** 1 while a countdown still has a completion ahead of it, else 0. */
  function Pending(s: TimerState): nat {
    if s.timeRemaining > 0 then 1 else 0
  }

  /** Completion fires at most once per countdown: along any trace without a
      refill, the completions fired plus the one still pending never exceed the
      one that was pending at the start. */
  lemma {:induction false} AtMostOneCompletionPerCountdown(s: TimerState, events: seq<TimerEvent>)
    requires forall i :: 0 <= i < |events| ==> !Refills(events[i])
    ensures Run(s, events).completions + Pending(Run(s, events).state) <= Pending(s)
    ensures Run(s, events).state.timeRemaining <= s.timeRemaining
  {
    if |events| > 0 {
      var init := events[..|events| - 1];
      assert forall i :: 0 <= i < |init| ==> init[i] == events[i];
      AtMostOneCompletionPerCountdown(s, init);
    }
  }

  /** Pausing stops the countdown: ticks delivered to a paused timer change
      nothing; resuming gives back the paused state, which continues from the
      paused value. */
  lemma {:induction false} PauseHoldsResumeContinues(s: TimerState, k: nat)
    requires s.isRunning && s.timeRemaining > 0
    ensures Run(Toggle(s), Ticks(k)) == RunOutcome(Toggle(s), 0)
    ensures Toggle(Run(Toggle(s), Ticks(k)).state) == s
    ensures Tick(Toggle(Run(Toggle(s), Ticks(k)).state)).state.timeRemaining == s.timeRemaining - 1
  {
    if k > 0 {
      assert Ticks(k)[..k - 1] == Ticks(k - 1);
      PauseHoldsResumeContinues(s, k - 1);
    }
  }

  lemma ToggleTwiceRestores(s: TimerState)
    ensures Toggle(Toggle(s)) == s
  {}

  lemma ToggleNumbersTwiceRestores(s: TimerState)
    ensures ToggleNumbers(ToggleNumbers(s)) == s
  {}

  lemma ResetIdempotent(s: TimerState)
    ensures Reset(Reset(s)) == Reset(s)
  {}

  /** The colour tiers of the ring, most urgent first. */
  datatype Tier = Red | Orange | Green | Gray

  /** The ring colour for a remaining time. */
  function ColorTier(timeRemaining: int): (r: Tier)
    ensures r == Red <==> timeRemaining <= 0
    ensures r == Orange <==> 0 < timeRemaining <= 30
    ensures r == Green <==> 30 < timeRemaining <= 60
    ensures r == Gray <==> 60 < timeRemaining
  {
    if timeRemaining <= 0 then Red
    else if timeRemaining <= 30 then Orange
    else if timeRemaining <= 60 then Green
    else Gray
  }

  /** How urgent a tier is; larger is more urgent. */
  function Urgency(t: Tier): nat {
    match t
    case Gray => 0
    case Green => 1
    case Orange => 2
    case Red => 3
  }

  /** Less time left is never less urgent. */
  lemma TierMonotone(a: int, b: int)
    requires a <= b
    ensures Urgency(ColorTier(b)) <= Urgency(ColorTier(a))
  {}

  /** As the countdown runs the colour only moves towards red, whatever other
      events are interleaved, as long as none refills the timer. */
  lemma {:induction false} TierNeverRelaxes(s: TimerState, events: seq<TimerEvent>)
    requires forall i :: 0 <= i < |events| ==> !Refills(events[i])
    ensures Urgency(ColorTier(s.timeRemaining)) <= Urgency(ColorTier(Run(s, events).state.timeRemaining))
  {
    AtMostOneCompletionPerCountdown(s, events);
    TierMonotone(Run(s, events).state.timeRemaining, s.timeRemaining);
  }

  lemma TierBoundaries()
    ensures ColorTier(0) == Red && ColorTier(1) == Orange
    ensures ColorTier(30) == Orange && ColorTier(31) == Green
    ensures ColorTier(60) == Green && ColorTier(61) == Gray
  {}

  /** JavaScript's `%`, whose result takes the sign of the dividend. */
  function JsRemainder(a: int, b: int): (r: int)
    requires b > 0
    ensures -b < r < b
    ensures 0 <= a ==> r == a % b
    ensures a < 0 ==> r <= 0
  {
    if a >= 0 then a % b else -((-a) % b)
  }

  /** `formatTime`: whole minutes (`Math.floor`, which Dafny's `/` by a positive
      number already is), a colon, and the remainder (JavaScript's `%`) padded
      to two places. For a non-negative time that is the unpadded minutes, a
      colon and the two-digit seconds below sixty. */
  function FormatTime(seconds: int): (r: string)
    ensures 0 <= seconds ==>
      && |r| >= 4 && r[|r| - 3] == ':'
      && r[..|r| - 3] == Decimal.NatToString(seconds / 60)
      && r[|r| - 2..] == Decimal.PadStart(Decimal.NatToString(seconds % 60), 2, '0')
    ensures 0 <= seconds ==> r[..|r| - 3] == "0" || r[0] != '0'
  {
    if 0 <= seconds then
      DisplayShape(seconds / 60, seconds % 60);
      Display(seconds / 60, JsRemainder(seconds, 60))
    else
      Display(seconds / 60, JsRemainder(seconds, 60))
  }

  /** The template `${mins}:${secs.toString().padStart(2, "0")}`. */
  function Display(mins: int, secs: int): string {
    Decimal.IntToString(mins) + ":" + Decimal.PadStart(Decimal.IntToString(secs), 2, '0')
  }

  /** With whole minutes and seconds below sixty, the display is the
      unpadded minutes (a lone zero or no leading zero), a colon, and the
      two-digit seconds. */
  lemma DisplayShape(mins: nat, secs: nat)
    requires secs < 60
    ensures var r := Display(mins, secs);
      && |r| >= 4 && r[|r| - 3] == ':'
      && r[..|r| - 3] == Decimal.NatToString(mins)
      && r[|r| - 2..] == Decimal.PadStart(Decimal.NatToString(secs), 2, '0')
      && (r[..|r| - 3] == "0" || r[0] != '0')
  {
    var minutes := Decimal.NatToString(mins);
    var padded := Decimal.PadStart(Decimal.NatToString(secs), 2, '0');
    assert Display(mins, secs) == minutes + ":" + padded;
    PaddedSeconds(secs);
    Decimal.NatToStringShape(mins);
    SplitAtColon(minutes, padded);
    assert |minutes| == 1 && minutes[0] == '0' ==> minutes == "0";
  }

  /** The parts of `m + ":" + p` for a two-character `p`. */
  lemma SplitAtColon(m: string, p: string)
    requires |p| == 2
    ensures var t := m + ":" + p;
      && |t| == |m| + 3 && t[|t| - 3] == ':'
      && t[..|t| - 3] == m && t[|t| - 2..] == p
      && (|m| > 0 ==> t[0] == m[0])
  {
    var t := m + ":" + p;
    assert t[..|t| - 3] == m;
    assert t[|t| - 2..] == p;
  }

  /** Reads "m:ss" back as (minutes, seconds); any other shape reads as None. */
  function ParseTime(s: string): Option<(nat, nat)> {
    if |s| >= 4 && s[|s| - 3] == ':'
       && Decimal.AllDigits(s[..|s| - 3]) && Decimal.AllDigits(s[|s| - 2..])
    then Some((Decimal.ParseNat(s[..|s| - 3]), Decimal.ParseNat(s[|s| - 2..])))
    else None
  }

  /** The seconds field of the display: exactly two digits that read back
      as the number below sixty. */
  lemma PaddedSeconds(n: nat)
    requires n < 60
    ensures |Decimal.PadStart(Decimal.NatToString(n), 2, '0')| == 2
    ensures Decimal.AllDigits(Decimal.PadStart(Decimal.NatToString(n), 2, '0'))
    ensures Decimal.ParseNat(Decimal.PadStart(Decimal.NatToString(n), 2, '0')) == n
  {
    var r := Decimal.NatToString(n);
    Decimal.NatToStringShape(n);
    assert |r| <= 2 by {
      if n >= 10 {
        Decimal.NatToStringShape(n / 10);
      }
    }
    var padded := Decimal.PadStart(r, 2, '0');
    var z := |padded| - |r|;
    assert padded == seq(z, _ => '0') + r;
    Decimal.ParseNatLeadingZeros(z, r);
    Decimal.ParseNatToString(n);
  }

  /** For a non-negative time the display reads back as its minutes and its
      seconds below sixty, which recombine to the original number. */
  lemma FormatTimeRoundTrip(seconds: nat)
    ensures ParseTime(FormatTime(seconds)) == Some((seconds / 60, seconds % 60))
    ensures var p := ParseTime(FormatTime(seconds)).value; p.0 * 60 + p.1 == seconds && p.1 < 60
  {
    var q, rem := seconds / 60, seconds % 60;
    PaddedSeconds(rem);
    Decimal.ParseNatToString(q);
  }

  /** Two non-negative times never share a display. */
  lemma FormatTimeInjective(a: nat, b: nat)
    ensures FormatTime(a) == FormatTime(b) ==> a == b
  {
    FormatTimeRoundTrip(a);
    FormatTimeRoundTrip(b);
  }

  /** A non-negative display is its two fields around the colon. */
  lemma FormatTimeAsFields(seconds: nat)
    ensures FormatTime(seconds)
         == Decimal.NatToString(seconds / 60) + ":" + Decimal.PadStart(Decimal.NatToString(seconds % 60), 2, '0')
  {
    var q, rem := seconds / 60, seconds % 60;
    assert FormatTime(seconds) == Display(q, rem);
  }

  lemma FormatTime75()
    ensures FormatTime(75) == "1:15"
  {
    var minutes := Decimal.NatToString(1);
    var padded := Decimal.PadStart(Decimal.NatToString(15), 2, '0');
    assert minutes == "1";
    assert padded == "15";
    FormatTimeAsFields(75);
    assert FormatTime(75) == minutes + ":" + padded;
  }

  lemma FormatTime5()
    ensures FormatTime(5) == "0:05"
  {
    FormatTimeAsFields(5);
    var minutes := Decimal.NatToString(0);
    var digits := Decimal.NatToString(5);
    assert minutes == "0";
    assert digits == "5";
    var padded := Decimal.PadStart(digits, 2, '0');
    assert padded == "05" by {
      assert padded == seq(1, _ => '0') + digits;
    }
  }

  lemma FormatTime0()
    ensures FormatTime(0) == "0:00"
  {
    FormatTimeAsFields(0);
    var minutes := Decimal.NatToString(0);
    var digits := Decimal.NatToString(0);
    assert minutes == "0";
    assert digits == "0";
    var padded := Decimal.PadStart(digits, 2, '0');
    assert padded == "00" by {
      assert padded == seq(1, _ => '0') + digits;
    }
  }

  lemma FormatTime150()
    ensures FormatTime(150) == "2:30"
  {
    var minutes := Decimal.NatToString(2);
    var padded := Decimal.PadStart(Decimal.NatToString(30), 2, '0');
    assert minutes == "2";
    assert padded == "30";
    FormatTimeAsFields(150);
    assert FormatTime(150) == minutes + ":" + padded;
  }
}
