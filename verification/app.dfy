/** The App component: the session flags, the four handlers that change them,
    the duration handed to the Timer, and which panel is on screen. */
module App {
  import opened Types
  import SpeechSelector
  import TopicGenerator

  datatype Session = Session(
    speechType: Option<SpeechType>,
    selectedTopic: Option<Topic>,
    isInProgress: bool,
    showTopicGenerator: bool)

  /** Nothing selected, selection screen, picker closed. */
  const InitialSession := Session(None, None, false, false)

  /** The App opens on the selection screen with nothing below the selector:
      no picker and no timer. */
  lemma InitialSessionShowsSelectorOnly()
    ensures CurrentView(InitialSession) == SelectionView(NoPanel)
    ensures !TimerShown(InitialSession)
    ensures InitialSession.speechType == None && InitialSession.selectedTopic == None
  {}

  /** A speech-type button: records the type, opens the picker exactly for
      impromptu, and forgets any earlier topic. */
  function HandleSpeechSelect(s: Session, ty: SpeechType): (r: Session)
    ensures r.speechType == Some(ty) && r.selectedTopic == None
    ensures r.showTopicGenerator <==> ty == Impromptu
    ensures r.isInProgress == s.isInProgress
  {
    s.(speechType := Some(ty), showTopicGenerator := ty == Impromptu, selectedTopic := None)
  }

  /** A topic from the picker: remembered, and the picker closes. */
  function HandleTopicSelect(s: Session, topic: Topic): (r: Session)
    ensures r.selectedTopic == Some(topic) && !r.showTopicGenerator
    ensures r.speechType == s.speechType && r.isInProgress == s.isInProgress
  {
    s.(selectedTopic := Some(topic), showTopicGenerator := false)
  }

  /** The back arrow: leaves the session; the selections are kept. */
  function HandleBackToSelection(s: Session): (r: Session)
    ensures !r.isInProgress
    ensures r.speechType == s.speechType && r.selectedTopic == s.selectedTopic
    ensures r.showTopicGenerator == s.showTopicGenerator
  {
    s.(isInProgress := false)
  }

  /** The Timer's `onComplete`: leaves the session; the selections are kept. */
  function HandleTimerComplete(s: Session): (r: Session)
    ensures !r.isInProgress
    ensures r.speechType == s.speechType && r.selectedTopic == s.selectedTopic
    ensures r.showTopicGenerator == s.showTopicGenerator
  {
    s.(isInProgress := false)
  }

  /** The Timer's duration in seconds: seven minutes for a prepared speech,
      two and a half otherwise, including when no type is selected. */
  function GetDuration(ty: Option<SpeechType>): (seconds: nat)
    ensures seconds == 420 <==> ty == Some(Prepared)
    ensures seconds == 150 <==> ty != Some(Prepared)
  {
    match ty
    case Some(Impromptu) => 150
    case Some(Prepared) => 420
    case Some(Evaluative) => 150
    case None => 150
  }

  /** The selector's table and the durations the App hands out agree. */
  lemma TableAgreesWithGetDuration(k: nat)
    requires k < |SpeechSelector.SpeechTypes|
    ensures SpeechSelector.SpeechTypes[k].seconds == GetDuration(Some(SpeechSelector.SpeechTypes[k].id))
  {}

  /** What fills the lower half of the selection screen. */
  datatype Panel = TopicPickerPanel | TimerPanel | NoPanel

  datatype View = SelectionView(panel: Panel) | InProgressView

  /** The screen the App renders. */
  function CurrentView(s: Session): (v: View)
    ensures v == InProgressView <==> s.isInProgress
    ensures v == SelectionView(TopicPickerPanel) <==> !s.isInProgress && s.showTopicGenerator
  {
    if s.isInProgress then InProgressView
    else if s.showTopicGenerator then SelectionView(TopicPickerPanel)
    else if s.speechType == Some(Prepared) || s.speechType == Some(Evaluative) || s.selectedTopic.Some? then
      SelectionView(TimerPanel)
    else SelectionView(NoPanel)
  }

  /** A Timer is mounted on screen: always in the in-progress view, and on
      the selection screen when the picker is closed and either the type needs
      no topic or a topic is set. */
  function TimerShown(s: Session): (shown: bool)
    ensures shown <==> (
      || s.isInProgress
      || (!s.showTopicGenerator
          && (s.speechType == Some(Prepared) || s.speechType == Some(Evaluative) || s.selectedTopic.Some?)))
  {
    CurrentView(s) == InProgressView || CurrentView(s) == SelectionView(TimerPanel)
  }

  /** Prepared and evaluative speeches show the timer at once, with no topic. */
  lemma NonImpromptuShowsTimer(s: Session, ty: SpeechType)
    requires ty != Impromptu
    ensures TimerShown(HandleSpeechSelect(s, ty))
    ensures HandleSpeechSelect(s, ty).selectedTopic == None
  {}

  /** Impromptu opens the picker instead of the timer. */
  lemma ImpromptuOpensPicker(s: Session)
    requires !s.isInProgress
    ensures CurrentView(HandleSpeechSelect(s, Impromptu)) == SelectionView(TopicPickerPanel)
    ensures !TimerShown(HandleSpeechSelect(s, Impromptu))
  {}

  datatype SessionEvent =
    | SpeechSelected(ty: SpeechType)
    | TopicSelected(topic: Topic)
    | BackToSelection
    | TimerCompleted

  function Apply(s: Session, e: SessionEvent): Session {
    match e
    case SpeechSelected(ty) => HandleSpeechSelect(s, ty)
    case TopicSelected(topic) => HandleTopicSelect(s, topic)
    case BackToSelection => HandleBackToSelection(s)
    case TimerCompleted => HandleTimerComplete(s)
  }

  function Run(s: Session, events: seq<SessionEvent>): Session {
    if |events| == 0 then s
    else Apply(Run(s, events[..|events| - 1]), events[|events| - 1])
  }

  /** No handler ever starts a session: after any events `isInProgress` is
      still false. */
  lemma {:induction false} NeverInProgress(events: seq<SessionEvent>)
    ensures !Run(InitialSession, events).isInProgress
  {
    if |events| > 0 {
      NeverInProgress(events[..|events| - 1]);
    }
  }

  /** Hence, on every reachable screen, the timer is shown exactly when the
      picker is closed and either the type needs no topic or a topic is set. */
  lemma TimerShownIff(events: seq<SessionEvent>)
    ensures var s := Run(InitialSession, events);
      TimerShown(s) <==>
        !s.showTopicGenerator
        && (s.speechType == Some(Prepared) || s.speechType == Some(Evaluative) || s.selectedTopic.Some?)
  {
    NeverInProgress(events);
  }

  /** Some topic event comes after every speech-type event of the trace. */
  ghost predicate PickedSinceLatestSelection(events: seq<SessionEvent>) {
    exists j :: 0 <= j < |events| && events[j].TopicSelected?
      && (forall k :: j < k < |events| ==> !events[k].SpeechSelected?)
  }

  /** A topic is held only if one was picked after the latest speech-type
      selection. */
  lemma {:induction false} TopicPickedAfterLatestSelection(events: seq<SessionEvent>)
    requires Run(InitialSession, events).selectedTopic.Some?
    ensures PickedSinceLatestSelection(events)
  {
    var n := |events|;
    var last := events[n - 1];
    if !last.TopicSelected? {
      var init := events[..n - 1];
      TopicPickedAfterLatestSelection(init);
      var j :| 0 <= j < |init| && init[j].TopicSelected?
        && (forall k :: j < k < |init| ==> !init[k].SpeechSelected?);
      assert events[j].TopicSelected?;
      assert forall k :: j < k < n ==> !events[k].SpeechSelected? by {
        forall k | j < k < n
          ensures !events[k].SpeechSelected?
        {
          if k < n - 1 {
            assert events[k] == init[k];
          }
        }
      }
    }
  }

  /** An impromptu speech reaches the timer only through a topic picked after
      its latest selection. */
  lemma ImpromptuTimerNeedsTopic(events: seq<SessionEvent>)
    requires Run(InitialSession, events).speechType == Some(Impromptu)
    requires TimerShown(Run(InitialSession, events))
    ensures Run(InitialSession, events).selectedTopic.Some?
    ensures PickedSinceLatestSelection(events)
  {
    NeverInProgress(events);
    TopicPickedAfterLatestSelection(events);
  }

  /** Which handlers the rendered screen can call: the selector and picker
      live on the selection screen, the back arrow only on the in-progress
      screen, and `onComplete` only from a mounted timer. This over-approximates
      the screen: the picker's own batch is not tracked, so any catalogued
      topic is accepted while the picker is up, and `onComplete` is accepted
      whenever a timer is shown, not only when its countdown reaches 0. */
  ghost predicate Enabled(s: Session, e: SessionEvent) {
    match e
    case SpeechSelected(_) => !s.isInProgress
    case TopicSelected(topic) =>
      CurrentView(s) == SelectionView(TopicPickerPanel) && TopicGenerator.Catalogued(topic)
    case BackToSelection => s.isInProgress
    case TimerCompleted => TimerShown(s)
  }

  /** Events each of which the screen before it could deliver. */
  ghost predicate Feasible(events: seq<SessionEvent>) {
    forall i :: 0 <= i < |events| ==> Enabled(Run(InitialSession, events[..i]), events[i])
  }

  /** What holds on every screen a user can reach. */
  ghost predicate Reachable(s: Session) {
    && !s.isInProgress
    && (s.showTopicGenerator ==> s.speechType == Some(Impromptu))
    && (s.selectedTopic.Some? ==> s.speechType == Some(Impromptu) && TopicGenerator.Catalogued(s.selectedTopic.value))
  }

  lemma {:induction false} FeasibleRunsAreReachable(events: seq<SessionEvent>)
    requires Feasible(events)
    ensures Reachable(Run(InitialSession, events))
  {
    var n := |events|;
    if n > 0 {
      var init := events[..n - 1];
      assert forall i :: 0 <= i < |init| ==> init[..i] == events[..i] && init[i] == events[i];
      FeasibleRunsAreReachable(init);
      assert events[..n - 1] == init;
      assert Enabled(Run(InitialSession, init), events[n - 1]);
    }
  }

  /** On any reachable screen a mounted timer belongs to a selected speech
      type, so its duration never comes from the fallback. */
  lemma {:induction false} ShownTimerHasSpeechType(events: seq<SessionEvent>)
    requires Feasible(events)
    requires TimerShown(Run(InitialSession, events))
    ensures Run(InitialSession, events).speechType.Some?
  {
    FeasibleRunsAreReachable(events);
  }

  /** The back arrow is never on a reachable screen. */
  lemma {:induction false} BackArrowNeverRendered(events: seq<SessionEvent>)
    requires Feasible(events)
    ensures !Enabled(Run(InitialSession, events), BackToSelection)
  {
    FeasibleRunsAreReachable(events);
  }

  /** The timer's completion leaves every reachable session as it was. */
  lemma {:induction false} CompletionChangesNothing(events: seq<SessionEvent>)
    requires Feasible(events)
    ensures HandleTimerComplete(Run(InitialSession, events)) == Run(InitialSession, events)
  {
    FeasibleRunsAreReachable(events);
  }
}
