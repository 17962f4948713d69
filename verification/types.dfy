/** The shared vocabulary of the speech-practice timer: the closed enumerations
    and the plain records the components pass between each other. */
module Types {

  /** A value that may be absent (the source's `T | null`). */
  datatype Option<+T> = None | Some(value: T)

  /** The three kinds of speech a user can practise. */
  datatype SpeechType = Impromptu | Prepared | Evaluative

  /** The five themes of the topic catalogue. */
  datatype Theme = Technology | Society | Environment | Education | Philosophy

  /** A speaking prompt; `id` has the form "<theme>-<index>". */
  datatype Topic = Topic(id: string, text: string, theme: Theme)

  /** The countdown's state. Times are whole seconds; the source keeps them in
      JavaScript numbers, so they are `int` here and the bounds are an invariant
      rather than a type. */
  datatype TimerState = TimerState(
    duration: int,
    isRunning: bool,
    timeRemaining: int,
    showNumbers: bool)
}
