/**
 The data model shared by the monitor and the quiz: the four activity
 categories, the game phases, the feedback record, the game state and one
 entry of the day's schedule.
 */
module Types {

  /** The activity shown by the monitor; `Crisis` is the anomalous rhythm. */
  datatype ActivityLevel = Sleeping | Walking | Sprinting | Crisis

  /** The screens of the quiz, in the order a game passes through them. */
  datatype GamePhase = Intro | Ready | Playing | Finished

  /** The overlay shown after an answer. */
  datatype Feedback = Feedback(show: bool, isCorrect: bool, message: string)

  /** The whole quiz state held by the application. */
  datatype GameState = GameState(
    score: int,
    currentRoundIndex: int,
    phase: GamePhase,
    feedback: Feedback)

  /** One point of the day: a clock time "HH:MM", what the person does, and a caption. */
  datatype DayEvent = DayEvent(time: string, activity: ActivityLevel, description: string)

  datatype Option<T> = None | Some(value: T)
}
