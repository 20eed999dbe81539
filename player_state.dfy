/**
 * Player states of the YouTube IFrame Player API (`YT.PlayerState`) and the
 * classification `userActed` applies to them: playing and paused are user
 * actions worth saving, every other state is dropped.
 */
module PlayerState {
  import opened Wrappers

  // The numeric values of YT.PlayerState in the YouTube IFrame Player API.
  const UNSTARTED: int := -1
  const ENDED: int := 0
  const PLAYING: int := 1
  const PAUSED: int := 2
  const BUFFERING: int := 3
  const CUED: int := 5

  /** The user actions the audit records. */
  datatype UserAction = Play | Paused

  /** The `userAction` string saved for an action. */
  function ActionName(action: UserAction): string
  {
    match action
    case Play => "play"
    case Paused => "paused"
  }

  /** The player state an action is read from. */
  function StateOf(action: UserAction): int
  {
    match action
    case Play => PLAYING
    case Paused => PAUSED
  }

  /**
   * The action a state change stands for, if any. Only the two states an
   * action is read from are accepted, and each yields that action.
   */
  function Classify(state: int): (r: Option<UserAction>)
    ensures r.Some? ==> StateOf(r.value) == state
    ensures state == PLAYING || state == PAUSED ==> r.Some?
  {
    if state == PLAYING then Some(Play)
    else if state == PAUSED then Some(Paused)
    else None
  }

  /** Classification and `StateOf` are inverse: a state yields an action exactly when it is that action's state. */
  lemma ClassifyInverse(state: int, action: UserAction)
    ensures Classify(state) == Some(action) <==> state == StateOf(action)
  {
  }

  /** The saved names tell the two actions apart. */
  lemma ActionNamesDistinct(a: UserAction, b: UserAction)
    ensures ActionName(a) == ActionName(b) <==> a == b
  {
  }
}
