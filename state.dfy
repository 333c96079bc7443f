/** The per-game state record (src/logic/state.rs). The random generator and
    the start instant it also holds are not part of this model. */
module State {
  import opened Types
  import Params

  datatype GameState = GameState(prevGuesses: seq<StringMatch>, targetWord: string)

  /** `GameState::new_game`: no guesses yet, the given target, and nothing read
      from the parameters. */
  function NewGame(params: Params.GameParameters, target: string): (s: GameState)
    ensures s.prevGuesses == [] && s.targetWord == target
  {
    GameState([], target)
  }
}
