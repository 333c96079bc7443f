/** The judge of the command-line binary (src/main.rs). Its `match_word` and
    `determine_filter` are identical to `Wordle.MatchWord` and
    `Filters.DetermineFilter`; its `guess_word` differs from the one in
    src/logic/game.rs only in that the mutation step is commented out. */
module Cli {
  import opened Types
  import opened Wordle
  import Game

  /** `guess_word` of src/main.rs: a wrong guess gets the feedback unchanged. */
  function GuessWord(guessed: string, words: set<string>, target: string, range: (nat, nat)): (r: WordValidation)
    ensures (r.Invalid? && r.reason == WrongLength) <==> |guessed| < range.0 || |guessed| > range.1
    ensures (r.Invalid? && r.reason == UnknownWord) <==> range.0 <= |guessed| <= range.1 && guessed !in words
    ensures r.Valid? ==> r.matches == MatchWord(target, guessed) && (r.result == Correct <==> guessed == target)
  {
    if |guessed| < range.0 || |guessed| > range.1 then
      Invalid(WrongLength, guessed)
    else if guessed !in words then
      Invalid(UnknownWord, guessed)
    else
      var matches := MatchWord(target, guessed);
      if target == guessed then Valid(Correct, matches) else Valid(Wrong, matches)
  }

  /** Because the library judge uses the no-op mutator, both judges agree on every input. */
  lemma AgreesWithGameJudge(guessed: string, words: set<string>, target: string, range: (nat, nat))
    ensures GuessWord(guessed, words, target, range) == Game.GuessWord(guessed, words, target, range)
  {
    Mutator.NoopKeepsMatches(MatchWord(target, guessed));
  }
}
