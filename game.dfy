/** The older, stateless judge (src/logic/game.rs). Its `match_word` is the same
    contains-based rule as `Wordle.MatchWord`, so that function serves both.
    The `anyhow::Result` wrapper never carries an error here and is dropped. */
module Game {
  import opened Types
  import opened Mutator
  import opened Wordle

  /** The fields of `setup_game`'s parameters that the auto-player reads. */
  datatype GameParameters = GameParameters(
    wordSize: nat,
    tries: int,
    guessWordlist: set<string>,
    timeLimitSecs: nat)

  /** `guess_word`: length check first, then membership, then the verdict; the
      alignments of a wrong guess pass through a `NoopMutator`. */
  function GuessWord(guessed: string, words: set<string>, target: string, range: (nat, nat)): (r: WordValidation)
    ensures (r.Invalid? && r.reason == WrongLength) <==> |guessed| < range.0 || |guessed| > range.1
    ensures (r.Invalid? && r.reason == UnknownWord) <==> range.0 <= |guessed| <= range.1 && guessed !in words
    ensures r.Invalid? ==> r.word == guessed && r.reason != RepeatWord
    ensures r.Valid? ==> r.matches == MatchWord(target, guessed) && (r.result == Correct <==> guessed == target)
  {
    if |guessed| < range.0 || |guessed| > range.1 then
      Invalid(WrongLength, guessed)
    else if guessed !in words then
      Invalid(UnknownWord, guessed)
    else
      var matches := MatchWord(target, guessed);
      if target == guessed then
        Valid(Correct, matches)
      else
        Valid(Wrong, MutateMatches(NoopMutator, matches))
  }

  /** A wrong length is reported as such even for a word that is also unknown. */
  lemma WrongLengthFirst(guessed: string, words: set<string>, target: string, range: (nat, nat))
    requires |guessed| < range.0 || |guessed| > range.1
    requires guessed !in words
    ensures GuessWord(guessed, words, target, range) == Invalid(WrongLength, guessed)
  {
  }
}
