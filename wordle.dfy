/** The game judge (src/logic/wordle.rs): the matcher and `Wordle::guess`. */
module Wordle {
  import opened Collections
  import opened Types
  import opened Mutator
  import Params
  import State

  datatype InvalidationReason = WrongLength | UnknownWord | RepeatWord

  datatype GuessResult = Correct | Wrong

  datatype WordValidation =
    | Invalid(reason: InvalidationReason, word: string)
    | Valid(result: GuessResult, matches: StringMatch)

  /** The alignment of guess letter `g` against target letter `t`, where
      `target` is the whole target word. */
  function Classify(target: string, t: char, g: char): CharAlignment
  {
    if t == g then Exact
    else if g in target then Misplaced
    else NotFound
  }

  /** `match_word`: target and guess are zipped, and each guess letter is Exact
      when it equals the target letter at its position, otherwise Misplaced when
      it occurs anywhere in the target (no target letter is used up), otherwise
      NotFound. */
  function MatchWord(target: string, guess: string): (r: StringMatch)
    ensures |r| == Min(|target|, |guess|)
    ensures forall i :: 0 <= i < |r| ==>
      && r[i].c == guess[i]
      && (r[i].align == Exact <==> target[i] == guess[i])
      && (r[i].align == Misplaced <==> target[i] != guess[i] && guess[i] in target)
      && (r[i].align == NotFound <==> guess[i] !in target)
  {
    seq(Min(|target|, |guess|), i requires 0 <= i < Min(|target|, |guess|) =>
      CharMatch(guess[i], Classify(target, target[i], guess[i])))
  }

  predicate AllExact(ms: StringMatch)
  {
    forall i :: 0 <= i < |ms| ==> ms[i].align == Exact
  }

  /** A word matched against itself is Exact everywhere. */
  lemma MatchSelfAllExact(w: string)
    ensures |MatchWord(w, w)| == |w| && AllExact(MatchWord(w, w))
  {
  }

  /** For equally long words, all-Exact feedback means the guess is the target. */
  lemma {:induction false} AllExactIffEqual(target: string, guess: string)
    requires |target| == |guess|
    ensures AllExact(MatchWord(target, guess)) <==> target == guess
  {
    if AllExact(MatchWord(target, guess)) {
      assert forall i :: 0 <= i < |guess| ==> target[i] == guess[i];
    }
  }

  /** The rule over-credits repeated letters: with target "crane" and guess
      "eerie" the single `e` of the target is credited three times. */
  lemma OverCreditsRepeatedLetters()
    ensures var m := MatchWord("crane", "eerie");
      m[0].align == Misplaced && m[1].align == Misplaced && m[4].align == Exact
  {
    var m := MatchWord("crane", "eerie");
    assert "crane"[4] == 'e';
  }

  /** `Wordle`: the parameters and the state of one game. */
  class Wordle {
    const params: Params.GameParameters
    var state: State.GameState

    /** `Wordle::new_game` with a given target (the random choice of a target is
        not part of this model). */
    constructor NewGame(params: Params.GameParameters, target: string)
      ensures this.params == params && state == State.NewGame(params, target)
    {
      this.params := params;
      state := State.NewGame(params, target);
    }

    /** `Wordle::guess`: validation, recording of the raw feedback, and the verdict. */
    method Guess(guessed: string) returns (v: WordValidation)
      modifies this
      ensures state.targetWord == old(state.targetWord)
      ensures |guessed| < params.wordSize.0 || |guessed| > params.wordSize.1 ==>
        v == Invalid(WrongLength, guessed) && state == old(state)
      ensures params.wordSize.0 <= |guessed| <= params.wordSize.1 && guessed !in params.guessWordlist ==>
        v == Invalid(UnknownWord, guessed) && state == old(state)
      ensures v.Valid? <==> params.wordSize.0 <= |guessed| <= params.wordSize.1 && guessed in params.guessWordlist
      ensures v.Valid? ==>
        && state.prevGuesses == old(state.prevGuesses) + [MatchWord(old(state.targetWord), guessed)]
        && (v.result == Correct <==> guessed == old(state.targetWord))
        && v.matches == (if guessed == old(state.targetWord) then MatchWord(old(state.targetWord), guessed)
                         else MutateMatches(params.mutator, MatchWord(old(state.targetWord), guessed)))
      ensures !(v.Invalid? && v.reason == RepeatWord)
    {
      var words := params.guessWordlist;
      var targetWord := state.targetWord;
      var range := params.wordSize;
      if |guessed| < range.0 || |guessed| > range.1 {
        return Invalid(WrongLength, guessed);
      } else if guessed !in words {
        return Invalid(UnknownWord, guessed);
      }
      var matches := MatchWord(targetWord, guessed);
      state := state.(prevGuesses := state.prevGuesses + [matches]);
      if targetWord == guessed {
        return Valid(Correct, matches);
      }
      var mutated := MutateMatches(params.mutator, matches);
      v := Valid(Wrong, mutated);
    }
  }
}
