/** Game configuration (src/logic/params.rs). The two embedded word files are
    passed in as their sequences of lines. */
module Params {
  import opened Collections
  import opened Wrappers
  import opened Mutator

  datatype GameParameters = GameParameters(
    guessWordlist: set<string>,
    answerWordlist: seq<string>,
    wordSize: (nat, nat),
    mutator: Mutator,
    tries: Option<int>,
    timeLimitSecs: Option<nat>)

  /** The inclusive length test applied to the answer file. */
  function InRange(lo: nat, hi: nat): string -> bool
  {
    x => lo <= |x| <= hi
  }

  /** The test applied to the guess file: both comparisons are strict. */
  function StrictlyInside(lo: nat, hi: nat): string -> bool
  {
    x => lo < |x| < hi
  }

  /** `GameParameters::default`, given the lines of `answers.txt` and `guesses.txt`. */
  function Default(answerLines: seq<string>, guessLines: seq<string>): (p: GameParameters)
    ensures p.wordSize == (5, 5) && p.tries == Some(6) && p.timeLimitSecs == None
    ensures p.mutator == NoopMutator
  {
    var wordSize := (5, 5);
    var answers := Filter(InRange(wordSize.0, wordSize.1), answerLines);
    var guesses := Filter(StrictlyInside(wordSize.0, wordSize.1), guessLines);
    GameParameters(
      (set w | w in guesses + answers),
      answers,
      wordSize,
      NoopMutator,
      Some(6),
      None)
  }

  /** The answer list is the answer file's lines of length 5, in file order. */
  lemma DefaultAnswers(answerLines: seq<string>, guessLines: seq<string>)
    ensures Default(answerLines, guessLines).answerWordlist == Filter(InRange(5, 5), answerLines)
    ensures forall w :: w in Default(answerLines, guessLines).answerWordlist <==> w in answerLines && |w| == 5
  {
  }

  /** With the bounds (5, 5) the strict guess-file test admits no line at all. */
  lemma {:induction false} StrictFilterIsEmpty(lines: seq<string>)
    ensures Filter(StrictlyInside(5, 5), lines) == []
  {
    if lines != [] {
      StrictFilterIsEmpty(lines[1..]);
    }
  }

  /** Hence the guess set is exactly the set of answers, and every answer may be guessed. */
  lemma DefaultGuessesAreAnswers(answerLines: seq<string>, guessLines: seq<string>)
    ensures Default(answerLines, guessLines).guessWordlist == (set w | w in Default(answerLines, guessLines).answerWordlist)
    ensures forall w :: w in Default(answerLines, guessLines).answerWordlist ==> w in Default(answerLines, guessLines).guessWordlist
  {
    StrictFilterIsEmpty(guessLines);
    var answers := Default(answerLines, guessLines).answerWordlist;
    assert [] + answers == answers;
  }
}
