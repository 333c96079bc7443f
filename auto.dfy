/** The automatic player (`auto_game` in src/auto.rs): rounds of "score the
    pool, guess its best word, narrow the pool with the feedback" until the
    judge says Correct. The random number generator is only handed on to the
    judge, whose `NoopMutator` never reads it, so it is not a parameter here. */
module Auto {
  import opened Collections
  import opened Types
  import opened Wordle
  import opened Filters
  import opened Solver
  import opened Scoring
  import opened Positional
  import Game

  /** How `auto_game` ends: the number of guesses made, or the `unreachable!()`
      panic on an invalid guess. */
  datatype AutoOutcome = Solved(guesses: nat) | Panicked

  /** The word the scoring fold of `auto_game` picks from `pool`: a best
      scoring word under the pool's own letter frequencies, the last of several
      equal ones, or "" for an empty pool. */
  ghost predicate IsChosen(pool: seq<string>, w: string)
  {
    && (pool == [] ==> w == "")
    && (pool != [] ==> exists idx ::
         && 0 <= idx < |pool| && pool[idx] == w
         && (forall j {:trigger WordScore(pool[j], LetterFreq(pool))} :: 0 <= j < |pool| ==>
              WordScore(pool[j], LetterFreq(pool)) <= WordScore(w, LetterFreq(pool)))
         && (forall j {:trigger WordScore(pool[j], LetterFreq(pool))} :: idx < j < |pool| ==>
              WordScore(pool[j], LetterFreq(pool)) < WordScore(w, LetterFreq(pool))))
  }

  /** A game the judge cannot reject: the target is in the pool, the word size
      is 5 (the size the filter demands), and every pool word has that size and
      is an allowed guess. */
  predicate Playable(params: Game.GameParameters, pool: seq<string>, target: string)
  {
    && target in pool
    && params.wordSize == 5
    && forall w :: w in pool ==> |w| == params.wordSize && w in params.guessWordlist
  }

  /** A wrong guess of the target's length leaves the pool it came from: a
      5-letter one fails its own filter, any other fails the filter's (5, 5) size. */
  lemma WrongGuessDropped(pool: seq<string>, target: string, guess: string)
    requires guess in pool && guess != target && |guess| == |target|
    ensures guess !in Narrow(pool, MatchWord(target, guess))
    ensures |Narrow(pool, MatchWord(target, guess))| < |pool|
  {
    if |target| == 5 {
      NarrowDropsWrongGuess(pool, target, guess);
    } else {
      FilterDropsRejected(Viable(MatchWord(target, guess)), pool, guess);
    }
  }

  /** A wrong verdict on a pool word: the word has the target's length and is
      out of the narrowed pool, which is a strictly smaller part of the pool
      and, in a playable game, still holds the target. */
  lemma WrongRound(params: Game.GameParameters, pool: seq<string>, target: string, word: string)
    requires |target| == params.wordSize && word in pool
    requires Game.GuessWord(word, params.guessWordlist, target, (params.wordSize, params.wordSize)).Valid?
    requires Game.GuessWord(word, params.guessWordlist, target, (params.wordSize, params.wordSize)).result == Wrong
    ensures word != target && |word| == |target|
    ensures word !in Narrow(pool, MatchWord(target, word))
    ensures forall w :: w in Narrow(pool, MatchWord(target, word)) ==> w in pool
    ensures |Narrow(pool, MatchWord(target, word))| < |pool|
    ensures Playable(params, pool, target) ==> Playable(params, Narrow(pool, MatchWord(target, word)), target)
  {
    WrongGuessDropped(pool, target, word);
    if Playable(params, pool, target) {
      NarrowKeepsTarget(pool, target, word);
    }
  }

  /** The scoring half of a pass of the loop of `auto_game`: the letter
      frequencies of the pool and its best word. */
  method Pick(pool: seq<string>) returns (word: string)
    ensures IsChosen(pool, word)
  {
    var counts := CountLetter(pool);
    word := BestWord(pool, counts);
  }

  /** The judging half of a pass: the judge's verdict on a pool word and, for
      a wrong guess, the pool narrowed by the feedback. */
  method Play(params: Game.GameParameters, pool: seq<string>, target: string, word: string)
      returns (v: WordValidation, next: seq<string>)
    requires |target| == params.wordSize && word in pool
    ensures v == Game.GuessWord(word, params.guessWordlist, target, (params.wordSize, params.wordSize))
    ensures v.Valid? && v.result == Wrong ==>
      && word != target && |word| == |target|
      && next == Narrow(pool, MatchWord(target, word))
      && word !in next
      && (forall w :: w in next ==> w in pool)
      && |next| < |pool|
    ensures Playable(params, pool, target) ==> v.Valid? && (v.result == Wrong ==> Playable(params, next, target))
  {
    v := Game.GuessWord(word, params.guessWordlist, target, (params.wordSize, params.wordSize));
    next := pool;
    if v.Valid? && v.result == Wrong {
      WrongRound(params, pool, target, word);
      next := Narrow(pool, v.matches);
    }
  }

  /** One pass of the loop of `auto_game`: the pool's best word, the judge's
      verdict on it, and, for a wrong guess, the pool narrowed by the feedback.
      A wrong guess is out of the new pool, which is therefore strictly
      smaller; in a playable game the verdict is never Invalid and the target
      stays in the pool. The word of an empty pool is "", which the judge
      rejects or finds Correct. */
  method Round(params: Game.GameParameters, pool: seq<string>, target: string)
      returns (word: string, v: WordValidation, next: seq<string>)
    requires |target| == params.wordSize
    ensures IsChosen(pool, word)
    ensures pool == [] ==> word == ""
    ensures pool != [] ==> word in pool
    ensures v == Game.GuessWord(word, params.guessWordlist, target, (params.wordSize, params.wordSize))
    ensures v.Valid? && v.result == Wrong ==>
      && word != target && |word| == |target|
      && next == Narrow(pool, MatchWord(target, word))
      && word in pool && word !in next
      && (forall w :: w in next ==> w in pool)
      && |next| < |pool|
    ensures Playable(params, pool, target) ==> v.Valid? && (v.result == Wrong ==> Playable(params, next, target))
  {
    word := Pick(pool);
    if pool == [] {
      v := Game.GuessWord(word, params.guessWordlist, target, (params.wordSize, params.wordSize));
      next := pool;
    } else {
      v, next := Play(params, pool, target, word);
    }
  }

  /** The guesses so far: all wrong, of the target's length, out of the
      current pool, and pairwise distinct. */
  ghost predicate Missed(target: string, played: seq<string>, pool: seq<string>)
  {
    && (forall i :: 0 <= i < |played| ==>
         played[i] != target && |played[i]| == |target| && played[i] !in pool)
    && (forall i, j :: 0 <= i < j < |played| ==> played[i] != played[j])
  }

  /** A wrong guess from the pool, dropped from the next pool, keeps the
      guesses wrong and distinct. */
  lemma WrongStep(target: string, played: seq<string>, pool: seq<string>, word: string, next: seq<string>)
    requires Missed(target, played, pool)
    requires word in pool && word != target && |word| == |target| && word !in next
    requires forall w :: w in next ==> w in pool
    ensures Missed(target, played + [word], next)
  {
    var p := played + [word];
    forall i | 0 <= i < |p|
      ensures p[i] != target && |p[i]| == |target| && p[i] !in next
    {
      if i < |played| {
        assert p[i] == played[i];
      }
    }
    forall i, j | 0 <= i < j < |p|
      ensures p[i] != p[j]
    {
      assert p[i] == played[i];
      if j == |played| {
        assert played[i] !in pool;
      } else {
        assert p[j] == played[j];
      }
    }
  }

  /** The last guess, on the target, leaves the earlier ones wrong and all of
      them distinct. */
  lemma RightStep(target: string, played: seq<string>, pool: seq<string>)
    requires Missed(target, played, pool)
    ensures forall i :: 0 <= i < |played + [target]| - 1 ==> (played + [target])[i] != target
    ensures forall i, j :: 0 <= i < j < |played + [target]| ==> (played + [target])[i] != (played + [target])[j]
  {
    var p := played + [target];
    forall i, j | 0 <= i < j < |p|
      ensures p[i] != p[j]
    {
      assert p[i] == played[i];
      if j < |played| {
        assert p[j] == played[j];
      }
    }
  }

  /** Feedback that is Exact at each of its at most five positions, on the
      letters of "crane", keeps "crane" in the pool ["crane"]. */
  lemma AgreeingPrefixKept(ms: StringMatch)
    requires |ms| <= 5
    requires forall i :: 0 <= i < |ms| ==> ms[i] == CharMatch("crane"[i], Exact)
    ensures Narrow(["crane"], ms) == ["crane"]
  {
    var f := DetermineFilter(ms);
    forall c | c in f.inc
      ensures c in "crane"
    {
      var i :| 0 <= i < |ms| && ms[i].c == c && ms[i].align != NotFound;
      assert c == "crane"[i];
    }
    assert forall c :: c !in f.exc;
    assert IsViableWord("crane", f);
    assert ["crane"][1..] == [];
    assert Filter(Viable(ms), ["crane"]) == ["crane"] + Filter(Viable(ms), []);
  }

  /** A target one letter longer than the word size: the only pool word is
      judged Wrong, yet its filter keeps it, so it is guessed again forever. */
  lemma LongTargetKeepsGuess()
    ensures Game.GuessWord("crane", {"crane"}, "cranes", (5, 5)) == Valid(Wrong, MatchWord("cranes", "crane"))
    ensures Narrow(["crane"], MatchWord("cranes", "crane")) == ["crane"]
  {
    var ms := MatchWord("cranes", "crane");
    AgreeingPrefixKept(ms);
  }

  /** A target one letter shorter than the word size: the zip compares four
      letters, all Exact, the verdict is Wrong, and the (5, 5) filter with
      those four letters fixed keeps the guess. */
  lemma ShortTargetKeepsGuess()
    ensures Game.GuessWord("crane", {"crane"}, "cran", (5, 5)) == Valid(Wrong, MatchWord("cran", "crane"))
    ensures Narrow(["crane"], MatchWord("cran", "crane")) == ["crane"]
  {
    var ms := MatchWord("cran", "crane");
    AgreeingPrefixKept(ms);
  }

  /** `auto_game`, returning next to the outcome the ghost list of the words it
      guessed. Every guess but the last is wrong, no word is guessed twice, a
      solved game ends on the target after at most `|answers| + 1` guesses (the
      last from an empty pool when the word size is 0), and a panic follows an
      invalid guess. In a playable game the judge never panics and the target
      stays in the pool, so the game is solved within `|answers|` guesses.
      The loop of the source runs forever when the target's length differs
      from the word size and target and a pool word agree on their common
      positions (`LongTargetKeepsGuess`, `ShortTargetKeepsGuess`), hence the
      precondition. */
  method AutoGame(params: Game.GameParameters, answers: seq<string>, target: string)
      returns (r: AutoOutcome, ghost played: seq<string>)
    requires |target| == params.wordSize
    ensures |played| >= 1
    ensures forall i :: 0 <= i < |played| - 1 ==> played[i] != target
    ensures forall i, j :: 0 <= i < j < |played| ==> played[i] != played[j]
    ensures r.Solved? ==> r.guesses == |played| && played[|played| - 1] == target && r.guesses <= |answers| + 1
    ensures r.Panicked? ==>
      Game.GuessWord(played[|played| - 1], params.guessWordlist, target, (params.wordSize, params.wordSize)).Invalid?
    ensures Playable(params, answers, target) ==> r.Solved? && r.guesses <= |answers|
  {
    var gameWords := answers;
    var guessCount: nat := 0;
    played := [];
    while true
      invariant |played| == guessCount
      invariant guessCount + |gameWords| <= |answers|
      invariant Playable(params, answers, target) ==> Playable(params, gameWords, target)
      invariant Missed(target, played, gameWords)
      decreases |gameWords|
    {
      var word, guessResult, next := Round(params, gameWords, target);
      guessCount := guessCount + 1;
      match guessResult {
        case Valid(result, matches) =>
          if result == Correct {
            RightStep(target, played, gameWords);
            played := played + [word];
            return Solved(guessCount), played;
          }
          WrongStep(target, played, gameWords, word, next);
          played := played + [word];
          gameWords := next;
        case Invalid(_, _) =>
          played := played + [word];
          return Panicked, played;
      }
    }
  }
}
