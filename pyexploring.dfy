/** The exploratory Python prototype (exploring/solver.py). Its
    `count_letters`, `score_word`, `score_wordlist`, `filter_word`,
    `filter_list` and `score_words` are the functions of solver.py, modelled
    in `PySolver`; what it adds is `match_word`, which turns a guess and a
    target into filter arguments. */
module PyExploring {
  import opened Collections
  import opened Wrappers
  import opened PySolver

  /** `match_word`. Both letter sets are built from the guess, so `exc`, their
      symmetric difference, is empty and `inc` is the guess's letters. A
      position where guess and target agree gets both `pos[i]` and
      `nopos[i] = [guess[i]]`. The returned keys have no `size`, so the filter
      keeps its default `(5, 5)`. */
  function MatchWord(guess: string, target: string): (r: PyCriteria)
    ensures r.exc == {}
    ensures forall c :: c in r.inc <==> c in guess
    ensures r.size == (5, 5)
    ensures |r.pos| == |r.nopos| == Min(|guess|, |target|)
    ensures forall i :: 0 <= i < |r.pos| ==>
      && (r.pos[i].Some? <==> guess[i] == target[i])
      && (r.pos[i].Some? ==> r.pos[i].value == guess[i])
      && r.nopos[i] == (if r.pos[i].Some? then [guess[i]] else [])
  {
    var guessSet := set c | c in guess;
    var targetSet := set c | c in guess;
    var exc := (targetSet - guessSet) + (guessSet - targetSet);
    var inc := targetSet + targetSet;
    var n := Min(|guess|, |target|);
    var pos := seq(n, i requires 0 <= i < n => if guess[i] == target[i] then Some(guess[i]) else None);
    var nopos := seq(n, i requires 0 <= i < n => if guess[i] == target[i] then [guess[i]] else []);
    PyCriteria(pos, nopos, inc, exc, (5, 5))
  }

  /** The letter arguments do not depend on the target at all. */
  lemma LettersIgnoreTarget(guess: string, t1: string, t2: string)
    ensures MatchWord(guess, t1).inc == MatchWord(guess, t2).inc
    ensures MatchWord(guess, t1).exc == MatchWord(guess, t2).exc
  {
  }

  /** A position where guess and target agree, within the five letters the
      filter looks at, makes the filter reject every word: a 5-letter word
      would need that letter there and must not have it there. */
  lemma ExactHitRejectsAll(guess: string, target: string, i: nat, word: string)
    requires i < Min(|guess|, |target|) && i < 5 && guess[i] == target[i]
    ensures !FilterWord(word, MatchWord(guess, target))
  {
    var c := MatchWord(guess, target);
    assert c.pos[i] == Some(guess[i]) && c.nopos[i] == [guess[i]];
  }

  /** Hence the list filtered by such a `match_word` is empty, target included. */
  lemma {:induction false} ExactHitEmptiesList(guess: string, target: string, i: nat, words: seq<string>)
    requires i < Min(|guess|, |target|) && i < 5 && guess[i] == target[i]
    ensures FilterList(words, MatchWord(guess, target)) == []
  {
    if words != [] {
      ExactHitRejectsAll(guess, target, i, words[0]);
      ExactHitEmptiesList(guess, target, i, words[1..]);
    }
  }

  /** With no agreeing position the filter keeps exactly the 5-letter words
      that contain every letter of the guess. */
  lemma NoExactHitKeeps(guess: string, target: string, word: string)
    requires forall i :: 0 <= i < Min(|guess|, |target|) ==> guess[i] != target[i]
    ensures FilterWord(word, MatchWord(guess, target)) <==>
      |word| == 5 && forall l :: l in guess ==> l in word
  {
    var c := MatchWord(guess, target);
    assert forall i :: 0 <= i < |c.pos| ==> c.pos[i].None? && c.nopos[i] == [];
  }
}
