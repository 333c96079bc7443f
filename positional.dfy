/** The frequency-scoring solver (src/solver/positional.rs): pick the best
    scoring word of the pool, and narrow the pool with each piece of feedback.
    The pool is a sequence in `HashSet` iteration order. */
module Positional {
  import opened Types
  import opened Solver
  import opened Scoring

  /** The `map` of `guess`: every pool word with its score, in pool order. */
  method Scores(words: seq<string>, freq: PosLetterFreq) returns (es: seq<real>)
    ensures |es| == |words|
    ensures forall j {:trigger es[j]} :: 0 <= j < |words| ==> es[j] == WordScore(words[j], freq) && es[j] >= 0.0
  {
    es := [];
    for k := 0 to |words|
      invariant |es| == k
      invariant forall j {:trigger es[j]} :: 0 <= j < k ==> es[j] == WordScore(words[j], freq) && es[j] >= 0.0
    {
      var score := ScoreWord(words[k], freq);
      ScoreNonNegative(words[k], freq);
      es := es + [score];
    }
  }

  /** The `fold` of `guess` over the scores, seeded with score 0.0 and no word
      (index -1): the accumulator survives only when strictly better, so on a
      tie the later word wins. Scores are never negative, so a non-empty pool
      yields the index of its last best score. */
  method LastBest(es: seq<real>) returns (idx: int)
    requires forall j :: 0 <= j < |es| ==> es[j] >= 0.0
    ensures es == [] ==> idx == -1
    ensures es != [] ==>
      && 0 <= idx < |es|
      && (forall j :: 0 <= j < |es| ==> es[j] <= es[idx])
      && (forall j :: idx < j < |es| ==> es[j] < es[idx])
  {
    var best := 0.0;
    idx := -1;
    for k := 0 to |es|
      invariant k == 0 ==> idx == -1 && best == 0.0
      invariant k > 0 ==>
        && 0 <= idx < k && best == es[idx]
        && (forall j :: 0 <= j < k ==> es[j] <= best)
        && (forall j :: idx < j < k ==> es[j] < best)
    {
      if !(best > es[k]) {
        best := es[k];
        idx := k;
      }
    }
  }

  /** `guess` on a given pool and frequency table: the best scoring word of a
      non-empty pool (the last of several equal ones), and "" for an empty one. */
  method BestWord(words: seq<string>, freq: PosLetterFreq) returns (w: string)
    ensures words == [] ==> w == ""
    ensures words != [] ==> exists idx ::
      && 0 <= idx < |words| && words[idx] == w
      && (forall j {:trigger WordScore(words[j], freq)} :: 0 <= j < |words| ==>
            WordScore(words[j], freq) <= WordScore(w, freq))
      && (forall j {:trigger WordScore(words[j], freq)} :: idx < j < |words| ==>
            WordScore(words[j], freq) < WordScore(w, freq))
  {
    var es := Scores(words, freq);
    var idx := LastBest(es);
    w := if idx < 0 then "" else words[idx];
    if words != [] {
      forall j | 0 <= j < |words|
        ensures WordScore(words[j], freq) <= WordScore(w, freq)
        ensures idx < j ==> WordScore(words[j], freq) < WordScore(w, freq)
      {
        assert es[j] == WordScore(words[j], freq) && es[idx] == WordScore(w, freq);
      }
    }
  }

  /** `PositionalSolver`: the pool of words still possible. */
  class PositionalSolver {
    var wordlist: seq<string>

    /** `PositionalSolver::load_wordlist`. */
    constructor LoadWordlist(wordlist: seq<string>)
      ensures this.wordlist == wordlist
    {
      this.wordlist := wordlist;
    }

    /** `guess`: the best scoring word of the pool under its own letter
        frequencies (the last of several equal ones), "" for an empty pool. */
    method Guess() returns (w: string)
      ensures wordlist == [] ==> w == ""
      ensures wordlist != [] ==> exists idx ::
        && 0 <= idx < |wordlist| && wordlist[idx] == w
        && (forall j {:trigger WordScore(wordlist[j], LetterFreq(wordlist))} :: 0 <= j < |wordlist| ==>
              WordScore(wordlist[j], LetterFreq(wordlist)) <= WordScore(w, LetterFreq(wordlist)))
        && (forall j {:trigger WordScore(wordlist[j], LetterFreq(wordlist))} :: idx < j < |wordlist| ==>
              WordScore(wordlist[j], LetterFreq(wordlist)) < WordScore(w, LetterFreq(wordlist)))
    {
      var counts := CountLetter(wordlist);
      w := BestWord(wordlist, counts);
    }

    /** `narrow_words`: the pool becomes the old pool's words that pass the
        filter of the feedback, in order. */
    method NarrowWords(guessResult: StringMatch)
      modifies this
      ensures wordlist == Narrow(old(wordlist), guessResult)
    {
      wordlist := Narrow(wordlist, guessResult);
    }
  }
}
