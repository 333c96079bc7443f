/** The entropy solver (src/solver/entropy.rs). Only its integer part is
    modelled: the histogram of feedback patterns a candidate would produce
    over the pool. The floating-point entropy of a histogram (`log2` of f32
    probabilities) is a parameter `entropy` of the operations that use it. */
module Entropy {
  import opened Collections
  import opened Wrappers
  import opened Types
  import opened Wordle
  import opened Solver

  /** The alignments of one piece of feedback, the key of the histogram. */
  type Pattern = seq<CharAlignment>

  type Histogram = map<Pattern, nat>

  /** The pattern pool word `w` would produce if `candidate` were the target. */
  function PatternOf(candidate: string, w: string): (p: Pattern)
    ensures |p| == Min(|candidate|, |w|)
    ensures forall i :: 0 <= i < |p| ==> (p[i] == Exact <==> candidate[i] == w[i])
  {
    Aligns(MatchWord(candidate, w))
  }

  /** The patterns of the whole pool, in pool order. */
  function Patterns(candidate: string, words: seq<string>): (ps: seq<Pattern>)
    ensures |ps| == |words| && forall k {:trigger ps[k]} :: 0 <= k < |words| ==> ps[k] == PatternOf(candidate, words[k])
  {
    seq(|words|, k requires 0 <= k < |words| => PatternOf(candidate, words[k]))
  }

  /** The value `get_word_entropy` returns for `candidate`, given the entropy of a
      histogram over a pool of a given size. */
  function WordEntropy(entropy: (Histogram, nat) -> real, words: seq<string>, candidate: string): real
  {
    entropy(Tally(Patterns(candidate, words)), |words|)
  }

  /** The counts of the histogram add up to the pool size. */
  lemma HistogramTotal(candidate: string, words: seq<string>)
    ensures Total(Tally(Patterns(candidate, words))) == |words|
  {
    TotalTally(Patterns(candidate, words));
  }

  /** Each pattern in the histogram occurs at least once, and there are at
      most as many patterns as pool words. */
  lemma HistogramCounts(candidate: string, words: seq<string>)
    ensures forall p :: p in Tally(Patterns(candidate, words)) ==> Tally(Patterns(candidate, words))[p] >= 1
    ensures |Tally(Patterns(candidate, words))| <= |words|
  {
    TallyMeaning(Patterns(candidate, words));
    TallySize(Patterns(candidate, words));
  }

  /** The patterns of the histogram are exactly those some pool word produces. */
  lemma HistogramPatterns(candidate: string, words: seq<string>, p: Pattern)
    ensures p in Tally(Patterns(candidate, words)) <==>
      exists k :: 0 <= k < |words| && PatternOf(candidate, words[k]) == p
  {
    var ps := Patterns(candidate, words);
    TallyMeaning(ps);
    if p in ps {
      var k :| 0 <= k < |ps| && ps[k] == p;
      assert PatternOf(candidate, words[k]) == p;
    }
    if exists k :: 0 <= k < |words| && PatternOf(candidate, words[k]) == p {
      var k :| 0 <= k < |words| && PatternOf(candidate, words[k]) == p;
      assert ps[k] == p;
    }
  }

  /** A candidate from the pool sees itself as the all-Exact pattern, so that
      pattern is in its histogram. */
  lemma CandidateSeesItself(candidate: string, words: seq<string>)
    requires candidate in words
    ensures seq(|candidate|, _ => Exact) in Tally(Patterns(candidate, words))
  {
    var k :| 0 <= k < |words| && words[k] == candidate;
    assert PatternOf(candidate, words[k]) == seq(|candidate|, _ => Exact);
    HistogramPatterns(candidate, words, seq(|candidate|, _ => Exact));
  }

  /** The `reduce` of `guess` over the entropies: the accumulator is replaced
      only by a strictly greater value, so the result is the index of the first
      greatest entropy. */
  method FirstBest(es: seq<real>) returns (idx: nat)
    requires es != []
    ensures idx < |es|
    ensures forall j :: 0 <= j < |es| ==> es[j] <= es[idx]
    ensures forall j :: 0 <= j < idx ==> es[j] < es[idx]
  {
    idx := 0;
    for k := 1 to |es|
      invariant idx < k
      invariant forall j :: 0 <= j < k ==> es[j] <= es[idx]
      invariant forall j :: 0 <= j < idx ==> es[j] < es[idx]
    {
      if es[idx] < es[k] {
        idx := k;
      }
    }
  }

  /** The first greatest entropy value belongs to the first word of greatest entropy. */
  lemma FirstBestEntropy(entropy: (Histogram, nat) -> real, words: seq<string>, es: seq<real>, idx: nat)
    requires |es| == |words| && idx < |es|
    requires forall j {:trigger es[j]} :: 0 <= j < |words| ==> es[j] == WordEntropy(entropy, words, words[j])
    requires forall j :: 0 <= j < |es| ==> es[j] <= es[idx]
    requires forall j :: 0 <= j < idx ==> es[j] < es[idx]
    ensures forall j {:trigger WordEntropy(entropy, words, words[j])} :: 0 <= j < |words| ==>
      WordEntropy(entropy, words, words[j]) <= WordEntropy(entropy, words, words[idx])
    ensures forall j {:trigger WordEntropy(entropy, words, words[j])} :: 0 <= j < idx ==>
      WordEntropy(entropy, words, words[j]) < WordEntropy(entropy, words, words[idx])
  {
    forall j | 0 <= j < |words|
      ensures WordEntropy(entropy, words, words[j]) <= WordEntropy(entropy, words, words[idx])
      ensures j < idx ==> WordEntropy(entropy, words, words[j]) < WordEntropy(entropy, words, words[idx])
    {
      assert es[j] == WordEntropy(entropy, words, words[j]) && es[idx] == WordEntropy(entropy, words, words[idx]);
    }
  }

  /** `EntropySolver`: the pool of words still possible. */
  class EntropySolver {
    var wordlist: seq<string>

    /** `EntropySolver::load_wordlist`. */
    constructor LoadWordlist(wordlist: seq<string>)
      ensures this.wordlist == wordlist
    {
      this.wordlist := wordlist;
    }

    /** The loop of `get_word_entropy`: each pool word's pattern against the
        candidate is counted, and so is the word. */
    method WordHistogram(candidate: string) returns (probability: Histogram, total: nat)
      ensures probability == Tally(Patterns(candidate, wordlist))
      ensures total == |wordlist|
    {
      probability := map[];
      total := 0;
      var ps := Patterns(candidate, wordlist);
      assert ps[..0] == [];
      for k := 0 to |wordlist|
        invariant probability == Tally(ps[..k])
        invariant total == k
      {
        var charMatch := PatternOf(candidate, wordlist[k]);
        assert ps[..k + 1] == ps[..k] + [charMatch];
        TallySnoc(ps[..k], charMatch);
        probability := Bump(probability, charMatch);
        total := total + 1;
      }
      assert ps[..|wordlist|] == ps;
    }

    /** `get_word_entropy`: the entropy of the candidate's histogram. */
    method GetWordEntropy(candidate: string, entropy: (Histogram, nat) -> real) returns (e: real)
      ensures e == WordEntropy(entropy, wordlist, candidate)
    {
      var probability, total := WordHistogram(candidate);
      e := entropy(probability, total);
    }

    /** The `map` of `guess`: every pool word with its entropy, in pool order. */
    method Entropies(entropy: (Histogram, nat) -> real) returns (es: seq<real>)
      ensures |es| == |wordlist|
      ensures forall j {:trigger es[j]} :: 0 <= j < |wordlist| ==> es[j] == WordEntropy(entropy, wordlist, wordlist[j])
    {
      es := [];
      for k := 0 to |wordlist|
        invariant |es| == k
        invariant forall j {:trigger es[j]} :: 0 <= j < k ==> es[j] == WordEntropy(entropy, wordlist, wordlist[j])
      {
        var e := GetWordEntropy(wordlist[k], entropy);
        es := es + [e];
      }
    }

    /** `guess`: the reduce keeps the accumulator unless the next word is
        strictly better, so it returns the first word of greatest entropy, and
        nothing for an empty pool. */
    method Guess(entropy: (Histogram, nat) -> real) returns (g: Option<string>)
      ensures g.None? <==> wordlist == []
      ensures g.Some? ==> exists idx ::
        && 0 <= idx < |wordlist| && wordlist[idx] == g.value
        && (forall j {:trigger WordEntropy(entropy, wordlist, wordlist[j])} :: 0 <= j < |wordlist| ==>
              WordEntropy(entropy, wordlist, wordlist[j]) <= WordEntropy(entropy, wordlist, g.value))
        && (forall j {:trigger WordEntropy(entropy, wordlist, wordlist[j])} :: 0 <= j < idx ==>
              WordEntropy(entropy, wordlist, wordlist[j]) < WordEntropy(entropy, wordlist, g.value))
    {
      if wordlist == [] {
        return None;
      }
      var es := Entropies(entropy);
      var idx := FirstBest(es);
      g := Some(wordlist[idx]);
      FirstBestEntropy(entropy, wordlist, es, idx);
    }

    /** `narrow_words`: the pool becomes the old pool's words that pass the
        filter of the feedback, in order. */
    method NarrowWords(guessResult: StringMatch)
      modifies this
      ensures wordlist == Narrow(old(wordlist), guessResult)
    {
      wordlist := Narrow(wordlist, guessResult);
    }
  }
}
