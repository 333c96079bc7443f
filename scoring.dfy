/** Word scoring against per-position letter frequencies (`score_word` in
    src/solver/scoring.rs and its copy in src/solver/positional.rs). The
    `HashMap` of best scores is summed in the order its letters were first
    entered; over exact reals any order gives the same sum. */
module Scoring {
  import opened Collections

  /** A letter with the score of its position. */
  type Scored = (char, real)

  /** `*local_letter_freq.get(&c).unwrap_or(&0.0)`. */
  function Lookup(m: map<char, real>, c: char): real
  {
    if c in m then m[c] else 0.0
  }

  /** `char_scores`: the word zipped with the frequency maps, each letter with
      its score there (0.0 for a letter the map lacks). */
  function PositionScores(word: string, freq: seq<map<char, real>>): (r: seq<Scored>)
    ensures |r| == Min(|word|, |freq|)
    ensures forall i :: 0 <= i < |r| ==> r[i].0 == word[i] && r[i].1 == Lookup(freq[i], word[i])
    ensures forall i :: 0 <= i < |r| && word[i] !in freq[i] ==> r[i].1 == 0.0
  {
    seq(Min(|word|, |freq|), i requires 0 <= i < Min(|word|, |freq|) => (word[i], Lookup(freq[i], word[i])))
  }

  /** `f32::max`. */
  function RMax(a: real, b: real): real
  {
    if a >= b then a else b
  }

  /** The entry of `letter_map` for letter `c`: 0.0 to start with, raised to
      each score of `c` in turn. */
  function BestScore(cs: seq<Scored>, c: char): (r: real)
    ensures r >= 0.0
    ensures forall i :: 0 <= i < |cs| && cs[i].0 == c ==> cs[i].1 <= r
    ensures r == 0.0 || exists i :: 0 <= i < |cs| && cs[i].0 == c && cs[i].1 == r
  {
    if cs == [] then 0.0
    else
      var init, x := cs[..|cs| - 1], cs[|cs| - 1];
      assert forall i :: 0 <= i < |init| ==> init[i] == cs[i];
      if x.0 == c then RMax(x.1, BestScore(init, c)) else BestScore(init, c)
  }

  /** The keys of `letter_map`, in the order they were first entered. */
  function Letters(cs: seq<Scored>): (r: seq<char>)
    ensures forall c :: c in r <==> exists i :: 0 <= i < |cs| && cs[i].0 == c
    ensures forall i, j :: 0 <= i < j < |r| ==> r[i] != r[j]
  {
    if cs == [] then []
    else
      var init, x := cs[..|cs| - 1], cs[|cs| - 1];
      assert forall i :: 0 <= i < |init| ==> init[i] == cs[i];
      var ls := Letters(init);
      if x.0 in ls then ls else ls + [x.0]
  }

  /** The best scores of the letters `ks`, added up. */
  function SumBest(cs: seq<Scored>, ks: seq<char>): real
  {
    if ks == [] then 0.0 else SumBest(cs, ks[..|ks| - 1]) + BestScore(cs, ks[|ks| - 1])
  }

  /** The value `score_word` computes: over the distinct letters of the zipped
      part of the word, the best score each one reaches, summed. */
  function WordScore(word: string, freq: seq<map<char, real>>): real
  {
    var cs := PositionScores(word, freq);
    SumBest(cs, Letters(cs))
  }

  /** The first loop of `score_word`: each scored letter raises its entry of
      `letter_map`; `keys` records the order in which entries were created. */
  method BestScores(cs: seq<Scored>) returns (letterMap: map<char, real>, keys: seq<char>)
    ensures keys == Letters(cs)
    ensures forall c :: c in letterMap <==> c in keys
    ensures forall c :: c in letterMap ==> letterMap[c] == BestScore(cs, c)
  {
    letterMap := map[];
    keys := [];
    for k := 0 to |cs|
      invariant keys == Letters(cs[..k])
      invariant forall c :: c in letterMap <==> c in keys
      invariant forall c :: c in letterMap ==> letterMap[c] == BestScore(cs[..k], c)
    {
      var (c, s) := cs[k];
      assert cs[..k + 1][..k] == cs[..k];
      var current := if c in letterMap then letterMap[c] else 0.0;
      letterMap := letterMap[c := RMax(s, current)];
      if c !in keys {
        keys := keys + [c];
      }
    }
    assert cs[..|cs|] == cs;
  }

  /** The second loop of `score_word`: the entries of `letter_map` added up. */
  method SumEntries(cs: seq<Scored>, letterMap: map<char, real>, keys: seq<char>) returns (score: real)
    requires forall c :: c in keys ==> c in letterMap && letterMap[c] == BestScore(cs, c)
    ensures score == SumBest(cs, keys)
  {
    score := 0.0;
    for k := 0 to |keys|
      invariant score == SumBest(cs, keys[..k])
    {
      assert keys[..k + 1][..k] == keys[..k];
      score := score + letterMap[keys[k]];
    }
    assert keys[..|keys|] == keys;
  }

  /** `score_word`: a max-update of `letter_map` per scored letter, then the sum
      of its values. */
  method ScoreWord(word: string, freq: seq<map<char, real>>) returns (score: real)
    ensures score == WordScore(word, freq)
  {
    var charScores := PositionScores(word, freq);
    var letterMap, keys := BestScores(charScores);
    score := SumEntries(charScores, letterMap, keys);
  }

  lemma {:induction false} SumBestNonNegative(cs: seq<Scored>, ks: seq<char>)
    ensures SumBest(cs, ks) >= 0.0
  {
    if ks != [] {
      SumBestNonNegative(cs, ks[..|ks| - 1]);
    }
  }

  /** Every entry starts at 0.0 and only grows, so no score is negative. */
  lemma ScoreNonNegative(word: string, freq: seq<map<char, real>>)
    ensures WordScore(word, freq) >= 0.0
  {
    var cs := PositionScores(word, freq);
    SumBestNonNegative(cs, Letters(cs));
  }

  /** Letters past the last frequency map (and maps past the end of the word)
      play no part. */
  lemma OnlyZippedPositions(word: string, freq: seq<map<char, real>>)
    ensures WordScore(word, freq) == WordScore(word[..Min(|word|, |freq|)], freq)
    ensures WordScore(word, freq) == WordScore(word, freq[..Min(|word|, |freq|)])
  {
    var n := Min(|word|, |freq|);
    assert PositionScores(word, freq) == PositionScores(word[..n], freq);
    assert PositionScores(word, freq) == PositionScores(word, freq[..n]);
  }

  /** The plain sum of the positional scores. */
  function SumScores(cs: seq<Scored>): real
  {
    if cs == [] then 0.0 else SumScores(cs[..|cs| - 1]) + cs[|cs| - 1].1
  }

  /** Distinct letters keep every later letter out of the best scores of the earlier ones. */
  lemma {:induction false} SumBestFrame(cs: seq<Scored>, x: Scored, ks: seq<char>)
    requires x.0 !in ks
    ensures SumBest(cs + [x], ks) == SumBest(cs, ks)
  {
    assert (cs + [x])[..|cs|] == cs;
    if ks != [] {
      SumBestFrame(cs, x, ks[..|ks| - 1]);
    }
  }

  /** A letter not seen before becomes a new last key, with its own score. */
  lemma NewLetter(init: seq<Scored>, x: Scored)
    requires forall i :: 0 <= i < |init| ==> init[i].0 != x.0
    requires x.1 >= 0.0
    ensures Letters(init + [x]) == Letters(init) + [x.0]
    ensures BestScore(init + [x], x.0) == x.1
  {
    var cs := init + [x];
    assert cs[..|cs| - 1] == init;
    assert x.0 !in Letters(init);
    assert BestScore(init, x.0) == 0.0;
  }

  /** The conditions of `DistinctLettersSum` hold for all but the last
      letter, and the last letter is new. */
  lemma DistinctInit(init: seq<Scored>, x: Scored)
    requires forall i, j :: 0 <= i < j < |init + [x]| ==> (init + [x])[i].0 != (init + [x])[j].0
    requires forall i :: 0 <= i < |init + [x]| ==> (init + [x])[i].1 >= 0.0
    ensures forall i, j :: 0 <= i < j < |init| ==> init[i].0 != init[j].0
    ensures forall i :: 0 <= i < |init| ==> init[i].1 >= 0.0
    ensures forall i :: 0 <= i < |init| ==> init[i].0 != x.0
    ensures x.1 >= 0.0
  {
    var cs := init + [x];
    assert forall i :: 0 <= i < |init| ==> cs[i] == init[i];
    assert cs[|init|] == x;
  }

  /** Adding a key adds its best score. */
  lemma SumBestSnoc(cs: seq<Scored>, ks: seq<char>, c: char)
    ensures SumBest(cs, ks + [c]) == SumBest(cs, ks) + BestScore(cs, c)
  {
    assert (ks + [c])[..|ks|] == ks;
  }

  /** For a word without repeated letters and non-negative frequencies the
      score is the plain sum of the positional scores. */
  lemma {:induction false} DistinctLettersSum(cs: seq<Scored>)
    requires forall i, j :: 0 <= i < j < |cs| ==> cs[i].0 != cs[j].0
    requires forall i :: 0 <= i < |cs| ==> cs[i].1 >= 0.0
    ensures SumBest(cs, Letters(cs)) == SumScores(cs)
  {
    if cs != [] {
      var init, x := cs[..|cs| - 1], cs[|cs| - 1];
      assert cs == init + [x];
      DistinctInit(init, x);
      DistinctLettersSum(init);
      var ls := Letters(init);
      NewLetter(init, x);
      SumBestSnoc(cs, ls, x.0);
      SumBestFrame(init, x, ls);
    }
  }

  /** Hence, for such a word, `score_word` adds up its letters' frequencies. */
  lemma DistinctWordScore(word: string, freq: seq<map<char, real>>)
    requires forall i, j :: 0 <= i < j < |word| ==> word[i] != word[j]
    requires forall i, c :: 0 <= i < |freq| && c in freq[i] ==> freq[i][c] >= 0.0
    ensures WordScore(word, freq) == SumScores(PositionScores(word, freq))
  {
    DistinctLettersSum(PositionScores(word, freq));
  }

  /** A repeated letter counts once, at its best position: "aa" against the
      frequencies a:1.0 then a:2.0 scores 2.0, not 3.0. */
  lemma RepeatedLetterCountsOnce()
    ensures WordScore("aa", [map['a' := 1.0], map['a' := 2.0]]) == 2.0
  {
    var cs := PositionScores("aa", [map['a' := 1.0], map['a' := 2.0]]);
    assert cs == [('a', 1.0), ('a', 2.0)];
    assert cs[..1] == [('a', 1.0)];
    assert Letters(cs) == ['a'];
    assert BestScore(cs, 'a') == 2.0;
  }
}
