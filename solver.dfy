/** Letter statistics of a word pool (`count_letter` in src/solver/mod.rs, and
    its copy in src/solver/positional.rs) and the narrowing step shared by the
    solvers. A `HashSet` pool is a sequence in iteration order; counts are
    unbounded naturals and frequencies exact reals. */
module Solver {
  import opened Collections
  import opened Types
  import opened Wordle
  import opened Filters

  /** Per-position frequency maps, one per position up to the longest word. */
  type PosLetterFreq = seq<map<char, real>>

  function Max(a: nat, b: nat): nat
  {
    if a >= b then a else b
  }

  /** `max_size`: the longest word length, 0 for an empty pool. */
  function MaxSize(words: seq<string>): (r: nat)
    ensures forall w :: w in words ==> |w| <= r
    ensures words == [] ==> r == 0
    ensures words != [] ==> exists k :: 0 <= k < |words| && |words[k]| == r
  {
    if words == [] then 0
    else
      var init := words[..|words| - 1];
      assert forall w :: w in init ==> w in words;
      Max(MaxSize(init), |words[|words| - 1]|)
  }

  /** The letters at position `i` of the words long enough to have one, in pool order. */
  function Column(words: seq<string>, i: nat): (r: seq<char>)
    ensures forall c :: c in r <==> exists k :: 0 <= k < |words| && i < |words[k]| && words[k][i] == c
  {
    if words == [] then []
    else
      var init, last := words[..|words| - 1], words[|words| - 1];
      assert forall k :: 0 <= k < |init| ==> init[k] == words[k];
      Column(init, i) + (if i < |last| then [last[i]] else [])
  }

  /** Every letter of every word, in pool order (all positions are below `max_size`). */
  function Flatten(words: seq<string>): (r: seq<char>)
  {
    if words == [] then [] else Flatten(words[..|words| - 1]) + words[|words| - 1]
  }

  /** `pos_count`: for each position, how often each letter occurs there. */
  function PosCounts(words: seq<string>): seq<map<char, nat>>
  {
    seq(MaxSize(words), i requires 0 <= i < MaxSize(words) => Tally(Column(words, i)))
  }

  /** `tot_count`: how often each letter occurs anywhere. */
  function TotCounts(words: seq<string>): map<char, nat>
  {
    Tally(Flatten(words))
  }

  /** The conversion of counts to frequencies: weight 1.0 on the positional
      share and 0.1 on the overall share. */
  function ToFrequencies(posCount: seq<map<char, nat>>, totCount: map<char, nat>, n: nat, maxSize: nat): (f: PosLetterFreq)
    requires |posCount| == maxSize && (maxSize > 0 ==> n > 0)
    ensures |f| == maxSize
    ensures forall i :: 0 <= i < maxSize ==> f[i].Keys == posCount[i].Keys
  {
    seq(maxSize, i requires 0 <= i < maxSize =>
      map c | c in posCount[i] :: Frequency(posCount[i][c], Get(totCount, c), n, maxSize))
  }

  /** `pos_freq * pos_weight + total_freq * tot_weight` for one letter. */
  function Frequency(pos: nat, tot: nat, n: nat, maxSize: nat): real
    requires n > 0 && maxSize > 0
  {
    (pos as real / n as real) * 1.0 + (tot as real / (n as real * maxSize as real)) * 0.1
  }

  /** The value `count_letter` computes for a pool. */
  function LetterFreq(words: seq<string>): PosLetterFreq
  {
    ToFrequencies(PosCounts(words), TotCounts(words), |words|, MaxSize(words))
  }

  lemma ColumnSnoc(words: seq<string>, w: string, i: nat)
    ensures Column(words + [w], i) == Column(words, i) + (if i < |w| then [w[i]] else [])
  {
    assert (words + [w])[..|words|] == words;
  }

  lemma FlattenSnoc(words: seq<string>, w: string)
    ensures Flatten(words + [w]) == Flatten(words) + w
  {
    assert (words + [w])[..|words|] == words;
  }

  /** `count_letter`: the letters are tallied by position and overall, then
      the counts are turned into frequencies. */
  method CountLetter(words: seq<string>) returns (freq: PosLetterFreq)
    ensures freq == LetterFreq(words)
  {
    var posCount, totCount := TallyLetters(words);
    freq := ToFrequencies(posCount, totCount, |words|, MaxSize(words));
  }

  /** The position tallies of a pool, for `maxSize` positions. */
  function PosTallies(words: seq<string>, maxSize: nat): seq<map<char, nat>>
  {
    seq(maxSize, i requires 0 <= i < maxSize => Tally(Column(words, i)))
  }

  /** The nested loops of `count_letter`, which bump `pos_count` and `tot_count` in place. */
  method TallyLetters(words: seq<string>) returns (posCount: seq<map<char, nat>>, totCount: map<char, nat>)
    ensures posCount == PosCounts(words) && totCount == TotCounts(words)
  {
    var maxSize := MaxSize(words);
    posCount := seq(maxSize, _ => map[]);
    totCount := map[];
    assert words[..0] == [];
    assert posCount == PosTallies(words[..0], maxSize);
    for k := 0 to |words|
      invariant posCount == PosTallies(words[..k], maxSize)
      invariant totCount == Tally(Flatten(words[..k]))
    {
      assert words[k] in words;
      posCount, totCount := CountWordAt(words, k, posCount, totCount);
    }
    assert words[..|words|] == words;
  }

  /** One round of the outer loop: the `k`-th word is counted. */
  method CountWordAt(words: seq<string>, k: nat, posCount0: seq<map<char, nat>>, totCount0: map<char, nat>)
    returns (posCount: seq<map<char, nat>>, totCount: map<char, nat>)
    requires k < |words| && |words[k]| <= |posCount0|
    requires posCount0 == PosTallies(words[..k], |posCount0|)
    requires totCount0 == Tally(Flatten(words[..k]))
    ensures posCount == PosTallies(words[..k + 1], |posCount0|)
    ensures totCount == Tally(Flatten(words[..k + 1]))
  {
    posCount, totCount := CountWord(posCount0, totCount0, Flatten(words[..k]), words[k]);
    TallyAfterWord(words, k, posCount0, posCount);
    FlattenStep(words, k);
  }

  lemma FlattenStep(words: seq<string>, k: nat)
    requires k < |words|
    ensures Flatten(words[..k + 1]) == Flatten(words[..k]) + words[k]
  {
    assert words[..k + 1] == words[..k] + [words[k]];
    FlattenSnoc(words[..k], words[k]);
  }

  /** What `CountWord` does to the position maps is tallying one more word. */
  lemma TallyAfterWord(words: seq<string>, k: nat, posCount0: seq<map<char, nat>>, posCount: seq<map<char, nat>>)
    requires k < |words| && |words[k]| <= |posCount0| == |posCount|
    requires posCount0 == PosTallies(words[..k], |posCount0|)
    requires forall i :: 0 <= i < |posCount0| ==>
      posCount[i] == if i < |words[k]| then Bump(posCount0[i], words[k][i]) else posCount0[i]
    ensures posCount == PosTallies(words[..k + 1], |posCount|)
  {
    var before, word := words[..k], words[k];
    assert words[..k + 1] == before + [word];
    forall i | 0 <= i < |posCount|
      ensures posCount[i] == Tally(Column(before + [word], i))
    {
      ColumnSnoc(before, word, i);
      if i < |word| {
        TallySnoc(Column(before, i), word[i]);
      } else {
        assert Column(before, i) + [] == Column(before, i);
      }
    }
  }

  /** Counting one more letter of the word. */
  lemma TallyPrefixStep(flat: seq<char>, word: string, j: nat)
    requires j < |word|
    ensures Tally(flat + word[..j + 1]) == Bump(Tally(flat + word[..j]), word[j])
  {
    assert flat + word[..j + 1] == flat + word[..j] + [word[j]];
    TallySnoc(flat + word[..j], word[j]);
  }

  /** Bumping position `j` extends the bumped prefix by one position. */
  lemma PosCountStep(posCount0: seq<map<char, nat>>, word: string, j: nat,
                     prev: seq<map<char, nat>>, next: seq<map<char, nat>>)
    requires j < |word| <= |posCount0| == |prev|
    requires forall i :: 0 <= i < |prev| ==>
      prev[i] == if i < j then Bump(posCount0[i], word[i]) else posCount0[i]
    requires next == prev[j := Bump(prev[j], word[j])]
    ensures |next| == |posCount0|
    ensures forall i :: 0 <= i < |next| ==>
      next[i] == if i < j + 1 then Bump(posCount0[i], word[i]) else posCount0[i]
  {
  }

  /** The inner loop: the letters of one word, zipped with the position maps,
      bump their position's count and the overall count. */
  method CountWord(posCount0: seq<map<char, nat>>, totCount0: map<char, nat>, ghost flat: seq<char>, word: string)
    returns (posCount: seq<map<char, nat>>, totCount: map<char, nat>)
    requires |word| <= |posCount0|
    requires totCount0 == Tally(flat)
    ensures |posCount| == |posCount0|
    ensures forall i :: 0 <= i < |posCount0| ==>
      posCount[i] == if i < |word| then Bump(posCount0[i], word[i]) else posCount0[i]
    ensures totCount == Tally(flat + word)
  {
    posCount, totCount := posCount0, totCount0;
    assert flat + word[..0] == flat;
    for j := 0 to |word|
      invariant |posCount| == |posCount0|
      invariant forall i :: 0 <= i < |posCount| ==>
        posCount[i] == if i < j then Bump(posCount0[i], word[i]) else posCount0[i]
      invariant totCount == Tally(flat + word[..j])
    {
      var c := word[j];
      TallyPrefixStep(flat, word, j);
      totCount := Bump(totCount, c);
      ghost var prev := posCount;
      posCount := posCount[j := Bump(posCount[j], c)];
      PosCountStep(posCount0, word, j, prev, posCount);
    }
    assert word[..|word|] == word;
  }

  /** One frequency map per position up to the longest word. */
  lemma FreqShape(words: seq<string>)
    ensures |LetterFreq(words)| == MaxSize(words)
  {
  }

  /** Map `i` holds a letter exactly when some word has that letter at position `i`. */
  lemma FreqKeys(words: seq<string>, i: nat, c: char)
    requires i < MaxSize(words)
    ensures c in LetterFreq(words)[i] <==> exists k :: 0 <= k < |words| && i < |words[k]| && words[k][i] == c
  {
    TallyMeaning(Column(words, i));
    assert LetterFreq(words)[i].Keys == Tally(Column(words, i)).Keys;
  }

  /** Words with letter `c` at position `i`: the quantity `pos_count[i][c]` counts. */
  function HasAt(i: nat, c: char): string -> bool
  {
    w => i < |w| && w[i] == c
  }

  /** Words with a position `i`. */
  function LongerThan(i: nat): string -> bool
  {
    w => i < |w|
  }

  /** The positional count of `c` at `i` is the number of words with `c` there. */
  lemma {:induction false} ColumnCount(words: seq<string>, i: nat, c: char)
    ensures multiset(Column(words, i))[c] == |Filter(HasAt(i, c), words)|
  {
    if words != [] {
      var init, last := words[..|words| - 1], words[|words| - 1];
      assert words == init + [last];
      ColumnCount(init, i, c);
      FilterConcat(HasAt(i, c), init, [last]);
      assert [last][1..] == [];
    }
  }

  /** The counts at position `i` add up to the number of words longer than `i`. */
  lemma {:induction false} ColumnSize(words: seq<string>, i: nat)
    ensures |Column(words, i)| == |Filter(LongerThan(i), words)|
    ensures Total(Tally(Column(words, i))) == |Filter(LongerThan(i), words)|
  {
    if words != [] {
      var init, last := words[..|words| - 1], words[|words| - 1];
      assert words == init + [last];
      ColumnSize(init, i);
      FilterConcat(LongerThan(i), init, [last]);
      assert [last][1..] == [];
    }
    TotalTally(Column(words, i));
  }

  /** The frequency of `c` at `i`: the share of words with `c` there, plus a
      tenth of the share of all letters of the pool that are `c`. */
  lemma FreqValue(words: seq<string>, i: nat, c: char)
    requires i < MaxSize(words) && c in LetterFreq(words)[i]
    ensures |words| > 0
    ensures LetterFreq(words)[i][c] ==
      Frequency(|Filter(HasAt(i, c), words)|, multiset(Flatten(words))[c], |words|, MaxSize(words))
  {
    var col, flat := Column(words, i), Flatten(words);
    FreqKeys(words, i, c);
    var k :| 0 <= k < |words| && i < |words[k]| && words[k][i] == c;
    FlattenHas(words, k, i);
    TallyMeaning(col);
    TallyMeaning(flat);
    ColumnCount(words, i, c);
    assert PosCounts(words)[i][c] == |Filter(HasAt(i, c), words)|;
    assert Get(TotCounts(words), c) == multiset(flat)[c];
  }

  lemma {:induction false} FlattenHas(words: seq<string>, k: nat, i: nat)
    requires k < |words| && i < |words[k]|
    ensures words[k][i] in Flatten(words)
  {
    var init := words[..|words| - 1];
    if k < |words| - 1 {
      FlattenHas(init, k, i);
    }
  }

  /** Every frequency is positive: a letter only gets a key by occurring. */
  lemma FreqPositive(words: seq<string>, i: nat, c: char)
    requires i < MaxSize(words) && c in LetterFreq(words)[i]
    ensures LetterFreq(words)[i][c] > 0.0
  {
    var p := PosCounts(words)[i];
    TallyMeaning(Column(words, i));
    assert c in p && p[c] >= 1;
    FrequencyPositive(p[c], Get(TotCounts(words), c), |words|, MaxSize(words));
  }

  lemma FrequencyPositive(pos: nat, tot: nat, n: nat, maxSize: nat)
    requires n > 0 && maxSize > 0 && pos >= 1
    ensures Frequency(pos, tot, n, maxSize) > 0.0
  {
    assert pos as real / n as real > 0.0;
    assert tot as real / (n as real * maxSize as real) >= 0.0;
  }

  /** `narrow_words` and the auto-player's narrowing: the pool words that pass
      the filter of one piece of feedback, in pool order. */
  function Narrow(words: seq<string>, ms: StringMatch): (r: seq<string>)
    ensures forall w {:trigger w in r} :: w in r <==> w in words && IsViableWord(w, DetermineFilter(ms))
    ensures |r| <= |words|
  {
    Filter(Viable(ms), words)
  }

  /** Narrowing twice with the same feedback is narrowing once. */
  lemma NarrowIdempotent(words: seq<string>, ms: StringMatch)
    ensures Narrow(Narrow(words, ms), ms) == Narrow(words, ms)
  {
    FilterIdempotent(Viable(ms), words);
  }

  /** The judge's feedback never removes the target (of length 5) from the pool. */
  lemma NarrowKeepsTarget(words: seq<string>, target: string, guess: string)
    requires target in words && |target| == 5
    ensures target in Narrow(words, MatchWord(target, guess))
  {
    TargetSurvives(target, guess);
  }

  /** A wrong guess from the pool is removed by its own feedback, so the pool shrinks. */
  lemma NarrowDropsWrongGuess(words: seq<string>, target: string, guess: string)
    requires guess in words && guess != target && |target| == 5
    ensures guess !in Narrow(words, MatchWord(target, guess))
    ensures |Narrow(words, MatchWord(target, guess))| < |words|
  {
    GuessViableIff(target, guess);
    FilterDropsRejected(Viable(MatchWord(target, guess)), words, guess);
  }
}
