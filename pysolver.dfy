/** The Python prototype of the frequency solver (solver.py): letter
    frequencies with add-one smoothing, word scores, the sorted score list, and
    the keyword-argument word filter. A Python exception (`ValueError` from
    `max` of an empty list, `KeyError` for a letter outside `a`..`z`,
    `IndexError` past the last frequency map) is the `None` result. */
module PySolver {
  import opened Collections
  import opened Wrappers
  import opened Solver
  import opened Scoring
  import Filters

  /** `string.ascii_lowercase`. */
  const AsciiLowercase: string := "abcdefghijklmnopqrstuvwxyz"

  /** Every letter of every word is a key of the count dictionaries. */
  predicate AllLower(words: seq<string>)
  {
    forall k, i :: 0 <= k < |words| && 0 <= i < |words[k]| ==> words[k][i] in AsciiLowercase
  }

  /** `1*tot_count[letter]/(tot_num*max_size) + 3*(pos[letter]/tot_num)`. */
  function PyFrequency(pos: nat, tot: nat, n: nat, maxSize: nat): real
    requires n > 0 && maxSize > 0
  {
    1.0 * (tot as real / (n as real * maxSize as real)) + 3.0 * (pos as real / n as real)
  }

  /** The comprehension that builds `final_count`: one dictionary per position,
      keyed by all 26 letters; the overall counts start at 1. */
  function PyToFrequencies(posCount: seq<map<char, nat>>, totCount: map<char, nat>, n: nat, maxSize: nat)
    : seq<map<char, real>>
    requires |posCount| == maxSize && (maxSize > 0 ==> n > 0)
  {
    seq(maxSize, i requires 0 <= i < maxSize =>
      map l | l in AsciiLowercase :: PyFrequency(Get(posCount[i], l), 1 + Get(totCount, l), n, maxSize))
  }

  /** The value `count_letters` returns for a list it accepts. */
  function PyLetterCount(words: seq<string>): seq<map<char, real>>
  {
    PyToFrequencies(PosCounts(words), TotCounts(words), |words|, MaxSize(words))
  }

  /** `count_letters`: it fails on an empty list and on a letter outside
      `a`..`z`; otherwise it counts each letter by position and overall and
      turns the counts into frequencies. */
  method CountLetters(words: seq<string>) returns (r: Option<seq<map<char, real>>>)
    ensures r.None? <==> words == [] || !AllLower(words)
    ensures r.Some? ==> r.value == PyLetterCount(words)
  {
    if words == [] || !AllLower(words) {
      return None;
    }
    var posCount, totCount := TallyLetters(words);
    r := Some(PyToFrequencies(posCount, totCount, |words|, MaxSize(words)));
  }

  /** One dictionary per position up to the longest word, each keyed by
      exactly the 26 lowercase letters. */
  lemma CountShape(words: seq<string>)
    ensures |PyLetterCount(words)| == MaxSize(words)
    ensures forall i :: 0 <= i < MaxSize(words) ==>
      forall l :: l in PyLetterCount(words)[i] <==> l in AsciiLowercase
  {
  }

  /** The count of `l` in `ks` as the recursive tally records it, 0 when absent. */
  lemma TallyGet(ks: seq<char>, l: char)
    ensures Get(Tally(ks), l) == multiset(ks)[l]
  {
    TallyMeaning(ks);
  }

  /** One entry of the frequency table, read off the counts. */
  lemma FrequencyEntry(posCount: seq<map<char, nat>>, totCount: map<char, nat>, n: nat, maxSize: nat, i: nat, l: char)
    requires |posCount| == maxSize && (maxSize > 0 ==> n > 0)
    requires i < maxSize && l in AsciiLowercase
    ensures l in PyToFrequencies(posCount, totCount, n, maxSize)[i]
    ensures PyToFrequencies(posCount, totCount, n, maxSize)[i][l] ==
      PyFrequency(Get(posCount[i], l), 1 + Get(totCount, l), n, maxSize)
  {
  }

  /** The frequency of `l` at `i`: the overall count is one more than the
      number of occurrences of `l` in the list (smoothing), and the positional
      count is the number of words with `l` at `i`. */
  lemma CountValue(words: seq<string>, i: nat, l: char)
    requires i < MaxSize(words) && l in AsciiLowercase
    ensures |words| > 0
    ensures PyLetterCount(words)[i][l] ==
      PyFrequency(|Filter(HasAt(i, l), words)|, 1 + multiset(Flatten(words))[l], |words|, MaxSize(words))
  {
    var pc, tc := PosCounts(words), TotCounts(words);
    FrequencyEntry(pc, tc, |words|, MaxSize(words), i, l);
    TallyGet(Column(words, i), l);
    TallyGet(Flatten(words), l);
    ColumnCount(words, i, l);
    assert Get(pc[i], l) == |Filter(HasAt(i, l), words)|;
    assert Get(tc, l) == multiset(Flatten(words))[l];
  }

  /** Smoothing makes every frequency positive, even for a letter never seen. */
  lemma CountPositive(words: seq<string>, i: nat, l: char)
    requires i < MaxSize(words) && l in AsciiLowercase
    ensures PyLetterCount(words)[i][l] > 0.0
  {
    var n, m := |words|, MaxSize(words);
    var pc, tc := PosCounts(words), TotCounts(words);
    FrequencyEntry(pc, tc, n, m, i, l);
    PyFrequencyPositive(Get(pc[i], l), 1 + Get(tc, l), n, m);
  }

  lemma PyFrequencyPositive(pos: nat, tot: nat, n: nat, maxSize: nat)
    requires n > 0 && maxSize > 0 && tot >= 1
    ensures PyFrequency(pos, tot, n, maxSize) > 0.0
  {
    assert n as real * maxSize as real > 0.0;
    assert tot as real / (n as real * maxSize as real) > 0.0;
    assert pos as real / n as real >= 0.0;
  }

  /** `score_word` finds a frequency for every letter of `word`: one map per
      letter, each holding that letter. */
  predicate Scorable(word: string, lc: seq<map<char, real>>)
  {
    |word| <= |lc| && forall i :: 0 <= i < |word| ==> word[i] in lc[i]
  }

  /** `score_word`: it fails when a letter has no frequency; otherwise the sum
      over the word's distinct letters of the best score each reaches, which is
      the same sum as the Rust `score_word`. */
  method ScoreWord(word: string, lc: seq<map<char, real>>) returns (r: Option<real>)
    ensures r.None? <==> !Scorable(word, lc)
    ensures r.Some? ==> r.value == WordScore(word, lc) && r.value >= 0.0
  {
    if !Scorable(word, lc) {
      return None;
    }
    var score := Scoring.ScoreWord(word, lc);
    ScoreNonNegative(word, lc);
    r := Some(score);
  }

  /** Every word of a list `count_letters` accepts can be scored against its
      frequencies, so `score_wordlist` on the same list never fails. */
  lemma CountedWordsScorable(words: seq<string>, k: nat)
    requires words != [] && AllLower(words) && k < |words|
    ensures Scorable(words[k], PyLetterCount(words))
  {
    assert words[k] in words;
  }

  /** A score with its word, as the tuple `(score, word)`. */
  type Pair = (real, string)

  /** The list `score_words` builds: each word with its score, in list order. */
  function ScoredPairs(words: seq<string>, lc: seq<map<char, real>>): (r: seq<Pair>)
    ensures |r| == |words|
  {
    seq(|words|, k requires 0 <= k < |words| => (WordScore(words[k], lc), words[k]))
  }

  /** `score_words` (and the comprehension of `score_wordlist`): it fails
      exactly when some word cannot be scored. */
  method ScoreWords(words: seq<string>, lc: seq<map<char, real>>) returns (r: Option<seq<Pair>>)
    ensures r.None? <==> exists k :: 0 <= k < |words| && !Scorable(words[k], lc)
    ensures r.Some? ==> r.value == ScoredPairs(words, lc)
  {
    if exists k :: 0 <= k < |words| && !Scorable(words[k], lc) {
      return None;
    }
    var pairs: seq<Pair> := [];
    for k := 0 to |words|
      invariant |pairs| == k
      invariant forall j {:trigger pairs[j]} :: 0 <= j < k ==> pairs[j] == (WordScore(words[j], lc), words[j])
    {
      var s := ScoreWord(words[k], lc);
      pairs := pairs + [(s.value, words[k])];
    }
    forall j | 0 <= j < |words|
      ensures pairs[j] == ScoredPairs(words, lc)[j]
    {
      assert pairs[j] == (WordScore(words[j], lc), words[j]);
    }
    r := Some(pairs);
  }

  /** Python's `<=` on strings: code point by code point, a prefix first. */
  predicate StrLe(a: string, b: string)
  {
    if a == [] then true
    else if b == [] then false
    else if a[0] != b[0] then a[0] < b[0]
    else StrLe(a[1..], b[1..])
  }

  /** Python's `<=` on `(score, word)` tuples: by score, then by word. */
  predicate PairLe(p: Pair, q: Pair)
  {
    p.0 < q.0 || (p.0 == q.0 && StrLe(p.1, q.1))
  }

  lemma {:induction false} StrLeTotal(a: string, b: string)
    ensures StrLe(a, b) || StrLe(b, a)
  {
    if a != [] && b != [] && a[0] == b[0] {
      StrLeTotal(a[1..], b[1..]);
    }
  }

  lemma {:induction false} StrLeAntisymmetric(a: string, b: string)
    requires StrLe(a, b) && StrLe(b, a)
    ensures a == b
  {
    if a != [] && b != [] {
      StrLeAntisymmetric(a[1..], b[1..]);
      assert a == [a[0]] + a[1..] && b == [b[0]] + b[1..];
    }
  }

  lemma {:induction false} StrLeTransitive(a: string, b: string, c: string)
    requires StrLe(a, b) && StrLe(b, c)
    ensures StrLe(a, c)
  {
    if a != [] && b != [] && c != [] && a[0] == b[0] && b[0] == c[0] {
      StrLeTransitive(a[1..], b[1..], c[1..]);
    }
  }

  lemma PairLeTotal(p: Pair, q: Pair)
    ensures PairLe(p, q) || PairLe(q, p)
  {
    StrLeTotal(p.1, q.1);
  }

  lemma PairLeAntisymmetric(p: Pair, q: Pair)
    requires PairLe(p, q) && PairLe(q, p)
    ensures p == q
  {
    StrLeAntisymmetric(p.1, q.1);
  }

  lemma PairLeTransitive(p: Pair, q: Pair, r: Pair)
    requires PairLe(p, q) && PairLe(q, r)
    ensures PairLe(p, r)
  {
    if p.0 == q.0 && q.0 == r.0 {
      StrLeTransitive(p.1, q.1, r.1);
    }
  }

  predicate IsSorted(s: seq<Pair>)
  {
    forall i, j :: 0 <= i < j < |s| ==> PairLe(s[i], s[j])
  }

  /** `x` placed before the first element it does not exceed. */
  function Insert(x: Pair, s: seq<Pair>): seq<Pair>
  {
    if s == [] then [x]
    else if PairLe(x, s[0]) then [x] + s
    else [s[0]] + Insert(x, s[1..])
  }

  /** `sorted`, as an insertion sort; `SortedUnique` shows it is the only
      ascending arrangement of its input, so it agrees with any sort. */
  function Sort(s: seq<Pair>): seq<Pair>
  {
    if s == [] then [] else Insert(s[0], Sort(s[1..]))
  }

  lemma TailSorted(s: seq<Pair>)
    requires IsSorted(s) && s != []
    ensures IsSorted(s[1..])
  {
    forall i, j | 0 <= i < j < |s[1..]|
      ensures PairLe(s[1..][i], s[1..][j])
    {
      assert s[1..][i] == s[i + 1] && s[1..][j] == s[j + 1];
    }
  }

  /** A sorted sequence with a head below all of it stays sorted. */
  lemma ConsSorted(x: Pair, t: seq<Pair>)
    requires IsSorted(t)
    requires forall k :: 0 <= k < |t| ==> PairLe(x, t[k])
    ensures IsSorted([x] + t)
  {
    var u := [x] + t;
    forall i, j | 0 <= i < j < |u|
      ensures PairLe(u[i], u[j])
    {
      assert u[j] == t[j - 1];
      if i > 0 {
        assert u[i] == t[i - 1];
      }
    }
  }

  /** An element below the head of a sorted sequence is below all of it. */
  lemma BelowHead(x: Pair, s: seq<Pair>)
    requires IsSorted(s) && s != [] && PairLe(x, s[0])
    ensures forall k :: 0 <= k < |s| ==> PairLe(x, s[k])
  {
    forall k | 0 < k < |s|
      ensures PairLe(x, s[k])
    {
      PairLeTransitive(x, s[0], s[k]);
    }
  }

  lemma {:induction false} InsertSorted(x: Pair, s: seq<Pair>)
    requires IsSorted(s)
    ensures IsSorted(Insert(x, s))
    ensures multiset(Insert(x, s)) == multiset(s) + multiset{x}
  {
    if s == [] {
    } else if PairLe(x, s[0]) {
      BelowHead(x, s);
      ConsSorted(x, s);
    } else {
      var h, t := s[0], Insert(x, s[1..]);
      TailSorted(s);
      InsertSorted(x, s[1..]);
      PairLeTotal(x, h);
      assert s == [h] + s[1..];
      forall k | 0 <= k < |t|
        ensures PairLe(h, t[k])
      {
        assert t[k] in multiset(t);
        if t[k] != x {
          assert t[k] in multiset(s[1..]);
          var m :| 0 <= m < |s[1..]| && s[1..][m] == t[k];
          assert s[m + 1] == t[k];
        }
      }
      ConsSorted(h, t);
      assert Insert(x, s) == [h] + t;
    }
  }

  /** `sorted` returns an ascending permutation of its input. */
  lemma {:induction false} SortSpec(s: seq<Pair>)
    ensures IsSorted(Sort(s))
    ensures multiset(Sort(s)) == multiset(s)
  {
    if s != [] {
      SortSpec(s[1..]);
      InsertSorted(s[0], Sort(s[1..]));
      assert s == [s[0]] + s[1..];
    }
  }

  /** The first element of a sorted sequence is below every element. */
  lemma SortedHeadLeast(s: seq<Pair>, x: Pair)
    requires IsSorted(s) && x in s
    ensures PairLe(s[0], x)
  {
    var i :| 0 <= i < |s| && s[i] == x;
    if i == 0 {
      StrLeTotal(x.1, x.1);
    }
  }

  /** Two ascending arrangements of the same pairs are equal. */
  lemma {:induction false} SortedUnique(a: seq<Pair>, b: seq<Pair>)
    requires IsSorted(a) && IsSorted(b) && multiset(a) == multiset(b)
    ensures a == b
  {
    if a != [] {
      assert a[0] in multiset(b) && b != [];
      assert b[0] in multiset(a);
      SortedHeadLeast(a, b[0]);
      SortedHeadLeast(b, a[0]);
      PairLeAntisymmetric(a[0], b[0]);
      assert a == [a[0]] + a[1..] && b == [b[0]] + b[1..];
      assert multiset(a) == multiset{a[0]} + multiset(a[1..]);
      assert multiset(b) == multiset{b[0]} + multiset(b[1..]);
      assert multiset(a[1..]) == multiset(a) - multiset{a[0]};
      assert multiset(b[1..]) == multiset(b) - multiset{b[0]};
      TailSorted(a);
      TailSorted(b);
      SortedUnique(a[1..], b[1..]);
    } else {
      assert |multiset(b)| == 0;
    }
  }

  /** `score_wordlist`: fails when some word cannot be scored; otherwise the
      `(score, word)` pairs of the list in ascending order, each pair as often
      as in the list. */
  method ScoreWordlist(words: seq<string>, lc: seq<map<char, real>>) returns (r: Option<seq<Pair>>)
    ensures r.None? <==> exists k :: 0 <= k < |words| && !Scorable(words[k], lc)
    ensures r.Some? ==> IsSorted(r.value) && multiset(r.value) == multiset(ScoredPairs(words, lc))
  {
    var scored := ScoreWords(words, lc);
    if scored.None? {
      return None;
    }
    SortSpec(scored.value);
    r := Some(Sort(scored.value));
  }

  /** The keyword arguments of `filter_word`: `inc` and `exc` are only tested
      for membership, so a set stands for the list or string passed. */
  datatype PyCriteria = PyCriteria(
    pos: seq<Option<char>>,
    nopos: seq<seq<char>>,
    inc: set<char>,
    exc: set<char>,
    size: (int, int))

  /** The defaults `pos=[None]*5, nopos=[[]]*5, inc=[], exc=[], size=(5,5)`. */
  function DefaultCriteria(): PyCriteria
  {
    PyCriteria(seq(5, _ => None), seq(5, _ => []), {}, {}, (5, 5))
  }

  /** `all(letter is pos_letter for letter, pos_letter in zip(word, pos) if
      pos_letter)`: walks the pairs of the zip, skipping the `None` places. */
  function PosZipAll(word: string, pos: seq<Option<char>>): (r: bool)
    ensures r <==> forall i :: 0 <= i < Min(|word|, |pos|) && pos[i].Some? ==> word[i] == pos[i].value
  {
    if word == [] || pos == [] then true
    else (pos[0].None? || word[0] == pos[0].value) && PosZipAll(word[1..], pos[1..])
  }

  /** `all(letter not in no_pos_list for letter, no_pos_list in zip(word,
      nopos))`: walks the pairs of the zip. */
  function NoPosZipAll(word: string, nopos: seq<seq<char>>): (r: bool)
    ensures r <==> forall i :: 0 <= i < Min(|word|, |nopos|) ==> word[i] !in nopos[i]
  {
    if word == [] || nopos == [] then true
    else word[0] !in nopos[0] && NoPosZipAll(word[1..], nopos[1..])
  }

  /** `filter_word`: the size, `inc`, `exc`, `pos` and `nopos` tests in turn;
      `zip` stops at the shorter of the word and the list. */
  function FilterWord(word: string, c: PyCriteria): (r: bool)
    ensures r <==>
      && c.size.0 <= |word| <= c.size.1
      && (forall l :: l in c.inc ==> l in word)
      && (forall l :: l in c.exc ==> l !in word)
      && (forall i :: 0 <= i < Min(|word|, |c.pos|) && c.pos[i].Some? ==> word[i] == c.pos[i].value)
      && (forall i :: 0 <= i < Min(|word|, |c.nopos|) ==> word[i] !in c.nopos[i])
  {
    if !(c.size.0 <= |word| <= c.size.1) then false
    else if !(forall l :: l in c.inc ==> l in word) then false
    else if !(forall l :: l in c.exc ==> l !in word) then false
    else if !PosZipAll(word, c.pos) then false
    else if !NoPosZipAll(word, c.nopos) then false
    else true
  }

  /** The Python filter and the Rust `is_viable_word` accept the same words
      when their letter lists hold the same letters. */
  lemma FilterWordAgrees(word: string, c: PyCriteria, inc: seq<char>, exc: seq<char>)
    requires 0 <= c.size.0 && 0 <= c.size.1
    requires forall l :: l in inc <==> l in c.inc
    requires forall l :: l in exc <==> l in c.exc
    ensures FilterWord(word, c) == Filters.IsViableWord(word, Filters.FilterCriteria(c.pos, c.nopos, inc, exc, (c.size.0, c.size.1)))
  {
  }

  /** With the default arguments the filter accepts exactly the 5-letter words. */
  lemma DefaultAcceptsLengthFive(word: string)
    ensures FilterWord(word, DefaultCriteria()) <==> |word| == 5
  {
    var c := DefaultCriteria();
    if |word| == 5 {
      assert forall i :: 0 <= i < Min(|word|, |c.pos|) ==> c.pos[i].None?;
      assert forall i :: 0 <= i < Min(|word|, |c.nopos|) ==> c.nopos[i] == [];
    }
  }

  /** `filter_list`: the words `filter_word` accepts, in list order. */
  function FilterList(words: seq<string>, c: PyCriteria): (r: seq<string>)
    ensures |r| <= |words|
    ensures forall w :: w in r <==> w in words && FilterWord(w, c)
  {
    Filter(w => FilterWord(w, c), words)
  }

  /** Appending a word appends it to the result exactly when it passes, so the
      result keeps the list's order. */
  lemma FilterListSnoc(words: seq<string>, w: string, c: PyCriteria)
    ensures FilterList(words + [w], c) == FilterList(words, c) + (if FilterWord(w, c) then [w] else [])
  {
    FilterConcat(x => FilterWord(x, c), words, [w]);
    assert [w][1..] == [];
  }

  /** Filtering twice with the same arguments is filtering once. */
  lemma FilterListIdempotent(words: seq<string>, c: PyCriteria)
    ensures FilterList(FilterList(words, c), c) == FilterList(words, c)
  {
    FilterIdempotent(x => FilterWord(x, c), words);
  }
}
