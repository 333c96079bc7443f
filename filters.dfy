/** Candidate filtering (src/solver/filters.rs): the constraints one piece of
    feedback puts on the target, and the test of a word against them. The
    solvers' `PosFilterCriteria::from_matches` and `check` are not part of this
    model; `DetermineFilter` and `IsViableWord` stand in for them. */
module Filters {
  import opened Collections
  import opened Wrappers
  import opened Types
  import opened Wordle

  datatype FilterCriteria = FilterCriteria(
    pos: seq<Option<char>>,
    nopos: seq<seq<char>>,
    inc: seq<char>,
    exc: seq<char>,
    size: (nat, nat))

  /** `inc.iter().all(|c| word.contains(*c))`. */
  function IncludesAll(cs: seq<char>, word: string): (r: bool)
    ensures r <==> forall c :: c in cs ==> c in word
  {
    if cs == [] then true
    else cs[0] in word && IncludesAll(cs[1..], word)
  }

  /** `exc.iter().all(|c| !word.contains(*c))`. */
  function ExcludesAll(cs: seq<char>, word: string): (r: bool)
    ensures r <==> forall c :: c in cs ==> c !in word
  {
    if cs == [] then true
    else cs[0] !in word && ExcludesAll(cs[1..], word)
  }

  /** `pos.iter().zip(word.chars()).all(...)`: a fixed letter must be in place. */
  function PosAgrees(pos: seq<Option<char>>, word: string): (r: bool)
    ensures r <==> forall i :: 0 <= i < Min(|pos|, |word|) && pos[i].Some? ==> word[i] == pos[i].value
  {
    if pos == [] || word == [] then true
    else (pos[0].None? || pos[0].value == word[0]) && PosAgrees(pos[1..], word[1..])
  }

  /** `nopos.iter().zip(word.chars()).all(...)`: a banned letter must be absent there. */
  function NoPosAgrees(nopos: seq<seq<char>>, word: string): (r: bool)
    ensures r <==> forall i :: 0 <= i < Min(|nopos|, |word|) ==> word[i] !in nopos[i]
  {
    if nopos == [] || word == [] then true
    else word[0] !in nopos[0] && NoPosAgrees(nopos[1..], word[1..])
  }

  /** `is_viable_word`: five tests in turn, each of which may reject the word. */
  function IsViableWord(word: string, criteria: FilterCriteria): (r: bool)
    ensures r <==>
      && criteria.size.0 <= |word| <= criteria.size.1
      && (forall c :: c in criteria.inc ==> c in word)
      && (forall c :: c in criteria.exc ==> c !in word)
      && (forall i :: 0 <= i < Min(|criteria.pos|, |word|) && criteria.pos[i].Some? ==>
            word[i] == criteria.pos[i].value)
      && (forall i :: 0 <= i < Min(|criteria.nopos|, |word|) ==> word[i] !in criteria.nopos[i])
  {
    if |word| < criteria.size.0 || |word| > criteria.size.1 then false
    else if !IncludesAll(criteria.inc, word) then false
    else if !ExcludesAll(criteria.exc, word) then false
    else if !PosAgrees(criteria.pos, word) then false
    else if !NoPosAgrees(criteria.nopos, word) then false
    else true
  }

  /** The letters of the matches that were found in the target, in order. */
  function Included(ms: StringMatch): (r: seq<char>)
    ensures forall c :: c in r <==> exists i :: 0 <= i < |ms| && ms[i].c == c && ms[i].align != NotFound
  {
    if ms == [] then []
    else (if ms[0].align != NotFound then [ms[0].c] else []) + Included(ms[1..])
  }

  /** The letters of the matches that were not found in the target, in order. */
  function Excluded(ms: StringMatch): (r: seq<char>)
    ensures forall c :: c in r <==> exists i :: 0 <= i < |ms| && ms[i].c == c && ms[i].align == NotFound
  {
    if ms == [] then []
    else (if ms[0].align == NotFound then [ms[0].c] else []) + Excluded(ms[1..])
  }

  /** `determine_filter`: an Exact match fixes its letter, a Misplaced one bans
      its letter at that position, and the letters are split into included and
      excluded by whether they were found. The size is always (5, 5). */
  function DetermineFilter(ms: StringMatch): (f: FilterCriteria)
    ensures |f.pos| == |ms| && |f.nopos| == |ms| && f.size == (5, 5)
    ensures forall i :: 0 <= i < |ms| ==>
      && (f.pos[i] == (if ms[i].align == Exact then Some(ms[i].c) else None))
      && (f.nopos[i] == (if ms[i].align == Misplaced then [ms[i].c] else []))
    ensures forall c :: c in f.inc <==> exists i :: 0 <= i < |ms| && ms[i].c == c && ms[i].align != NotFound
    ensures forall c :: c in f.exc <==> exists i :: 0 <= i < |ms| && ms[i].c == c && ms[i].align == NotFound
  {
    FilterCriteria(
      seq(|ms|, i requires 0 <= i < |ms| => if ms[i].align == Exact then Some(ms[i].c) else None),
      seq(|ms|, i requires 0 <= i < |ms| => if ms[i].align == Misplaced then [ms[i].c] else []),
      Included(ms),
      Excluded(ms),
      (5, 5))
  }

  /** Every match lands in exactly one of `inc` and `exc`. */
  lemma {:induction false} IncExcPartition(ms: StringMatch)
    ensures multiset(Included(ms)) + multiset(Excluded(ms)) == multiset(Chars(ms))
  {
    if ms != [] {
      var h := [ms[0].c];
      assert Chars(ms) == h + Chars(ms[1..]);
      assert multiset(Included(ms)) + multiset(Excluded(ms))
          == multiset(h) + multiset(Included(ms[1..])) + multiset(Excluded(ms[1..])) by {
        if ms[0].align == NotFound {
          assert Included(ms) == Included(ms[1..]);
          assert Excluded(ms) == h + Excluded(ms[1..]);
        } else {
          assert Included(ms) == h + Included(ms[1..]);
          assert Excluded(ms) == Excluded(ms[1..]);
        }
      }
      IncExcPartition(ms[1..]);
    }
  }

  /** For the judge's own feedback no letter is both required and banned. */
  lemma IncExcDisjoint(target: string, guess: string)
    ensures var f := DetermineFilter(MatchWord(target, guess));
      forall c :: c in f.inc ==> c !in f.exc
  {
  }

  /** The filter of the judge's feedback as a word test; the solvers narrow with it. */
  function Viable(ms: StringMatch): string -> bool
  {
    w => IsViableWord(w, DetermineFilter(ms))
  }

  /** The true target always passes the filter built from any guess's feedback,
      provided it has the length (5) that the filter demands. */
  lemma TargetSurvives(target: string, guess: string)
    requires |target| == 5
    ensures IsViableWord(target, DetermineFilter(MatchWord(target, guess)))
  {
    var ms := MatchWord(target, guess);
    var f := DetermineFilter(ms);
    forall c | c in f.inc
      ensures c in target
    {
      var i :| 0 <= i < |ms| && ms[i].c == c && ms[i].align != NotFound;
      assert target[i] == guess[i] || guess[i] in target;
    }
  }

  /** The guess itself passes its own filter exactly when it is the target: a
      wrong guess is always eliminated. */
  lemma GuessViableIff(target: string, guess: string)
    requires |target| == 5
    ensures IsViableWord(guess, DetermineFilter(MatchWord(target, guess))) <==> guess == target
  {
    var ms := MatchWord(target, guess);
    var f := DetermineFilter(ms);
    if guess == target {
      TargetSurvives(target, guess);
    }
    if IsViableWord(guess, f) {
      assert |guess| == 5;
      forall i | 0 <= i < 5
        ensures target[i] == guess[i]
      {
        assert guess[i] !in f.nopos[i];
        assert guess[i] in guess && guess[i] !in f.exc;
      }
      assert guess == target;
    }
  }
}
