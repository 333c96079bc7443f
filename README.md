# Jordle: a Wordle judge and its solvers, in Dafny

A Dafny model of speyejack/wordle ("jordle") and proofs about it. The repository is a Wordle clone written in Rust, plus two Python prototypes of its solver. The model covers these parts:

- **The judge.** `src/logic`: the character matcher, `Wordle::guess`, the older stateless `guess_word`, the parameters and the game state. The copies of `match_word`, `determine_filter` and `guess_word` in `src/main.rs` are covered too.
- **The solvers.** `src/solver`:
  - per-position letter statistics (`count_letter`);
  - word scoring (`score_word`);
  - the filter built from one piece of feedback (`determine_filter`, `is_viable_word`);
  - the positional solver and the entropy solver.
- **The automatic player.** `auto_game` in `src/auto.rs`.
- **The keyboard of the graphical client.** Its tile state only; the rendering is out.
- **The Python prototypes.** `solver.py` and `exploring/solver.py`: `count_letters`, `score_word`, `score_wordlist`, `filter_word`, `filter_list`, `score_words` and `match_word`.

Modules follow the source files:

| module | file |
|---|---|
| `Types` | `types.rs` |
| `Wordle` | `wordle.rs` |
| `State` | `state.rs` |
| `Params` | `params.rs` |
| `Mutator` | `mutator.rs` |
| `Game` | `game.rs` |
| `Cli` | `main.rs` |
| `Filters` | `filters.rs` |
| `Scoring` | `scoring.rs` |
| `Solver` | `solver/mod.rs` |
| `Positional` | `positional.rs` |
| `Entropy` | `entropy.rs` |
| `Auto` | `auto.rs` |
| `Keyboard` | `keyboard.rs` |
| `PySolver` | `solver.py` |
| `PyExploring` | `exploring/solver.py` |

`Collections` and `Wrappers` are shared helpers: order-preserving filtering, counting by key, and `Option`.

## How the source is modelled

- **Values and state.**
  - The source's value types are datatypes.
  - Objects whose fields the source updates in place are classes:
    - `Wordle` (its `state` field);
    - the solvers (their word list);
    - the keyboard rows (their keys).
  - Loops that update variables are methods with loop invariants. Each method is proved to compute a specification function:
    - `count_letter` → `Solver.LetterFreq`;
    - `score_word` → `Scoring.WordScore`;
    - the histogram loop of `get_word_entropy` → `Collections.Tally` of the patterns;
    - the folds and reduces that pick a best word.
- **Matching follows the code.** The matcher is the contains-based rule of `src/logic/wordle.rs:104-120`: a guess letter is Misplaced when it occurs anywhere in the target. No target letter is ever used up, unlike the published Wordle game, where each target letter is credited at most once. The model follows the code; `Wordle.OverCreditsRepeatedLetters` shows the consequence.
- **The filter follows the code too.**
  - `nopos` bans only Misplaced letters.
  - `exc` holds every NotFound letter.
  - The size is always `(5, 5)`.
  - Under the contains-based matcher a NotFound letter is never also found elsewhere in the same feedback, so `exc` never bans a letter that `inc` requires: `Filters.IncExcDisjoint` proves the two disjoint.
- **Word sets.** A `HashSet` of words is a sequence in some iteration order. Narrowing is modelled as an order-preserving filter of that sequence; every property proved holds whatever the order. A sequence may also repeat a word where a `HashSet` cannot, so counts taken from a pool's length (`|words|` in `Solver.LetterFreq`, `Entropy.HistogramTotal`, the `|answers|` bound of `Auto.AutoGame`) count repeats; every pool the source builds is free of repeats, so the sequence model is the more general one.
- **Integers and reals.**
  - `usize` and `i32` counts are unbounded naturals.
  - `f32` values are exact reals.
  - The floating-point entropy of a histogram (`log2` over f32 probabilities) is a function parameter `entropy` of the entropy solver. Only the integer histogram is modelled.
- **Sum order.** `score_word` sums a `HashMap`'s values in an unspecified order. The model sums them in the order the letters were first entered; over exact reals every order gives the same sum.
- **Duplicated code.** Several functions are copied across the source, and each copy is modelled by the same member:
  - `match_word` in `wordle.rs`, `game.rs` and `main.rs`;
  - `count_letter` and `score_word` in `solver/mod.rs`, `solver/scoring.rs` and `solver/positional.rs`;
  - the whole of `solver.py`, which `exploring/solver.py` repeats.
- **Judges.**
  - `game.rs`: its `GameParameters` is unified with the fields the auto-player reads.
  - `main.rs`: its `guess_word` is `Cli.GuessWord`, which leaves out the commented-out mutation. `Cli.AgreesWithGameJudge` proves it equal to the library judge.
- **Python specifics.**
  - A Python exception is the `None` result: `max` of an empty list, a `KeyError` for a letter outside `a`..`z` or past a position's dictionary, an `IndexError` past the last frequency map.
  - `sorted` on `(score, word)` tuples is an insertion sort under Python's tuple order. `PySolver.SortedUnique` shows that any ascending permutation is that same list.
  - `letter is pos_letter` compares one-character strings, which CPython interns, so it is modelled as equality.
  - `inc` and `exc` are only tested for membership, so they are sets.
- **Keyboard tiles.** `keyboard.rs` uses a `Tile::Pending` and converts a `CharAlignment` into a tile with `into()`. Neither is defined in the repository's files: the `Tile` of `examples/gui/src/style.rs:26-31` has no `Pending`, and no `From` impl exists. The model adds `Pending` to the tile colours and takes the conversion as Exact→Correct, Misplaced→WrongPlace and NotFound→NotFound.

## Model

| member | source | states |
|---|---|---|
| Types.MatchesOwnWord | src/logic/types.rs:21-23 | a word match always matches its own word |
| Types.MatchesIgnoresAligns | src/logic/types.rs:21-23 | two matches of the same word with any alignments agree on every string |
| Types.CharMatches | src/logic/types.rs:26-28 | the word zipped with its alignments: as long as the shorter of the two, entry `i` pairs letter `i` with alignment `i` |
| Types.Chars | src/logic/types.rs:26-28 | the characters of a feedback sequence, position by position: the unzip half that `UnzipZip` and `ZipUnzip` pair with `char_matches` |
| Types.Aligns | src/solver/entropy.rs:23 | the alignments of a feedback sequence, position by position |
| Types.UnzipZip | src/logic/types.rs:26-28 | splitting feedback into word and alignments and zipping them back gives the feedback |
| Types.ZipUnzip | src/logic/types.rs:26-28 | a word match with one alignment per letter survives zip then unzip unchanged |
| Wordle.MatchWord | src/logic/wordle.rs:104-120 | one entry per position of the shorter word, carrying the guess letter; Exact iff the letters agree, Misplaced iff they differ but the guess letter is somewhere in the target, NotFound iff it is nowhere in the target |
| Wordle.MatchSelfAllExact | src/logic/wordle.rs:104-120 | a word matched against itself is Exact at every one of its positions |
| Wordle.AllExactIffEqual | src/logic/wordle.rs:104-120 | for words of equal length the feedback is all Exact iff guess equals target |
| Wordle.OverCreditsRepeatedLetters | src/logic/wordle.rs:109-115 | the contains rule credits the single `e` of "crane" three times against "eerie" |
| Wordle.Wordle.NewGame | src/logic/wordle.rs:51-56 | the game keeps the parameters and starts from the fresh state for the given target |
| Wordle.Wordle.Guess | src/logic/wordle.rs:65-101 | wrong length first, then unknown word, each leaving the state alone; otherwise the raw feedback is recorded, the verdict is Correct iff the guess is the target, and a wrong guess's feedback passes through the mutator; RepeatWord is never produced |
| State.NewGame | src/logic/state.rs:16-23 | a new game has no previous guesses and the given target |
| Params.Default | src/logic/params.rs:17-47 | word size (5, 5), six tries, no time limit, the no-op mutator |
| Params.DefaultAnswers | src/logic/params.rs:19-26 | the answer list is the answer file's lines of length 5, in file order |
| Params.StrictFilterIsEmpty | src/logic/params.rs:32 | the strict test `5 < len < 5` on the guess file admits no line |
| Params.DefaultGuessesAreAnswers | src/logic/params.rs:28-36 | the allowed guesses are exactly the answers, so every answer can be guessed |
| Mutator.Mutate | src/logic/mutator.rs:11-15 | the no-op mutator returns the alignment it is given |
| Mutator.MutateMatches | src/logic/wordle.rs:92-98 | each match keeps its character and gets its alignment mutated; the length is kept |
| Mutator.NoopKeepsMatches | src/logic/game.rs:115-123 | mutating with the no-op mutator gives the feedback back unchanged |
| Game.GuessWord | src/logic/game.rs:87-126 | WrongLength iff the length is out of range; UnknownWord iff the length fits but the word is not allowed; a valid verdict carries the target-vs-guess feedback and is Correct iff the guess is the target |
| Game.WrongLengthFirst | src/logic/game.rs:96-106 | a word both of the wrong length and unknown is reported as WrongLength |
| Cli.GuessWord | src/main.rs:271-298 | the same verdicts as the library judge, with the feedback of a wrong guess unmutated |
| Cli.AgreesWithGameJudge | src/main.rs:271-298 | the command-line judge and the library judge agree on every input |
| Filters.IncludesAll | src/solver/filters.rs:18 | true iff every required letter is in the word |
| Filters.ExcludesAll | src/solver/filters.rs:23 | true iff no banned letter is in the word |
| Filters.PosAgrees | src/solver/filters.rs:28-32 | true iff each fixed letter, up to the shorter of pattern and word, is in place |
| Filters.NoPosAgrees | src/solver/filters.rs:38-42 | true iff no position, up to the shorter of list and word, holds a letter banned there |
| Filters.IsViableWord | src/solver/filters.rs:12-49 | a word passes iff its length is in range, it has all included and none of the excluded letters, every fixed letter is in place and no banned letter is at its position |
| Filters.Included | src/solver/filters.rs:74-80 | the letters of exactly the matches that were found (Exact or Misplaced) |
| Filters.Excluded | src/solver/filters.rs:81-87 | the letters of exactly the NotFound matches |
| Filters.DetermineFilter | src/solver/filters.rs:51-96 | size (5, 5); an Exact match fixes its letter at its position, a Misplaced one bans its letter there; `inc` holds exactly the found letters and `exc` exactly the NotFound letters |
| Filters.IncExcPartition | src/solver/filters.rs:74-87 | every match contributes its letter to exactly one of `inc` and `exc` (as multisets) |
| Filters.IncExcDisjoint | src/solver/filters.rs:74-87 | for the judge's own feedback no letter is both included and excluded |
| Filters.TargetSurvives | src/solver/filters.rs:12-49 | a 5-letter target passes the filter built from any guess's feedback |
| Filters.GuessViableIff | src/solver/filters.rs:12-49 | a guess passes its own filter iff it is the target |
| Solver.MaxSize | src/solver/mod.rs:11 | the longest word length: no word is longer, some word has it, 0 for an empty pool |
| Solver.Column | src/solver/mod.rs:16-21 | exactly the letters some word has at position `i` |
| Solver.ToFrequencies | src/solver/mod.rs:28-42 | one map per position, each with exactly the letters counted at that position |
| Solver.CountLetter | src/solver/mod.rs:10-43 | `count_letter` computes the letter frequencies of the pool |
| Solver.TallyLetters | src/solver/mod.rs:13-21 | the nested loops leave the per-position tallies and the overall tally of the pool's letters |
| Solver.CountWordAt | src/solver/mod.rs:16-21 | one pass of the outer loop extends both tallies from the first `k` words to the first `k+1` |
| Solver.CountWord | src/solver/mod.rs:17-20 | the inner loop bumps letter `i`'s count in map `i` for each position of the word, other maps unchanged, and adds the word's letters to the overall tally |
| Solver.FreqShape | src/solver/mod.rs:13 | one frequency map per position up to the longest word |
| Solver.FreqKeys | src/solver/mod.rs:28-42 | a letter has a frequency at `i` iff some word has it at `i` |
| Solver.ColumnCount | src/solver/mod.rs:19 | the positional count of a letter is the number of words with that letter there |
| Solver.ColumnSize | src/solver/mod.rs:16-21 | the counts at a position add up to the number of words long enough to have it |
| Solver.FreqValue | src/solver/mod.rs:33-37 | a frequency is the share of words with the letter there, plus 0.1 times the letter's share of all letter slots |
| Solver.FreqPositive | src/solver/mod.rs:33-37 | every frequency present is positive |
| Solver.Narrow | src/solver/positional.rs:37-45 | the narrowed pool holds exactly the pool words that pass the feedback's filter, and is no longer |
| Solver.NarrowIdempotent | src/solver/positional.rs:37-45 | narrowing twice with the same feedback is narrowing once |
| Solver.NarrowKeepsTarget | src/main.rs:155-156 | the judge's feedback never removes a 5-letter target from the pool |
| Solver.NarrowDropsWrongGuess | src/main.rs:155-156 | a wrong guess from the pool is removed, so the pool strictly shrinks |
| Scoring.PositionScores | src/solver/scoring.rs:5-12 | each zipped letter with its position's frequency, 0.0 when the map lacks the letter |
| Scoring.BestScore | src/solver/scoring.rs:14-18 | a letter's entry is non-negative, at least every score of that letter, and is 0.0 or one of them |
| Scoring.Letters | src/solver/scoring.rs:14-18 | the keys of the map: exactly the scored letters, without repeats |
| Scoring.BestScores | src/solver/scoring.rs:14-18 | the max-update loop leaves each scored letter mapped to its best score |
| Scoring.SumEntries | src/solver/scoring.rs:20 | the sum over the map adds the best score of each key |
| Scoring.ScoreWord | src/solver/scoring.rs:4-22 | `score_word` computes the word's score |
| Scoring.SumBestNonNegative | src/solver/scoring.rs:16-20 | a sum of best scores is never negative |
| Scoring.ScoreNonNegative | src/solver/scoring.rs:4-22 | no word scores below 0.0 |
| Scoring.OnlyZippedPositions | src/solver/scoring.rs:5-7 | letters past the last map, and maps past the end of the word, do not change the score |
| Scoring.SumBestFrame | src/solver/scoring.rs:14-20 | scoring a letter not among the keys leaves the sum over those keys alone |
| Scoring.NewLetter | src/solver/scoring.rs:14-18 | a letter not seen before becomes the last key and its entry is its own score |
| Scoring.DistinctInit | src/solver/scoring.rs:14-18 | the distinct-letter condition passes from a word to its prefix, and its last letter is new |
| Scoring.SumBestSnoc | src/solver/scoring.rs:20 | an extra key adds its best score to the sum |
| Scoring.DistinctLettersSum | src/solver/scoring.rs:14-20 | with distinct letters and non-negative scores the map sum is the plain sum of the scores |
| Scoring.DistinctWordScore | src/solver/scoring.rs:4-22 | a word without repeated letters scores the sum of its positional frequencies |
| Scoring.RepeatedLetterCountsOnce | src/solver/scoring.rs:14-18 | a repeated letter counts once, at its best position |
| Positional.Scores | src/solver/positional.rs:22-24 | every pool word paired with its score, in pool order, each non-negative |
| Positional.LastBest | src/solver/positional.rs:25-31 | the fold returns no index for an empty list; otherwise an index of the greatest score with every later score strictly smaller |
| Positional.BestWord | src/solver/positional.rs:20-35 | "" for an empty pool; otherwise a pool word of greatest score, the last of several equal ones |
| Positional.PositionalSolver.LoadWordlist | src/solver/positional.rs:11-15 | the solver starts with the given pool |
| Positional.PositionalSolver.Guess | src/solver/positional.rs:20-35 | the guess is the best pool word under the pool's own frequencies (the last of equals), "" for an empty pool |
| Positional.PositionalSolver.NarrowWords | src/solver/positional.rs:37-45 | the pool becomes the old pool narrowed by the feedback |
| Entropy.PatternOf | src/solver/entropy.rs:23 | the pattern has one alignment per compared position, Exact exactly where candidate and word agree |
| Entropy.Patterns | src/solver/entropy.rs:22-27 | the pattern of each pool word, in pool order |
| Entropy.HistogramTotal | src/solver/entropy.rs:25-26 | the histogram's counts add up to the pool size |
| Entropy.HistogramCounts | src/solver/entropy.rs:25 | each recorded pattern counts at least once, and there are no more patterns than pool words |
| Entropy.HistogramPatterns | src/solver/entropy.rs:22-27 | a pattern is recorded iff some pool word produces it |
| Entropy.CandidateSeesItself | src/solver/entropy.rs:22-27 | a pool candidate's histogram holds the all-Exact pattern |
| Entropy.FirstBest | src/solver/entropy.rs:44 | the reduce returns an index of the greatest entropy with every earlier entropy strictly smaller |
| Entropy.FirstBestEntropy | src/solver/entropy.rs:42-45 | that index's word has the greatest entropy of the pool and is the first such word |
| Entropy.EntropySolver.LoadWordlist | src/solver/entropy.rs:12-16 | the solver starts with the given pool |
| Entropy.EntropySolver.WordHistogram | src/solver/entropy.rs:19-27 | the loop leaves the tally of the pool's patterns against the candidate, and the pool size |
| Entropy.EntropySolver.GetWordEntropy | src/solver/entropy.rs:18-37 | the candidate's entropy is the entropy of its histogram over the pool |
| Entropy.EntropySolver.Entropies | src/solver/entropy.rs:42-43 | each pool word's entropy, in pool order |
| Entropy.EntropySolver.Guess | src/solver/entropy.rs:41-46 | nothing iff the pool is empty; otherwise the first pool word of greatest entropy |
| Entropy.EntropySolver.NarrowWords | src/solver/entropy.rs:48-56 | the pool becomes the old pool narrowed by the feedback |
| Auto.WrongGuessDropped | src/auto.rs:96-102 | a wrong guess of the target's length leaves the pool, which strictly shrinks |
| Auto.WrongRound | src/auto.rs:81-102 | a Wrong verdict on a pool word: it is not the target, has its length, and is out of the smaller narrowed pool; a playable game stays playable |
| Auto.Pick | src/auto.rs:67-79 | the word picked is a best scoring pool word (the last of equals), "" for an empty pool |
| Auto.Play | src/auto.rs:81-102 | the library judge's verdict on the word; after a Wrong verdict the next pool is a strictly smaller part of the pool without the word; a playable game is never judged Invalid and stays playable |
| Auto.Round | src/auto.rs:67-102 | one pass of the loop: the chosen word, its verdict and the next pool, with the facts of `Pick` and `Play` |
| Auto.WrongStep | src/auto.rs:88-102 | a wrong guess dropped from the pool keeps the guesses so far wrong, out of the pool and distinct |
| Auto.RightStep | src/auto.rs:92-94 | ending on the target keeps every earlier guess wrong and all guesses distinct |
| Auto.AgreeingPrefixKept | src/main.rs:155-156 | all-Exact feedback on the leading letters of "crane" keeps "crane" in its pool |
| Auto.LongTargetKeepsGuess | src/auto.rs:81-102 | against the target "cranes" with word size 5 the pool word "crane" is judged Wrong and survives the narrowing |
| Auto.ShortTargetKeepsGuess | src/auto.rs:81-102 | against the target "cran" with word size 5 the pool word "crane" is judged Wrong and survives the narrowing |
| Auto.AutoGame | src/auto.rs:57-107 | every guess but the last is wrong and none repeats; a solved game ends on the target within `|answers|+1` guesses; a panic follows an Invalid verdict; a playable game is solved within `|answers|` guesses |
| Keyboard.PendingKeys | examples/gui/src/keyboard.rs:59-66 | one Pending key per letter of the row, in order |
| Keyboard.KeyIndex | examples/gui/src/keyboard.rs:95-96 | the position of the first key for the letter, or the row length iff the letter is not on the row |
| Keyboard.RowIndex | examples/gui/src/keyboard.rs:45-49 | the first row holding the letter, every earlier row lacking it |
| Keyboard.RowUpdateKeys | examples/gui/src/keyboard.rs:94-105 | a row update keeps every letter in place, recolours only the first key for the letter, and never a Correct one |
| Keyboard.RowUpdateAbsent | examples/gui/src/keyboard.rs:104 | a letter not on the row changes nothing |
| Keyboard.RowUpdateKeepsCorrect | examples/gui/src/keyboard.rs:97-100 | a Correct key stays Correct |
| Keyboard.BoardUpdateRows | examples/gui/src/keyboard.rs:45-49 | one match changes only the first row holding its letter; a letter on no row changes nothing |
| Keyboard.KeyboardAfterKeepsCorrect | examples/gui/src/keyboard.rs:43-51 | after any feedback the board has the same rows of the same letters, and every Correct key is still Correct |
| Keyboard.KeyboardAfterOffBoard | examples/gui/src/keyboard.rs:43-51 | feedback made only of letters on no row leaves the board as it was |
| Keyboard.LayoutLetters | examples/gui/src/keyboard.rs:19-27 | a new keyboard has rows of 10, 9 and 7 Pending keys in QWERTY order |
| Keyboard.KeyboardRow.New | examples/gui/src/keyboard.rs:59-66 | a new row holds one Pending key per letter |
| Keyboard.KeyboardRow.Update | examples/gui/src/keyboard.rs:94-105 | true iff the letter is on the row; the row becomes the row update of the match |
| Keyboard.Keyboard.New | examples/gui/src/keyboard.rs:19-27 | three fresh, distinct row objects holding the QWERTY layout |
| Keyboard.Keyboard.UpdateRow | examples/gui/src/keyboard.rs:46 | updating row `r` changes that row's keys only and reports whether it holds the letter |
| Keyboard.Keyboard.Apply | examples/gui/src/keyboard.rs:45-49 | one match updates the first row holding its letter and no other |
| Keyboard.Keyboard.Update | examples/gui/src/keyboard.rs:43-51 | the keys become the board after the whole feedback, match by match |
| Collections.Filter | solver.py:57 | the kept elements are exactly those passing the test, and no more than the input |
| Collections.FilterConcat | solver.py:57 | filtering distributes over concatenation, so the order is kept |
| Collections.FilterIdempotent | solver.py:57 | filtering twice is filtering once |
| Collections.FilterDropsRejected | src/auto.rs:97-100 | a rejected element makes the result strictly shorter |
| Collections.Bump | src/solver/mod.rs:18-19 | one more occurrence of the key, every other count unchanged |
| Collections.TallySnoc | src/solver/mod.rs:18-19 | counting one more key bumps its count |
| Collections.TallyMeaning | src/solver/mod.rs:18-19 | the tally's keys are the keys counted, each with its number of occurrences |
| Collections.TotalTally | src/solver/entropy.rs:25-26 | the counts of a tally add up to the number of keys counted |
| Collections.TallySize | src/solver/entropy.rs:25 | a tally has no more keys than were counted |
| PySolver.CountLetters | solver.py:9-22 | fails iff the list is empty or has a letter outside `a`..`z`; otherwise gives the smoothed letter frequencies |
| PySolver.CountShape | solver.py:11 | one dictionary per position up to the longest word, each keyed by exactly the 26 letters |
| PySolver.CountValue | solver.py:12-20 | a frequency is `(1 + occurrences)/(n·max)` plus 3 times the share of words with the letter there |
| PySolver.CountPositive | solver.py:12 | thanks to the smoothing every frequency is positive, even for an unseen letter |
| PySolver.ScoreWord | solver.py:24-30 | fails iff some letter has no frequency; otherwise the Rust-defined score, never negative |
| PySolver.CountedWordsScorable | solver.py:24-30 | every word of a list that `count_letters` accepts can be scored against it |
| PySolver.ScoredPairs | solver.py:66-67 | one pair per word |
| PySolver.ScoreWords | solver.py:66-67 | fails iff some word cannot be scored; otherwise each word with its score, in list order |
| PySolver.StrLeTotal | solver.py:34 | Python string order is total |
| PySolver.StrLeAntisymmetric | solver.py:34 | Python string order is antisymmetric |
| PySolver.StrLeTransitive | solver.py:34 | Python string order is transitive |
| PySolver.PairLeTotal | solver.py:34 | tuple order is total |
| PySolver.PairLeAntisymmetric | solver.py:34 | tuple order is antisymmetric |
| PySolver.PairLeTransitive | solver.py:34 | tuple order is transitive |
| PySolver.InsertSorted | solver.py:34 | inserting into a sorted list keeps it sorted and adds exactly that element |
| PySolver.SortSpec | solver.py:34 | `sorted` returns an ascending permutation of its input |
| PySolver.SortedHeadLeast | solver.py:34 | the first element of a sorted list is below every element |
| PySolver.SortedUnique | solver.py:34 | two ascending permutations of the same pairs are equal |
| PySolver.ScoreWordlist | solver.py:32-34 | fails iff some word cannot be scored; otherwise an ascending permutation of the scored pairs |
| PySolver.PosZipAll | solver.py:46 | walking the pairs of `zip(word, pos)` and skipping the `None` places accepts iff every letter `pos` fixes within the shorter length is in place |
| PySolver.NoPosZipAll | solver.py:49 | walking the pairs of `zip(word, nopos)` accepts iff no letter within the shorter length is in its position's `nopos` list |
| PySolver.FilterWord | solver.py:36-52 | a word passes iff its length is within `size`, it holds every `inc` letter and no `exc` letter, each letter `pos` fixes within the zip is in place, and no zipped position holds a letter of its `nopos` list; the two zip tests are walked pair by pair and their quantified form is proved |
| PySolver.FilterWordAgrees | solver.py:36-52 | `filter_word` accepts the same words as `is_viable_word` on the same criteria |
| PySolver.DefaultAcceptsLengthFive | solver.py:36 | with the default arguments exactly the 5-letter words pass |
| PySolver.FilterList | solver.py:56-57 | exactly the words `filter_word` accepts, no more than the list |
| PySolver.FilterListSnoc | solver.py:56-57 | an appended word is appended to the result iff it passes, so list order is kept |
| PySolver.FilterListIdempotent | solver.py:56-57 | filtering twice with the same arguments is filtering once |
| PyExploring.MatchWord | exploring/solver.py:54-62 | `exc` is always empty and `inc` is the guess's letters; `pos` fixes exactly the agreeing positions and `nopos` bans the same letter there; size stays (5, 5) |
| PyExploring.LettersIgnoreTarget | exploring/solver.py:55-59 | the letter arguments do not depend on the target |
| PyExploring.ExactHitRejectsAll | exploring/solver.py:60-61 | one agreeing position within the first five makes `filter_word` reject every word |
| PyExploring.ExactHitEmptiesList | exploring/solver.py:65-66 | the list filtered by such arguments is empty, target included |
| PyExploring.NoExactHitKeeps | exploring/solver.py:54-62 | with no agreeing position exactly the 5-letter words with all the guess's letters pass |

## Left out

- Random choices are not modelled:
  - `Wordle::new_random_game`, `Wordle::restart` and `gen_target_word` choose a target at random; the target is a parameter instead;
  - `StepProbMutator` and `mutate_match` in `src/main.rs` mutate feedback at random.
- `PosFilterCriteria::from_matches` and `check` are called by the solvers and by `src/auto.rs`, but they are not part of this model: `src/solver/filters.rs` does not define them. In their place the model narrows with `determine_filter` and `is_viable_word`, as the `auto_game` of `src/main.rs:135-166` does. `src/solver/solvers.rs` (the `Solver` trait) is not part of this model.
- I/O is not modelled:
  - reading word files: `load_wordlist` and `setup_game` in `game.rs` and `main.rs`, and `load_list` in the Python;
  - printing: `tfil` and `plist`, the Python `__main__` blocks, `manually_get_word`, `print_char` and the terminal colours;
  - the `main` functions;
  - the progress bar.
- `play_auto_game` (`src/auto.rs:24-55`) averages over 1000 random games and only prints the result.
- The `auto_game` of `src/main.rs` draws its own random target on every pass. Its scoring, judging and narrowing are those of `Auto.Round`.
- Iteration order of the pools is not modelled. `src/solver/positional.rs:39-42`, `src/solver/entropy.rs:50-53` and `src/auto.rs:97-100` collect the survivors into a new `HashSet`, whose order is unrelated to the old one. The model keeps the pool as a sequence in an arbitrary order. So which of several equally good words the source picks is not modelled: `Positional.BestWord` and `Auto.Pick` give the last of them, and `Entropy.EntropySolver.Guess` the first, only in that arbitrary order.
- The graphical client is not modelled: `Keyboard::view`, `KeyboardRow::view`, `examples/gui/src/style.rs` and the button states. The tile state is modelled.
- The floating-point entropy (`log2` of f32 probabilities in `get_word_entropy`) is given as the `entropy` parameter.
- The f32 values become exact reals, so rounding is not modelled. Neither is the order of floating-point sums.
- PySolver.CountLetters, PySolver.ScoreWord, PySolver.ScoreWordlist: Python floats become exact reals, so rounding is not modelled, and neither is the `sorted` order of two scores that compare one way as floats and another way as reals.
- Wordle.Wordle.Guess, Game.GuessWord, Cli.GuessWord: a length is counted in characters, not in UTF-8 bytes as Rust's `len()` does. For a word of lower-case ASCII letters the two agree; a non-ASCII guess such as "café" (4 characters, 5 bytes) gets `WrongLength` in the model where the source passes the length test and reports `UnknownWord`.
- `GameState::check_used_word` does nothing. `start_time` and `rng` are never read by the modelled code, so they are dropped; `time_limit` is carried as whole seconds (`timeLimitSecs`) and never read.
- Auto.AutoGame: requires `|target| == word_size`. Otherwise the source can loop forever, because the judge checks only the guess's length. A target longer than the word size that extends a pool word, or a shorter one that is a prefix of a pool word, makes that word Wrong while its own filter keeps it: `Auto.LongTargetKeepsGuess` (target "cranes") and `Auto.ShortTargetKeepsGuess` (target "cran") show both with the pool ["crane"].
- Auto.AutoGame: `guess_count` is an `i32` in the source, so its overflow after 2^31 rounds is not modelled. This can never happen: under the requirement above the loop makes at most `|answers| + 1` passes.
- Auto.AutoGame: the `?` on the judge's result never fires, because the judge always returns `Ok`, so it is dropped.
- Entropy.EntropySolver.Guess: the trait declares `guess` as returning a `Guess`, and `entropy.rs` returns an `Option`. The model follows `entropy.rs`.
