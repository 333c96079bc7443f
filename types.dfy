/** Per-character feedback and the recorded match of one guess
    (src/logic/types.rs). A length is counted in characters; Rust's `len()`
    counts UTF-8 bytes, which is the same for the lower-case ASCII words of
    the word lists but not for a guess with other letters. */
module Types {
  import opened Collections

  datatype CharAlignment = NotFound | Misplaced | Exact

  datatype CharMatch = CharMatch(c: char, align: CharAlignment)

  /** The feedback for a whole guess, one entry per compared position. */
  type StringMatch = seq<CharMatch>

  /** A guessed word with its alignments; equality is structural on both fields,
      as the Rust `#[derive(PartialEq, Eq)]`. */
  datatype WordMatch = WordMatch(word: string, aligns: seq<CharAlignment>)

  /** `matches_str`: whether the match is about the word `other`. */
  function MatchesStr(m: WordMatch, other: string): bool
  {
    m.word == other
  }

  /** A match is always about its own word. */
  lemma MatchesOwnWord(m: WordMatch)
    ensures MatchesStr(m, m.word)
  {
  }

  /** The alignments play no part in `matches_str`. */
  lemma MatchesIgnoresAligns(w: string, a: seq<CharAlignment>, b: seq<CharAlignment>, s: string)
    ensures MatchesStr(WordMatch(w, a), s) == MatchesStr(WordMatch(w, b), s)
  {
  }

  /** `char_matches`: the word zipped with its alignments, cut at the shorter of the two. */
  function CharMatches(m: WordMatch): (r: StringMatch)
    ensures |r| == Min(|m.word|, |m.aligns|)
    ensures forall i :: 0 <= i < |r| ==> r[i] == CharMatch(m.word[i], m.aligns[i])
    decreases |m.word|
  {
    if m.word == [] || m.aligns == [] then []
    else [CharMatch(m.word[0], m.aligns[0])] + CharMatches(WordMatch(m.word[1..], m.aligns[1..]))
  }

  /** The characters of a feedback sequence. */
  function Chars(ms: StringMatch): (s: string)
    ensures |s| == |ms| && forall i :: 0 <= i < |ms| ==> s[i] == ms[i].c
  {
    seq(|ms|, i requires 0 <= i < |ms| => ms[i].c)
  }

  /** The alignments of a feedback sequence (`.map(|x| x.align)`). */
  function Aligns(ms: StringMatch): (a: seq<CharAlignment>)
    ensures |a| == |ms| && forall i :: 0 <= i < |ms| ==> a[i] == ms[i].align
  {
    seq(|ms|, i requires 0 <= i < |ms| => ms[i].align)
  }

  /** Splitting feedback into word and alignments and zipping it back gives the feedback. */
  lemma UnzipZip(ms: StringMatch)
    ensures CharMatches(WordMatch(Chars(ms), Aligns(ms))) == ms
  {
  }

  /** A well-formed `WordMatch` (one alignment per character) survives the zip and unzip. */
  lemma ZipUnzip(m: WordMatch)
    requires |m.word| == |m.aligns|
    ensures WordMatch(Chars(CharMatches(m)), Aligns(CharMatches(m))) == m
  {
    assert Chars(CharMatches(m)) == m.word;
    assert Aligns(CharMatches(m)) == m.aligns;
  }
}
