/**
 * Shared vocabulary of the phonetic pipeline: ARPAbet phonemes with stress
 * digits, the two sentinel tokens of the context model, and the
 * pronunciation lexicon that stands in for the `pronouncing` library.
 */
module Phonetics {
  import opened Wrappers
  import opened Text

  /** An ARPAbet phoneme such as "EH1": a base symbol and an optional stress digit. */
  type Phoneme = string
  type Pronunciation = seq<Phoneme>

  /** Start-of-word padding token. */
  const START: Phoneme := "^"
  /** End-of-word token. */
  const END: Phoneme := "$"

  /**
   * The pronunciation dictionary: each known word maps to its pronunciation
   * variants, each already split into phonemes; an unknown word is absent.
   */
  type Lexicon = map<string, seq<Pronunciation>>

  predicate IsStressDigit(c: char) {
    c == '0' || c == '1' || c == '2'
  }

  /** Primary (1) or secondary (2) stress on the last character. */
  predicate IsStressed(p: Phoneme) {
    |p| > 0 && (p[|p| - 1] == '1' || p[|p| - 1] == '2')
  }

  /** `p.rstrip('012')`: the phoneme's base symbol. */
  function StripStress(p: Phoneme): (base: Phoneme)
    ensures |base| <= |p| && base == p[..|base|]
    ensures forall i :: |base| <= i < |p| ==> IsStressDigit(p[i])
    ensures |base| == 0 || !IsStressDigit(base[|base| - 1])
  {
    TrimEnd(p, IsStressDigit)
  }

  /** The first pronunciation variant of a word, or None when it has none. */
  function FirstPronunciation(lex: Lexicon, word: string): (r: Option<Pronunciation>)
    ensures r.None? <==> word !in lex || |lex[word]| == 0
    ensures r.Some? ==> r.value == lex[word][0]
  {
    if word in lex && |lex[word]| > 0 then Some(lex[word][0]) else None
  }

  /** `line.strip().lower()`, the corpus-line clean-up of both model builders. */
  function NormalizeLine(line: string): string {
    Lower(Strip(line))
  }

  /**
   * What a corpus line contributes to a model builder: nothing for a blank
   * line or a word without pronunciation, otherwise the normalised word and
   * its first pronunciation.
   */
  function LinePronunciation(lex: Lexicon, line: string): (r: Option<(string, Pronunciation)>)
    ensures r.Some? ==> r.value.0 == NormalizeLine(line) && |r.value.0| > 0
    ensures r.Some? ==> FirstPronunciation(lex, r.value.0) == Some(r.value.1)
    ensures r.None? <==> NormalizeLine(line) == [] || FirstPronunciation(lex, NormalizeLine(line)).None?
  {
    var word := NormalizeLine(line);
    if word == [] then None
    else match FirstPronunciation(lex, word)
      case None => None
      case Some(ph) => Some((word, ph))
  }

  /** No corpus phoneme collides with a sentinel token. */
  ghost predicate SentinelFree(lex: Lexicon) {
    forall w, v, j :: w in lex && 0 <= v < |lex[w]| && 0 <= j < |lex[w][v]| ==>
      lex[w][v][j] != START && lex[w][v][j] != END
  }
}
