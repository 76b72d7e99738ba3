/**
 * Morpheme-based sentiment of a novel word (src/slithyt/sentiment.py).
 *
 * The lower-cased word is scanned left to right. At each position the
 * longest substring of at least two characters that is a key of the
 * sentiment lexicon is taken as a morpheme and the scan jumps past it;
 * otherwise the scan moves on by one character. The mean of the morphemes'
 * scores, moved from [-4, 4] onto [0, 1], is the word's sentiment; a word
 * without morphemes is neutral (0.5).
 */
module Sentiment {
  import opened Wrappers
  import opened Text

  /** The sentiment lexicon: word -> valence, roughly in [-4, 4]. */
  type SentimentLexicon = map<string, real>

  /** A morpheme found at w[start..end] and its lexicon score. */
  datatype Match = Match(start: nat, end: nat, score: real)

  const NEUTRAL: real := 0.5

  /** `(score + 4) / 8`: [-4, 4] onto [0, 1], monotonically. */
  function NormalizeScore(x: real): (r: real)
    ensures 0.0 <= r <= 1.0 <==> -4.0 <= x <= 4.0
    ensures r == NEUTRAL <==> x == 0.0
  {
    (x + 4.0) / 8.0
  }

  /**
   * Trying the ends hi, hi - 1, ..., i + 2 in turn, the first end j whose
   * substring w[i..j] is a lexicon key: the longest key of length at least
   * two that starts at i and ends by hi.
   */
  function LongestEnd(w: string, lex: SentimentLexicon, i: nat, hi: nat): (r: Option<nat>)
    requires hi <= |w|
    ensures r.Some? ==> i + 2 <= r.value <= hi && w[i..r.value] in lex
    ensures r.Some? ==> forall j :: r.value < j <= hi ==> w[i..j] !in lex
    ensures r.None? ==> forall j :: i + 2 <= j <= hi ==> w[i..j] !in lex
    decreases hi
  {
    if hi < i + 2 then None
    else if w[i..hi] in lex then Some(hi)
    else LongestEnd(w, lex, i, hi - 1)
  }

  /** The morphemes the greedy scan finds from position i on. */
  function Matches(w: string, lex: SentimentLexicon, i: nat): seq<Match>
    requires i <= |w|
    decreases |w| - i
  {
    if i == |w| then []
    else match LongestEnd(w, lex, i, |w|)
      case Some(j) => [Match(i, j, lex[w[i..j]])] + Matches(w, lex, j)
      case None => Matches(w, lex, i + 1)
  }

  function Scores(ms: seq<Match>): (r: seq<real>)
    ensures |r| == |ms| && forall k :: 0 <= k < |ms| ==> r[k] == ms[k].score
  {
    seq(|ms|, k requires 0 <= k < |ms| => ms[k].score)
  }

  function Sum(xs: seq<real>): real
    decreases |xs|
  {
    if |xs| == 0 then 0.0 else xs[0] + Sum(xs[1..])
  }

  /** The sentiment of a word, as analyze_word_sentiment computes it. */
  function WordSentiment(word: string, lex: SentimentLexicon): real {
    var scores := Scores(Matches(Lower(word), lex, 0));
    if |scores| == 0 then NEUTRAL else NormalizeScore(Sum(scores) / (|scores| as real))
  }

  /**
   * The inner loop of analyze_word_sentiment: the longest lexicon key of at
   * least two characters starting at i, or "" when there is none.
   */
  method LongestMatch(w: string, lex: SentimentLexicon, i: nat) returns (bestMatch: string)
    requires i < |w|
    ensures LongestEnd(w, lex, i, |w|) == if bestMatch == "" then None else Some(i + |bestMatch|)
    ensures bestMatch != "" ==> i + |bestMatch| <= |w| && bestMatch == w[i..i + |bestMatch|]
  {
    bestMatch := "";
    var j := |w|;
    while j > i + 1
      invariant i + 1 <= j <= |w|
      invariant LongestEnd(w, lex, i, |w|) == LongestEnd(w, lex, i, j)
      decreases j
    {
      var substring := w[i..j];
      if substring in lex {
        bestMatch := substring;
        return;
      }
      j := j - 1;
    }
  }

  /** A match found at i contributes its score, and the scan goes on from its end. */
  lemma MatchStep(w: string, lex: SentimentLexicon, i: nat, next: nat)
    requires i < |w| && LongestEnd(w, lex, i, |w|) == Some(next)
    ensures Scores(Matches(w, lex, i)) == [lex[w[i..next]]] + Scores(Matches(w, lex, next))
  {
    var rest := Matches(w, lex, next);
    assert Matches(w, lex, i) == [Match(i, next, lex[w[i..next]])] + rest;
    assert Scores([Match(i, next, lex[w[i..next]])] + rest) == [lex[w[i..next]]] + Scores(rest);
  }

  /** analyze_word_sentiment, with the lexicon as a parameter. */
  method AnalyzeWordSentiment(word: string, lex: SentimentLexicon) returns (score: real)
    ensures score == WordSentiment(word, lex)
  {
    var wordLower := Lower(word);
    var foundScores: seq<real> := [];
    var i := 0;
    while i < |wordLower|
      invariant 0 <= i <= |wordLower|
      invariant foundScores + Scores(Matches(wordLower, lex, i)) == Scores(Matches(wordLower, lex, 0))
      decreases |wordLower| - i
    {
      var bestMatch := LongestMatch(wordLower, lex, i);
      if bestMatch != "" {
        var next := i + |bestMatch|;
        MatchStep(wordLower, lex, i, next);
        foundScores := foundScores + [lex[bestMatch]];
        i := next;
      } else {
        i := i + 1;
      }
    }
    assert Matches(wordLower, lex, i) == [];
    assert foundScores == Scores(Matches(wordLower, lex, 0));
    if |foundScores| == 0 {
      return NEUTRAL;
    }
    var avgScore := Sum(foundScores) / (|foundScores| as real);
    score := NormalizeScore(avgScore);
  }

  // ---------------------------------------------------------------------------
  // What the segmentation is
  // ---------------------------------------------------------------------------

  /** Position p lies inside one of the morphemes. */
  predicate Covered(ms: seq<Match>, p: nat) {
    exists k :: 0 <= k < |ms| && ms[k].start <= p < ms[k].end
  }

  /** No lexicon key of two or more characters starts at p. */
  predicate NoKeyAt(w: string, lex: SentimentLexicon, p: nat)
    requires p <= |w|
  {
    forall j :: p + 2 <= j <= |w| ==> w[p..j] !in lex
  }

  /**
   * Every morpheme found from i on is a lexicon key of at least two
   * characters, the longest key starting where it starts, and carries its
   * lexicon score.
   */
  lemma {:induction false} MatchesAreLongestKeys(w: string, lex: SentimentLexicon, i: nat)
    requires i <= |w|
    ensures forall m :: m in Matches(w, lex, i) ==>
      && i <= m.start && m.start + 2 <= m.end <= |w|
      && w[m.start..m.end] in lex
      && m.score == lex[w[m.start..m.end]]
      && forall j :: m.end < j <= |w| ==> w[m.start..j] !in lex
    decreases |w| - i
  {
    if i < |w| {
      match LongestEnd(w, lex, i, |w|)
      case Some(j) =>
        MatchesAreLongestKeys(w, lex, j);
      case None =>
        MatchesAreLongestKeys(w, lex, i + 1);
    }
  }

  /** Morphemes that start at or after i, each non-empty, in order and without overlap. */
  predicate InOrderFrom(ms: seq<Match>, i: nat) {
    (forall k :: 0 <= k < |ms| ==> i <= ms[k].start < ms[k].end) &&
    (forall k :: 0 <= k < |ms| - 1 ==> ms[k].end <= ms[k + 1].start)
  }

  /** The morphemes come in order and do not overlap. */
  lemma {:induction false} MatchesInOrder(w: string, lex: SentimentLexicon, i: nat)
    requires i <= |w|
    ensures InOrderFrom(Matches(w, lex, i), i)
    decreases |w| - i
  {
    if i < |w| {
      var ms := Matches(w, lex, i);
      match LongestEnd(w, lex, i, |w|)
      case Some(j) =>
        MatchesInOrder(w, lex, j);
        var rest := Matches(w, lex, j);
        assert ms == [Match(i, j, lex[w[i..j]])] + rest;
        forall k | 0 <= k < |ms|
          ensures i <= ms[k].start < ms[k].end
        {
          if k > 0 {
            assert ms[k] == rest[k - 1];
          }
        }
        forall k | 0 <= k < |ms| - 1
          ensures ms[k].end <= ms[k + 1].start
        {
          assert ms[k + 1] == rest[k];
          if k > 0 {
            assert ms[k] == rest[k - 1];
          }
        }
      case None =>
        MatchesInOrder(w, lex, i + 1);
        assert ms == Matches(w, lex, i + 1);
        forall k | 0 <= k < |ms|
          ensures i <= ms[k].start
        {
        }
    }
  }

  /** Every position from i on that no morpheme covers starts no lexicon key. */
  lemma {:induction false} GapsHoldNoKey(w: string, lex: SentimentLexicon, i: nat)
    requires i <= |w|
    ensures forall p :: i <= p < |w| && !Covered(Matches(w, lex, i), p) ==> NoKeyAt(w, lex, p)
    decreases |w| - i
  {
    if i < |w| {
      var ms := Matches(w, lex, i);
      match LongestEnd(w, lex, i, |w|)
      case Some(j) =>
        GapsHoldNoKey(w, lex, j);
        var rest := Matches(w, lex, j);
        assert ms == [Match(i, j, lex[w[i..j]])] + rest;
        forall p | i <= p < |w| && !Covered(ms, p)
          ensures NoKeyAt(w, lex, p)
        {
          assert !(ms[0].start <= p < ms[0].end);
          forall k | 0 <= k < |rest|
            ensures !(rest[k].start <= p < rest[k].end)
          {
            assert ms[k + 1] == rest[k];
          }
        }
      case None =>
        GapsHoldNoKey(w, lex, i + 1);
        assert ms == Matches(w, lex, i + 1);
        forall p | i <= p < |w| && !Covered(ms, p)
          ensures NoKeyAt(w, lex, p)
        {
          if p == i {
            assert NoKeyAt(w, lex, i);
          }
        }
    }
  }

  /** A word none of whose substrings is a key (of two or more characters) is neutral. */
  lemma NoMorphemesNeutral(word: string, lex: SentimentLexicon)
    requires forall p, j :: 0 <= p && p + 2 <= j <= |word| ==> Lower(word)[p..j] !in lex
    ensures WordSentiment(word, lex) == NEUTRAL
  {
    var w := Lower(word);
    var ms := Matches(w, lex, 0);
    MatchesAreLongestKeys(w, lex, 0);
  }

  lemma {:induction false} SumBounds(xs: seq<real>, lo: real, hi: real)
    requires forall k :: 0 <= k < |xs| ==> lo <= xs[k] <= hi
    ensures (|xs| as real) * lo <= Sum(xs) <= (|xs| as real) * hi
    decreases |xs|
  {
    if |xs| > 0 {
      SumBounds(xs[1..], lo, hi);
    }
  }

  /** A mean lies between any bounds of its terms. */
  lemma MeanBounds(xs: seq<real>, lo: real, hi: real)
    requires |xs| > 0
    requires forall k :: 0 <= k < |xs| ==> lo <= xs[k] <= hi
    ensures lo <= Sum(xs) / (|xs| as real) <= hi
  {
    SumBounds(xs, lo, hi);
    var n := |xs| as real;
    var mean := Sum(xs) / n;
    assert mean * n == Sum(xs);
  }

  /** With every lexicon score in [-4, 4] the sentiment lies in [0, 1]. */
  lemma SentimentRange(word: string, lex: SentimentLexicon)
    requires forall key :: key in lex ==> -4.0 <= lex[key] <= 4.0
    ensures 0.0 <= WordSentiment(word, lex) <= 1.0
  {
    var w := Lower(word);
    var ms := Matches(w, lex, 0);
    var scores := Scores(ms);
    MatchesAreLongestKeys(w, lex, 0);
    if |scores| > 0 {
      forall k | 0 <= k < |scores|
        ensures -4.0 <= scores[k] <= 4.0
      {
        assert ms[k] in ms;
      }
      MeanBounds(scores, -4.0, 4.0);
    }
  }

  /** The analysis ignores letter case: a word and its lower-cased form score alike. */
  lemma SentimentIgnoresCase(word: string, lex: SentimentLexicon)
    ensures WordSentiment(Lower(word), lex) == WordSentiment(word, lex)
  {
    LowerIdempotent(word);
  }
}
