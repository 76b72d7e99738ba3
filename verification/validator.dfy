/**
 * The word validator of src/slithyt/validator.py: a chain of checks, each of
 * which can only reject. Regular-expression search and the pronounceability
 * score are collaborators passed in as functions; the sentiment score is
 * the morpheme analysis of the Sentiment module over a given lexicon.
 */
module Validator {
  import opened Wrappers
  import opened Text
  import Sentiment

  /**
   * The keyword arguments of validate_word; None is Python's None. An empty
   * pattern or an empty set is falsy in Python and switches its check off,
   * just as None does.
   */
  datatype Constraints = Constraints(
    matchesRegex: Option<string>,
    rejectRegex: Option<string>,
    dictionarySet: Option<set<string>>,
    blocklistSet: Option<set<string>>,
    minSentiment: Option<real>,
    maxSentiment: Option<real>,
    minPronounceability: Option<real>)

  /** validate_word's defaults: every argument None. */
  const NoConstraints := Constraints(None, None, None, None, None, None, None)

  /**
   * The collaborators: `search(pattern, word)` is `re.search(pattern, word,
   * re.IGNORECASE)` taken as a truth value, `lexicon` the sentiment lexicon,
   * `pronounceability` the pronounceability score.
   */
  datatype Oracles = Oracles(
    search: (string, string) -> bool,
    lexicon: Sentiment.SentimentLexicon,
    pronounceability: string -> real)

  /** A pattern argument that is neither None nor empty. */
  predicate PatternGiven(p: Option<string>) {
    p.Some? && p.value != ""
  }

  /** A set argument that is neither None nor empty. */
  predicate SetGiven(s: Option<set<string>>) {
    s.Some? && s.value != {}
  }

  /** validate_word, check by check in the source's order, each able only to reject. */
  function ValidateWord(word: string, c: Constraints, env: Oracles): bool {
    if word == "" then false
    else
      var wordLower := Lower(word);
      if PatternGiven(c.matchesRegex) && !env.search(c.matchesRegex.value, word) then false
      else if PatternGiven(c.rejectRegex) && env.search(c.rejectRegex.value, word) then false
      else if SetGiven(c.dictionarySet) && wordLower in c.dictionarySet.value then false
      else if SetGiven(c.blocklistSet) && wordLower in c.blocklistSet.value then false
      else if
        (c.minSentiment.Some? || c.maxSentiment.Some?) &&
        (var score := Sentiment.WordSentiment(word, env.lexicon);
         (c.minSentiment.Some? && score < c.minSentiment.value) ||
         (c.maxSentiment.Some? && score > c.maxSentiment.value))
      then false
      else if c.minPronounceability.Some? && env.pronounceability(word) < c.minPronounceability.value then false
      else true
  }

  /** The separate requirements a word must meet. */
  datatype Check = NonEmpty | MatchesPattern | AvoidsPattern | NotInDictionary | NotBlocked
                 | SentimentAtLeast | SentimentAtMost | Pronounceable

  /** Whether the word meets one requirement; a requirement not asked for is always met. */
  predicate Passes(k: Check, word: string, c: Constraints, env: Oracles) {
    match k
    case NonEmpty => word != ""
    case MatchesPattern => PatternGiven(c.matchesRegex) ==> env.search(c.matchesRegex.value, word)
    case AvoidsPattern => PatternGiven(c.rejectRegex) ==> !env.search(c.rejectRegex.value, word)
    case NotInDictionary => SetGiven(c.dictionarySet) ==> Lower(word) !in c.dictionarySet.value
    case NotBlocked => SetGiven(c.blocklistSet) ==> Lower(word) !in c.blocklistSet.value
    case SentimentAtLeast =>
      c.minSentiment.Some? ==> c.minSentiment.value <= Sentiment.WordSentiment(word, env.lexicon)
    case SentimentAtMost =>
      c.maxSentiment.Some? ==> Sentiment.WordSentiment(word, env.lexicon) <= c.maxSentiment.value
    case Pronounceable =>
      c.minPronounceability.Some? ==> c.minPronounceability.value <= env.pronounceability(word)
  }

  /** A word is valid exactly when it meets every requirement: the order of the checks does not matter. */
  lemma ValidIffAllChecksPass(word: string, c: Constraints, env: Oracles)
    ensures ValidateWord(word, c, env) <==> forall k: Check :: Passes(k, word, c, env)
  {
    if ValidateWord(word, c, env) {
      forall k: Check
        ensures Passes(k, word, c, env)
      {
      }
    } else {
      var failing :=
        if word == "" then NonEmpty
        else if PatternGiven(c.matchesRegex) && !env.search(c.matchesRegex.value, word) then MatchesPattern
        else if PatternGiven(c.rejectRegex) && env.search(c.rejectRegex.value, word) then AvoidsPattern
        else if SetGiven(c.dictionarySet) && Lower(word) in c.dictionarySet.value then NotInDictionary
        else if SetGiven(c.blocklistSet) && Lower(word) in c.blocklistSet.value then NotBlocked
        else if c.minSentiment.Some? && Sentiment.WordSentiment(word, env.lexicon) < c.minSentiment.value
        then SentimentAtLeast
        else if c.maxSentiment.Some? && Sentiment.WordSentiment(word, env.lexicon) > c.maxSentiment.value
        then SentimentAtMost
        else Pronounceable;
      assert !Passes(failing, word, c, env);
    }
  }

  /** The empty word is rejected whatever the constraints. */
  lemma EmptyWordRejected(c: Constraints, env: Oracles)
    ensures !ValidateWord("", c, env)
  {
  }

  /** A word whose lower-case form is in the (non-empty) dictionary is rejected, in any letter case. */
  lemma DictionaryWordRejected(word: string, c: Constraints, env: Oracles)
    requires c.dictionarySet.Some? && Lower(word) in c.dictionarySet.value
    ensures !ValidateWord(word, c, env)
  {
  }

  /** A word whose lower-case form is on the (non-empty) blocklist is rejected, in any letter case. */
  lemma BlockedWordRejected(word: string, c: Constraints, env: Oracles)
    requires c.blocklistSet.Some? && Lower(word) in c.blocklistSet.value
    ensures !ValidateWord(word, c, env)
  {
  }

  /** With no constraints, exactly the non-empty words are valid. */
  lemma UnconstrainedAcceptsNonEmpty(word: string, env: Oracles)
    ensures ValidateWord(word, NoConstraints, env) <==> word != ""
  {
  }

  /** A valid word meets the sentiment bounds that were given. */
  lemma ValidWordWithinSentimentBounds(word: string, c: Constraints, env: Oracles)
    requires ValidateWord(word, c, env)
    ensures c.minSentiment.Some? ==> c.minSentiment.value <= Sentiment.WordSentiment(word, env.lexicon)
    ensures c.maxSentiment.Some? ==> Sentiment.WordSentiment(word, env.lexicon) <= c.maxSentiment.value
  {
  }

  /** A valid word matches the match pattern and does not match the reject pattern, when given. */
  lemma ValidWordRespectsPatterns(word: string, c: Constraints, env: Oracles)
    requires ValidateWord(word, c, env)
    ensures PatternGiven(c.matchesRegex) ==> env.search(c.matchesRegex.value, word)
    ensures PatternGiven(c.rejectRegex) ==> !env.search(c.rejectRegex.value, word)
  {
  }

  /**
   * c2 asks for at least what c1 asks for: the same patterns, larger word
   * sets, and sentiment and pronounceability bounds at least as tight.
   */
  predicate Tightens(c2: Constraints, c1: Constraints) {
    && (PatternGiven(c1.matchesRegex) ==> c2.matchesRegex == c1.matchesRegex)
    && (PatternGiven(c1.rejectRegex) ==> c2.rejectRegex == c1.rejectRegex)
    && (SetGiven(c1.dictionarySet) ==> c2.dictionarySet.Some? && c1.dictionarySet.value <= c2.dictionarySet.value)
    && (SetGiven(c1.blocklistSet) ==> c2.blocklistSet.Some? && c1.blocklistSet.value <= c2.blocklistSet.value)
    && (c1.minSentiment.Some? ==> c2.minSentiment.Some? && c2.minSentiment.value >= c1.minSentiment.value)
    && (c1.maxSentiment.Some? ==> c2.maxSentiment.Some? && c2.maxSentiment.value <= c1.maxSentiment.value)
    && (c1.minPronounceability.Some? ==>
          c2.minPronounceability.Some? && c2.minPronounceability.value >= c1.minPronounceability.value)
  }

  /** Adding or tightening constraints never turns a rejection into an acceptance. */
  lemma TighterConstraintsAcceptLess(word: string, c1: Constraints, c2: Constraints, env: Oracles)
    requires Tightens(c2, c1)
    ensures ValidateWord(word, c2, env) ==> ValidateWord(word, c1, env)
  {
    ValidIffAllChecksPass(word, c1, env);
    ValidIffAllChecksPass(word, c2, env);
    if ValidateWord(word, c2, env) {
      forall k: Check
        ensures Passes(k, word, c1, env)
      {
        assert Passes(k, word, c2, env);
      }
    }
  }

  /** The dictionary and blocklist of the validator's unit test. */
  const TestConstraints := NoConstraints.(dictionarySet := Some({"common", "ordinary"}),
                                          blocklistSet := Some({"blocked", "forbidden"}))

  /** "zentoria" is accepted, "common" and "forbidden" are rejected, under the test's word sets. */
  lemma TestWordSets(env: Oracles)
    ensures ValidateWord("zentoria", TestConstraints, env)
    ensures !ValidateWord("common", TestConstraints, env)
    ensures !ValidateWord("forbidden", TestConstraints, env)
  {
    assert Lower("zentoria") == "zentoria";
    assert Lower("common") == "common";
    assert Lower("forbidden") == "forbidden";
  }

  /**
   * The unit test's neutral word: when no substring of "zxyabc" is a
   * lexicon key, its sentiment is 0.5 and it passes the range [0.4, 0.6].
   */
  lemma NeutralWordInNeutralRange(env: Oracles)
    requires forall p, j :: 0 <= p && p + 2 <= j <= 6 ==> "zxyabc"[p..j] !in env.lexicon
    ensures ValidateWord("zxyabc", NoConstraints.(minSentiment := Some(0.4), maxSentiment := Some(0.6)), env)
  {
    assert Lower("zxyabc") == "zxyabc";
    Sentiment.NoMorphemesNeutral("zxyabc", env.lexicon);
  }
}
