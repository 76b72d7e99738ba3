# slithyt in Dafny

This project models the word-synthesis core of slithyt. slithyt invents English-looking words that rhyme with a target word. It also screens candidate words against a set of constraints.

The model covers six parts of the system:

- **Phonetic context model** (`PhoneticModel`, from `scripts/build_phonetic_model.py`).
  - Every corpus word's first pronunciation is padded with `n-1` start tokens `^` and one end token `$`.
  - A window of width `n-1` slides along the padded pronunciation.
  - The token after each window is appended to that context's list, so frequency is kept as duplicates.
- **Rhyme and sampling engine** (`Rhyme`, from `src/slithyt/rhyme.py`).
  - The rhyme signature is the suffix from the last phoneme with stress 1 or 2.
  - Word generation is a walk of at most ten steps through the context model, followed by the signature.
  - Transcription turns phonemes into letters through a spelling table.
- **Transcription table** (`TranscriptionModel`, from `scripts/build_transcription_model.py`).
  - Letter/phoneme co-occurrences are counted for words with as many letters as phonemes.
  - Each phoneme's letters are then ranked by a stable descending sort, and the top three are kept.
- **Morpheme sentiment** (`Sentiment`, from `src/slithyt/sentiment.py`).
  - A greedy, longest-match, left-to-right scan of the lower-cased word against a sentiment lexicon.
  - Matched morphemes are at least two characters long.
  - The result is the normalised mean of their scores, or 0.5 when nothing matches.
- **Word validator** (`Validator`, from `src/slithyt/validator.py`). A chain of checks, each of which can only reject: empty word, regex match and reject, dictionary, blocklist, sentiment range, pronounceability floor.
- **Generate loop** (`Cli`, from `src/slithyt/cli.py`). A bounded retry loop that keeps validated, not yet seen words until `count` are kept or `count * 100` attempts are spent.

The helper modules are:

- `Wrappers`: `Option`;
- `Text`: Python's ASCII `strip`, `rstrip` and `lower`;
- `Phonetics`: phonemes, stress digits, the sentinels and the pronunciation lexicon.

Collaborators outside the model are passed in as values:

- Each `random.choice(xs)` is `xs[d % |xs|]` for the next caller-supplied draw `d`. Every list the source samples is non-empty, so any draw is in range.
- `pronouncing.phones_for_word` becomes a `Lexicon` map from a word to its pronunciations, each already split into phonemes.
- `re.search(pattern, word, re.IGNORECASE)`, the VADER lexicon and the pronounceability score become fields of `Validator.Oracles`.
- The generator module's `train_model` becomes an `Option` model argument (`None` for a falsy model). Its `generate_word` becomes a proposal function: the word drawn at attempt `k` is `proposals(k)`.

Each imperative routine of the source is a Dafny `method` with the source's loop. It is proved equal to a specification function: `BuildFrom`, `RhymeSignature`, `Generation`, `Transcription`, `CountsFrom`/`Ranked`, `WordSentiment` and `Harvest`. The lemmas then prove the source's promises about those functions.

## Model

| member | source | states |
|---|---|---|
| Phonetics.LinePronunciation | scripts/build_phonetic_model.py:26-34 | a corpus line yields its stripped, lower-cased word and that word's first pronunciation; it is skipped exactly when it is blank or the word has no pronunciation |
| Phonetics.StripStress | src/slithyt/rhyme.py:84 | `rstrip('012')`: the result is a prefix of the phoneme, everything dropped is a stress digit, and the result does not end in one |
| PhoneticModel.BuildPhoneticModel | scripts/build_phonetic_model.py:16-46 | the nested loops build exactly `BuildFrom(lex, lines, n-1)`; every context has width n-1 and a non-empty list; with a sentinel-free lexicon no context holds `$` and `^` occurs only as a leading run |
| PhoneticModel.BuildFrom | scripts/build_phonetic_model.py:24-43 | the specification of the builder: the corpus lines folded in order, each adding its pronunciation's windows; its properties are the lemmas below |
| PhoneticModel.AddPronunciation | scripts/build_phonetic_model.py:35-43 | one pronunciation's padded windows recorded in order; `AddPronunciationTotal` and `RecordAllAppends` state what it adds |
| PhoneticModel.RecordWindows | scripts/build_phonetic_model.py:37-43 | the window loop for one pronunciation records every window in order, which is `AddPronunciation` |
| PhoneticModel.PaddedAt | scripts/build_phonetic_model.py:35 | the padded pronunciation has length k + L + 1: k start tokens, the phonemes, then one end token |
| PhoneticModel.WindowsOfPadded | scripts/build_phonetic_model.py:35-39 | a pronunciation of L phonemes gives L+1 windows; the first context is k start tokens, the last next-token is `$`, and every context has width k |
| PhoneticModel.WindowsWellShaped | scripts/build_phonetic_model.py:35-38 | with sentinel-free phonemes, no window context holds `$`, and `^` appears only as a leading run |
| PhoneticModel.RecordAllAppends | scripts/build_phonetic_model.py:41-43 | recording only appends: each context's old list is kept in order and followed by exactly the tokens recorded after it; a context is present afterwards iff it was before or something was recorded for it |
| PhoneticModel.RecordAllWellFormed | scripts/build_phonetic_model.py:38-43 | recording width-k windows keeps every context at width k with a non-empty list |
| PhoneticModel.RecordAllShaped | scripts/build_phonetic_model.py:38-43 | recording well-shaped windows keeps every context well shaped |
| PhoneticModel.SkippedLineUnchanged | scripts/build_phonetic_model.py:27-33 | a blank line or a word without a pronunciation leaves the model unchanged |
| PhoneticModel.BuildFromInvariants | scripts/build_phonetic_model.py:22-43 | every model built from any corpus has contexts of width n-1 and non-empty lists, and well-shaped contexts when the lexicon is sentinel-free |
| PhoneticModel.RecordAllTotal | scripts/build_phonetic_model.py:41-43 | recording w windows adds exactly w next-token entries over all contexts |
| PhoneticModel.AddPronunciationTotal | scripts/build_phonetic_model.py:35-43 | a pronunciation of L phonemes adds exactly L+1 next-token entries in total |
| Rhyme.GetPhoneticBreakdown | src/slithyt/rhyme.py:5-12 | None exactly when the word has no pronunciation; otherwise the first pronunciation |
| Rhyme.LastStressed | src/slithyt/rhyme.py:18-21 | the index of the rightmost phoneme ending in 1 or 2, or -1 exactly when there is none |
| Rhyme.RhymeSignature | src/slithyt/rhyme.py:14-26 | the specification of the signature: the suffix from `LastStressed`, or None; `RhymeSignatureSpec` states its meaning |
| Rhyme.GetRhymeSignature | src/slithyt/rhyme.py:14-26 | the loop computes `RhymeSignature`; None exactly when no phoneme ends in 1 or 2; otherwise a non-empty suffix whose first phoneme is stressed and whose later phonemes are not |
| Rhyme.RhymeSignatureSpec | src/slithyt/rhyme.py:18-26 | the same two directions for the specification function: None iff no stressed phoneme; otherwise the suffix from the rightmost stressed phoneme |
| Rhyme.SignatureOfSignature | src/slithyt/rhyme.py:18-26 | a signature is its own signature |
| Rhyme.LastStressedAppend | src/slithyt/rhyme.py:18-21 | behind any prefix, the rightmost stressed index of a suffix is shifted by the prefix's length |
| Rhyme.HelloSignature | src/slithyt/rhyme.py:14-26 | HH EH1 L OW0 rhymes on EH1 L OW0 |
| Rhyme.CatSignature | src/slithyt/rhyme.py:14-26 | K AE1 T rhymes on AE1 T |
| Rhyme.UnstressedHasNoSignature | src/slithyt/rhyme.py:23-24 | K AE0 T has no signature: stress 0 does not count |
| Rhyme.Choose | src/slithyt/rhyme.py:55 | the drawn token is a member of the context's list |
| Rhyme.SlideAsWritten | src/slithyt/rhyme.py:61 | the source's slide: it ends with the drawn token and keeps a non-empty context's width, but turns the empty context into a one-token context |
| Rhyme.Slide | src/slithyt/rhyme.py:61 | the corrected slide keeps the context width; it agrees with the source's slide whenever the context is non-empty |
| Rhyme.WalkWith | src/slithyt/rhyme.py:51-61 | the walk of at most `steps` draws with a given slide: None on an absent context, otherwise the tokens drawn before `$`; a successful walk is at most `steps` long and holds no `$` |
| Rhyme.Walk | src/slithyt/rhyme.py:51-61 | a successful walk has at most the given number of phonemes and never contains `$` |
| Rhyme.GeneratePhoneticWord | src/slithyt/rhyme.py:40-63 | the loop computes `Generation`; an empty model gives None; on success the word ends with exactly the signature, and the generated part has at most 10 phonemes and no `$` |
| Rhyme.Generation | src/slithyt/rhyme.py:40-63 | the specification of generate_phonetic_word: None for an empty model or a dead end, otherwise the walked phonemes followed by the signature; `GenerationShape`, `WalkFollowsModel` and `GeneratedWordRhymes` state its meaning |
| Rhyme.GenerationShape | src/slithyt/rhyme.py:44-63 | the same facts for the specification function `Generation` |
| Rhyme.WalkDeadEnd | src/slithyt/rhyme.py:52-53 | an absent context fails the whole walk with no partial output |
| Rhyme.WalkReachesEnd | src/slithyt/rhyme.py:57-58 | drawing `$` ends the walk with what was generated so far |
| Rhyme.WalkAdvances | src/slithyt/rhyme.py:55-61 | drawing another token appends it and continues from the slid context |
| Rhyme.WalkExhausted | src/slithyt/rhyme.py:51-63 | after ten draws the walk ends with what was generated |
| Rhyme.WalkFollowsModel | src/slithyt/rhyme.py:48-61 | every generated phoneme was drawn from, and is a member of, the list of its context; that context is the last n-1 tokens of the start padding followed by the phonemes generated before it |
| Rhyme.SignatureAfterPrefix | src/slithyt/rhyme.py:14-26 | a signature behind any prefix is the signature of the whole |
| Rhyme.GeneratedWordRhymes | src/slithyt/rhyme.py:40-63 | a word generated for a target's signature has that same rhyme signature |
| Rhyme.UnigramSlideDeadEnds | src/slithyt/rhyme.py:61 | with n = 1 the source's slide dead-ends on a model that the corrected slide walks to completion (see Findings) |
| Rhyme.WalkAsWritten | src/slithyt/rhyme.py:51-61 | for n >= 2 the walk with the source's slide equals the modelled walk |
| Rhyme.Spelling | src/slithyt/rhyme.py:84-91 | a phoneme whose stress-stripped base is missing or maps to an empty list gives `?`; otherwise one of the table's spellings; a one-element list gives that element |
| Rhyme.TranscribeWord | src/slithyt/rhyme.py:77-93 | the loop computes `Transcription`: one chunk per phoneme, in order |
| Rhyme.Transcription | src/slithyt/rhyme.py:81-93 | the specification of transcribe_word: the concatenated `Spelling` of each phoneme in order |
| Rhyme.TranscriptionSnoc | src/slithyt/rhyme.py:82-93 | transcribing one more phoneme appends exactly its chunk |
| Rhyme.TranscriptionLength | src/slithyt/rhyme.py:82-93 | with single-letter table entries, the output has one letter per phoneme |
| Rhyme.TranscriptionDeterministic | src/slithyt/rhyme.py:84-91 | where every phoneme's base has a single spelling, the draws do not change the transcription |
| TranscriptionModel.Bump | scripts/build_transcription_model.py:45 | a bumped tally is never empty |
| TranscriptionModel.BumpCount | scripts/build_transcription_model.py:45 | `+= 1` adds one to the letter's count and changes no other count |
| TranscriptionModel.BumpKeepsOrder | scripts/build_transcription_model.py:45 | bumping keeps the tally's letters in first-seen order, and appends a new letter with count 1 |
| TranscriptionModel.BumpOk | scripts/build_transcription_model.py:45 | bumping keeps a tally non-empty, one entry per letter, every count positive |
| TranscriptionModel.AddAlignedCounts | scripts/build_transcription_model.py:42-45 | the aligned positions of a word add exactly their phoneme-base/letter co-occurrences to the counts |
| TranscriptionModel.AddWordCounts | scripts/build_transcription_model.py:35-45 | a word whose letter count differs from its phoneme count adds nothing; otherwise each position adds one count to `model[base(p_i)][word[i]]` |
| TranscriptionModel.CountsFrom | scripts/build_transcription_model.py:25-45 | the specification of the counting loops: the corpus lines folded in order; `CountsFromHits` states what each count is |
| TranscriptionModel.CountsFromHits | scripts/build_transcription_model.py:25-45 | over a whole corpus, the count of (phoneme base b, letter l) is exactly the number of positions in aligned words where b meets l |
| TranscriptionModel.HitsObserved | scripts/build_transcription_model.py:41-45 | a positive corpus count of (b, l) names a corpus line whose word is aligned and has l where its phoneme has base b |
| TranscriptionModel.AddAlignedOk | scripts/build_transcription_model.py:42-45 | counting keeps the tallies well formed and the keys free of trailing stress digits |
| TranscriptionModel.CountsFromOk | scripts/build_transcription_model.py:25-45 | the counts of any corpus have stress-free keys and well-formed tallies |
| TranscriptionModel.InsertByCount | scripts/build_transcription_model.py:50 | inserting adds exactly one entry |
| TranscriptionModel.SortByCount | scripts/build_transcription_model.py:50 | the sort keeps the tally's length |
| TranscriptionModel.InsertPermutes | scripts/build_transcription_model.py:50 | insertion adds exactly the inserted entry to the multiset |
| TranscriptionModel.SortPermutes | scripts/build_transcription_model.py:50 | the sort is a permutation of the tally |
| TranscriptionModel.InsertSorted | scripts/build_transcription_model.py:50 | inserting into a list sorted by descending count keeps it sorted |
| TranscriptionModel.SortSorted | scripts/build_transcription_model.py:50 | the sorted tally has non-increasing counts |
| TranscriptionModel.InsertStable | scripts/build_transcription_model.py:50 | insertion puts the new entry before every equal-count entry, and keeps the order of the others |
| TranscriptionModel.SortStable | scripts/build_transcription_model.py:45-50 | ties keep first-seen order: for every count, the entries with that count appear in the same order as in the tally |
| TranscriptionModel.InsertDistinct | scripts/build_transcription_model.py:50 | inserting a new letter keeps the letters distinct |
| TranscriptionModel.SortDistinct | scripts/build_transcription_model.py:50 | the sort keeps the letters distinct |
| TranscriptionModel.TopThree | scripts/build_transcription_model.py:50-51 | `sorted_spellings[:3]`; `TopThreeSpec` states its meaning |
| TranscriptionModel.Ranked | scripts/build_transcription_model.py:51 | the letters of the top three entries; `RankedSpec` states its meaning |
| TranscriptionModel.EntryCount | scripts/build_transcription_model.py:45-50 | in a tally with one entry per letter, an entry's count is its letter's count |
| TranscriptionModel.CountedLetterHasEntry | scripts/build_transcription_model.py:45-50 | a letter with a positive count has a tally entry carrying that count |
| TranscriptionModel.TopThreeSpec | scripts/build_transcription_model.py:49-51 | the kept entries number min(size, 3); each is an observed entry with count >= 1; their letters are distinct; their counts do not increase; no dropped entry has a higher count than a kept one |
| TranscriptionModel.TopThreeFromSort | scripts/build_transcription_model.py:50-51 | the kept entries are entries of the tally with positive counts |
| TranscriptionModel.TopThreeDominates | scripts/build_transcription_model.py:50-51 | no dropped entry has a higher count than a kept one |
| TranscriptionModel.RankedSpec | scripts/build_transcription_model.py:51 | a final list has 1 to 3 entries; each is the one-letter string of a kept entry, in rank order; no two are equal |
| TranscriptionModel.KeptEntryHits | scripts/build_transcription_model.py:45-51 | each kept entry's count is its letter's number of co-occurrences with the phoneme over the corpus, and at least 1 |
| TranscriptionModel.TableLettersObserved | scripts/build_transcription_model.py:41-51 | every spelling kept for phoneme base b is a single letter that meets b at some position of some aligned corpus word |
| TranscriptionModel.TableOrderedByCorpusCount | scripts/build_transcription_model.py:45-51 | the spellings kept for b come in non-increasing order of their corpus co-occurrence counts with b |
| TranscriptionModel.TableKeepsMostFrequent | scripts/build_transcription_model.py:45-51 | no letter seen with b but left out of its spellings co-occurs with b more often than a kept letter |
| TranscriptionModel.CountAligned | scripts/build_transcription_model.py:41-45 | the counting loop over an aligned word computes `AddAligned` |
| TranscriptionModel.RankAll | scripts/build_transcription_model.py:48-51 | the ranking loop gives every counted phoneme, and only those, the list `Ranked` of its tally |
| TranscriptionModel.BuildTranscriptionModel | scripts/build_transcription_model.py:16-54 | the table has exactly the counted phonemes as keys, each mapped to `Ranked` of its counts; every list has 1 to 3 entries; no key ends in a stress digit; every spelling is a single letter |
| Sentiment.NormalizeScore | src/slithyt/sentiment.py:8-15 | the result lies in [0, 1] iff the score lies in [-4, 4], and is 0.5 iff the score is 0 |
| Sentiment.LongestEnd | src/slithyt/sentiment.py:35-39 | the inner loop finds the longest lexicon key of length >= 2 starting at i, or reports that none exists |
| Sentiment.LongestMatch | src/slithyt/sentiment.py:34-39 | the inner loop's `best_match` is that longest key, or empty when there is none |
| Sentiment.Matches | src/slithyt/sentiment.py:31-45 | the morphemes of the greedy scan from position i; `MatchesAreLongestKeys`, `MatchesInOrder` and `GapsHoldNoKey` state their meaning |
| Sentiment.WordSentiment | src/slithyt/sentiment.py:29-53 | the specification of analyze_word_sentiment: 0.5 without morphemes, otherwise the normalised mean of their scores |
| Sentiment.AnalyzeWordSentiment | src/slithyt/sentiment.py:17-53 | the scan computes `WordSentiment` |
| Sentiment.MatchesAreLongestKeys | src/slithyt/sentiment.py:35-39 | every morpheme is a lexicon key of length >= 2 inside the word, with that key's score, and no longer key starts at the same place |
| Sentiment.MatchesInOrder | src/slithyt/sentiment.py:32-45 | the morphemes are non-empty, in left-to-right order and non-overlapping |
| Sentiment.GapsHoldNoKey | src/slithyt/sentiment.py:44-45 | no key of length >= 2 starts at any position that no morpheme covers |
| Sentiment.NoMorphemesNeutral | src/slithyt/sentiment.py:47-48 | a word with no lexicon key among its substrings is neutral (0.5) |
| Sentiment.SumBounds | src/slithyt/sentiment.py:51 | a sum of terms between lo and hi lies between n*lo and n*hi |
| Sentiment.MeanBounds | src/slithyt/sentiment.py:51 | a mean lies between any bounds of its terms |
| Sentiment.SentimentRange | src/slithyt/sentiment.py:47-53 | with lexicon scores in [-4, 4], the sentiment lies in [0, 1] |
| Sentiment.SentimentIgnoresCase | src/slithyt/sentiment.py:29 | a word and its lower-cased form score alike |
| Validator.ValidIffAllChecksPass | src/slithyt/validator.py:62-94 | a word is valid exactly when it meets every requirement asked for, so the order of the checks does not matter |
| Validator.ValidateWord | src/slithyt/validator.py:36-94 | validate_word: the checks in the source's order, each able only to reject; `ValidIffAllChecksPass` and the lemmas below state its meaning |
| Validator.EmptyWordRejected | src/slithyt/validator.py:62-63 | the empty word is rejected under any constraints |
| Validator.DictionaryWordRejected | src/slithyt/validator.py:65-74 | a word whose lower-case form is in the dictionary is rejected |
| Validator.BlockedWordRejected | src/slithyt/validator.py:77-78 | a word whose lower-case form is on the blocklist is rejected |
| Validator.UnconstrainedAcceptsNonEmpty | src/slithyt/validator.py:36-94 | with every argument None, exactly the non-empty words are valid |
| Validator.ValidWordWithinSentimentBounds | src/slithyt/validator.py:81-86 | a valid word's sentiment meets the given minimum and maximum |
| Validator.ValidWordRespectsPatterns | src/slithyt/validator.py:68-71 | a valid word matches the match pattern and not the reject pattern, when given |
| Validator.TighterConstraintsAcceptLess | src/slithyt/validator.py:62-94 | adding or tightening constraints never turns a rejection into an acceptance |
| Validator.TestWordSets | tests/test_validator.py:22-28 | with dictionary {common, ordinary} and blocklist {blocked, forbidden}, `zentoria` is accepted and `common` and `forbidden` are rejected |
| Validator.NeutralWordInNeutralRange | tests/test_validator.py:57-58 | a word containing no lexicon key passes the sentiment range [0.4, 0.6] |
| Cli.HarvestDistinct | src/slithyt/cli.py:78-79 | the kept words never repeat |
| Cli.HarvestIsValidProposals | src/slithyt/cli.py:67-79 | the kept words are exactly the validated proposals of the attempts made |
| Cli.HarvestStep | src/slithyt/cli.py:66-82 | each attempt keeps at most one word and never drops one |
| Cli.Harvest | src/slithyt/cli.py:66-82 | the specification of the loop: the words kept after k attempts, each valid proposal not kept before appended |
| Cli.GenerateIgnoresPronounceability | src/slithyt/cli.py:69-77 | the loop passes no pronounceability floor, so its verdicts never depend on the pronounceability score |
| Cli.GenerateWords | src/slithyt/cli.py:57-86 | a falsy model aborts before any attempt; otherwise, with attempts going up by one per round: at most count*100 attempts; every attempt before the last began with fewer than count words; at most count words, all distinct and all validated; a shortfall is reported exactly when fewer than count were kept |

## Left out

- File and persistence I/O is not modelled: pickle loading and saving, the build scripts' `__main__` blocks, corpus reading through `utils.open_any`, and `load_word_set`. Corpora are sequences of lines, and word sets are given as sets.
- `pronouncing.phones_for_word` is a lexicon map from words to pronunciations already split into phonemes.
- Regex semantics, the VADER lexicon global and `pronounce.score_pronounceability` are not modelled. They are parameters of `Validator.Oracles` and `Sentiment.WordSentiment`.
- Floating point is not modelled: sentiment means and normalisation use exact reals.
- `strip` and `lower` cover ASCII only, plus the 0x1C-0x1F separators for whitespace. Unicode case mapping and Unicode whitespace are not modelled.
- `random.choice` is a caller-supplied draw reduced modulo the list's length, not a random source.
- Rhyme.GeneratePhoneticWord: requires n >= 1. For n = 0, Python's `["^"] * -1` is empty and the function then behaves as for n = 1.
- Rhyme.GeneratePhoneticWord: the walk slides with the corrected `Slide`. The source's slide is `Rhyme.SlideAsWritten` (see Findings).
- Rhyme.GetRhymeSignature: requires every phoneme to be non-empty. `p[-1]` raises IndexError on an empty string, and pronunciations never contain one.
- The `cli.py` plumbing outside the generate loop is not modelled: argparse, printing, the `importlib.resources` default paths and the `validate` subcommand. The generator module is not part of this model, so `train_model` is an `Option` model and `generate_word` a proposal function.
- Cli.GenerateWords: the source calls `validate_word` with `dictionary_path=`/`blocklist_path=` keyword arguments, which `validate_word` does not accept. The tests do the same. The model follows `validate_word`'s own signature and passes the loaded word sets.
- `scripts/purify_corpus.py` and `scripts/export_cmu_words.py` are file-I/O wrappers around the `pronouncing` library and are not part of this model.

## Findings

| source | as written | input that shows it | evidently intended | confidence | as-written member | corrected member |
|---|---|---|---|---|---|---|
| src/slithyt/rhyme.py:61 | `tuple(list(current_prefix[1:]) + [next_phoneme])` keeps the context's width only when it is non-empty; with n = 1 the empty context `()` grows to a one-token context | model `{(): ["K", "$"]}` (a unigram model), draws 0 then 1: the second lookup of `("K",)` misses and the word fails | the context keeps its width n-1, so a unigram walk always looks up `()` and here yields `K` | not executed | Rhyme.SlideAsWritten, Rhyme.UnigramSlideDeadEnds | Rhyme.Slide, Rhyme.WalkAsWritten |
