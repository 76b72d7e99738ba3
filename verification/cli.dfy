/**
 * The generate branch of the command-line interface (src/slithyt/cli.py):
 * a bounded retry loop that draws candidate words from the trained model,
 * keeps the validated ones it has not kept before, and gives up after one
 * hundred attempts per requested word.
 *
 * Training and drawing (the generator module) are outside this model: the
 * trained model is an Option (None for a falsy model) and the word drawn at
 * attempt k is `proposals(k)`.
 */
module Cli {
  import opened Wrappers
  import Validator

  /** The parsed generate arguments the loop uses, with the word sets already loaded. */
  datatype GenerateArgs = GenerateArgs(
    count: int,
    matchesRegex: Option<string>,
    rejectRegex: Option<string>,
    dictionary: Option<set<string>>,
    blocklist: Option<set<string>>,
    minSentiment: Option<real>,
    maxSentiment: Option<real>)

  /** How a generate run ends: training failed, or the words kept after some attempts. */
  datatype Outcome =
    | TrainingFailed
    | Generated(words: seq<string>, attempts: nat, shortfall: bool)

  /** The constraints the loop passes to the validator (no pronounceability floor). */
  function ConstraintsOf(args: GenerateArgs): (c: Validator.Constraints)
    ensures c.minPronounceability.None?
    ensures c.dictionarySet == args.dictionary && c.blocklistSet == args.blocklist
  {
    Validator.Constraints(args.matchesRegex, args.rejectRegex, args.dictionary, args.blocklist,
                          args.minSentiment, args.maxSentiment, None)
  }

  /**
   * The loop asks for no pronounceability floor, so its verdicts never
   * depend on the pronounceability score.
   */
  lemma GenerateIgnoresPronounceability(word: string, args: GenerateArgs, env: Validator.Oracles,
                                        score: string -> real)
    ensures Validator.ValidateWord(word, ConstraintsOf(args), env) ==
            Validator.ValidateWord(word, ConstraintsOf(args), env.(pronounceability := score))
  {
  }

  /** One hundred attempts per requested word. */
  function MaxAttempts(count: int): int {
    count * 100
  }

  /** The words kept after the first k attempts: each valid proposal not kept before is appended. */
  function Harvest(proposals: nat -> string, c: Validator.Constraints, env: Validator.Oracles, k: nat): seq<string>
    decreases k
  {
    if k == 0 then []
    else
      var kept := Harvest(proposals, c, env, k - 1);
      var word := proposals(k - 1);
      if Validator.ValidateWord(word, c, env) && word !in kept then kept + [word] else kept
  }

  predicate Distinct(s: seq<string>) {
    forall i, j :: 0 <= i < j < |s| ==> s[i] != s[j]
  }

  /** The kept words never repeat. */
  lemma {:induction false} HarvestDistinct(proposals: nat -> string, c: Validator.Constraints, env: Validator.Oracles, k: nat)
    ensures Distinct(Harvest(proposals, c, env, k))
    decreases k
  {
    if k > 0 {
      HarvestDistinct(proposals, c, env, k - 1);
    }
  }

  /**
   * The kept words are exactly the valid proposals of the first k
   * attempts: each kept word passed the validator, and each valid proposal
   * was kept.
   */
  lemma {:induction false} HarvestIsValidProposals(proposals: nat -> string, c: Validator.Constraints,
                                                   env: Validator.Oracles, k: nat)
    ensures forall w :: w in Harvest(proposals, c, env, k) <==>
      exists j :: 0 <= j < k && proposals(j) == w && Validator.ValidateWord(w, c, env)
    decreases k
  {
    if k > 0 {
      HarvestIsValidProposals(proposals, c, env, k - 1);
      var kept := Harvest(proposals, c, env, k - 1);
      forall w | w in Harvest(proposals, c, env, k)
        ensures exists j :: 0 <= j < k && proposals(j) == w && Validator.ValidateWord(w, c, env)
      {
        if w !in kept {
          assert proposals(k - 1) == w;
        }
      }
    }
  }

  /** Each attempt keeps at most one word, and never drops one. */
  lemma HarvestStep(proposals: nat -> string, c: Validator.Constraints, env: Validator.Oracles, k: nat)
    ensures var before := Harvest(proposals, c, env, k);
      var after := Harvest(proposals, c, env, k + 1);
      before <= after && |after| <= |before| + 1
  {
  }

  /**
   * The generate branch: a falsy model aborts before any attempt; otherwise
   * proposals are drawn until `count` words are kept or `count * 100`
   * attempts were made, and a shortfall is reported exactly when fewer than
   * `count` words were kept.
   */
  method GenerateWords<M>(model: Option<M>, args: GenerateArgs, proposals: nat -> string, env: Validator.Oracles)
    returns (outcome: Outcome)
    ensures outcome.TrainingFailed? <==> model.None?
    ensures outcome.Generated? ==>
      var c := ConstraintsOf(args);
      var words := outcome.words;
      var n := outcome.attempts;
      && words == Harvest(proposals, c, env, n)
      && n <= (if args.count > 0 then MaxAttempts(args.count) else 0)
      && (|words| >= args.count || n >= MaxAttempts(args.count))
      && (forall k :: 0 <= k < n ==> |Harvest(proposals, c, env, k)| < args.count)
      && (args.count >= 0 ==> |words| <= args.count)
      && (outcome.shortfall <==> |words| < args.count)
      && Distinct(words)
      && (forall w :: w in words ==> Validator.ValidateWord(w, c, env))
  {
    if model.None? {
      return TrainingFailed;
    }
    var c := ConstraintsOf(args);
    var generatedWords: seq<string> := [];
    var maxAttempts := MaxAttempts(args.count);
    var attempts: nat := 0;
    while |generatedWords| < args.count && attempts < maxAttempts
      invariant generatedWords == Harvest(proposals, c, env, attempts)
      invariant attempts <= maxAttempts || attempts == 0
      invariant forall k :: 0 <= k < attempts ==> |Harvest(proposals, c, env, k)| < args.count
      invariant args.count >= 0 ==> |generatedWords| <= args.count
      decreases maxAttempts - attempts
    {
      var word := proposals(attempts);
      if Validator.ValidateWord(word, c, env) {
        if word !in generatedWords {
          generatedWords := generatedWords + [word];
        }
      }
      attempts := attempts + 1;
    }
    HarvestDistinct(proposals, c, env, attempts);
    HarvestIsValidProposals(proposals, c, env, attempts);
    forall w | w in generatedWords
      ensures Validator.ValidateWord(w, c, env)
    {
      var j :| 0 <= j < attempts && proposals(j) == w && Validator.ValidateWord(w, c, env);
    }
    outcome := Generated(generatedWords, attempts, |generatedWords| < args.count);
  }
}
