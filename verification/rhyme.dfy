/**
 * The rhyme and sampling engine of src/slithyt/rhyme.py: the rhyme
 * signature of a pronunciation, the bounded random walk over a phonetic
 * context model that ends in a given signature, and the phoneme-to-letter
 * transcription.
 *
 * `random.choice(xs)` is modelled by a caller-supplied draw `d`, which picks
 * `xs[d % |xs|]`; every element can be picked, and equal draws give equal
 * results.
 */
module Rhyme {
  import opened Wrappers
  import opened Phonetics
  import opened PhoneticModel

  // ---------------------------------------------------------------------------
  // get_phonetic_breakdown / get_rhyme_signature
  // ---------------------------------------------------------------------------

  /** The index of the rightmost phoneme with stress 1 or 2, or -1 when there is none. */
  function LastStressed(ps: seq<Phoneme>): (r: int)
    ensures -1 <= r < |ps|
    ensures r == -1 <==> forall j :: 0 <= j < |ps| ==> !IsStressed(ps[j])
    ensures r >= 0 ==> IsStressed(ps[r]) && forall j :: r < j < |ps| ==> !IsStressed(ps[j])
    decreases |ps|
  {
    if |ps| == 0 then -1
    else if IsStressed(ps[|ps| - 1]) then |ps| - 1
    else LastStressed(ps[..|ps| - 1])
  }

  /** The rhyme signature: the suffix from the last stressed vowel, or None. */
  function RhymeSignature(ps: seq<Phoneme>): Option<seq<Phoneme>> {
    var k := LastStressed(ps);
    if k < 0 then None else Some(ps[k..])
  }

  /** `s` is a suffix of `ps` whose first phoneme is stressed and whose later ones are not. */
  ghost predicate IsSignatureOf(s: seq<Phoneme>, ps: seq<Phoneme>) {
    && 0 < |s| <= |ps|
    && s == ps[|ps| - |s|..]
    && IsStressed(s[0])
    && forall j :: 1 <= j < |s| ==> !IsStressed(s[j])
  }

  /** get_phonetic_breakdown: the first pronunciation of a word, or None. */
  method GetPhoneticBreakdown(lex: Lexicon, word: string) returns (r: Option<Pronunciation>)
    ensures r.None? <==> word !in lex || |lex[word]| == 0
    ensures r.Some? ==> r.value == lex[word][0]
  {
    r := FirstPronunciation(lex, word);
  }

  /**
   * get_rhyme_signature. Python reads `p[-1]` of every phoneme, so every
   * phoneme must be non-empty.
   */
  method GetRhymeSignature(phonemes: seq<Phoneme>) returns (sig: Option<seq<Phoneme>>)
    requires forall i :: 0 <= i < |phonemes| ==> |phonemes[i]| > 0
    ensures sig == RhymeSignature(phonemes)
    ensures sig.None? <==> forall i :: 0 <= i < |phonemes| ==> !IsStressed(phonemes[i])
    ensures sig.Some? ==> IsSignatureOf(sig.value, phonemes)
  {
    var lastStressedVowelIndex := -1;
    var i := 0;
    while i < |phonemes|
      invariant 0 <= i <= |phonemes|
      invariant lastStressedVowelIndex == LastStressed(phonemes[..i])
    {
      var p := phonemes[i];
      if p[|p| - 1] == '1' || p[|p| - 1] == '2' {
        lastStressedVowelIndex := i;
      }
      assert phonemes[..i + 1][..i] == phonemes[..i];
      i := i + 1;
    }
    assert phonemes[..i] == phonemes;
    if lastStressedVowelIndex == -1 {
      return None;
    }
    sig := Some(phonemes[lastStressedVowelIndex..]);
    RhymeSignatureSpec(phonemes);
  }

  /** A signature is exactly the suffix from the rightmost stressed phoneme. */
  lemma RhymeSignatureSpec(ps: seq<Phoneme>)
    ensures RhymeSignature(ps).None? <==> forall i :: 0 <= i < |ps| ==> !IsStressed(ps[i])
    ensures RhymeSignature(ps).Some? ==> IsSignatureOf(RhymeSignature(ps).value, ps)
  {
    var k := LastStressed(ps);
    if k >= 0 {
      var s := ps[k..];
      assert s == ps[|ps| - |s|..];
      assert forall j :: 1 <= j < |s| ==> s[j] == ps[k + j];
    }
  }

  /** A signature is its own signature. */
  lemma SignatureOfSignature(s: seq<Phoneme>, ps: seq<Phoneme>)
    requires IsSignatureOf(s, ps)
    ensures RhymeSignature(s) == Some(s)
  {
    assert LastStressed(s) == 0;
  }

  /** Appending a signature to any prefix makes it the signature of the whole. */
  lemma {:induction false} LastStressedAppend(g: seq<Phoneme>, s: seq<Phoneme>)
    requires LastStressed(s) >= 0
    ensures LastStressed(g + s) == |g| + LastStressed(s)
    decreases |s|
  {
    var gs := g + s;
    if !IsStressed(s[|s| - 1]) {
      assert gs[|gs| - 1] == s[|s| - 1];
      assert gs[..|gs| - 1] == g + s[..|s| - 1];
      LastStressedAppend(g, s[..|s| - 1]);
    }
  }

  /** "hello" (HH EH1 L OW0) rhymes on EH1 L OW0. */
  lemma HelloSignature()
    ensures RhymeSignature(["HH", "EH1", "L", "OW0"]) == Some(["EH1", "L", "OW0"])
  {
    var ps := ["HH", "EH1", "L", "OW0"];
    assert !IsStressed(ps[3]) && IsStressed(ps[2 - 1]);
    assert ps[..3] == ["HH", "EH1", "L"];
    assert !IsStressed(ps[2]);
    assert ps[..3][..2] == ["HH", "EH1"];
  }

  /** "cat" (K AE1 T) rhymes on AE1 T. */
  lemma CatSignature()
    ensures RhymeSignature(["K", "AE1", "T"]) == Some(["AE1", "T"])
  {
    var ps := ["K", "AE1", "T"];
    assert !IsStressed(ps[2]) && IsStressed(ps[1]);
    assert ps[..2] == ["K", "AE1"];
  }

  /** K AE0 T has no primary or secondary stress, hence no signature. */
  lemma UnstressedHasNoSignature()
    ensures RhymeSignature(["K", "AE0", "T"]) == None
  {
    var ps := ["K", "AE0", "T"];
    assert !IsStressed(ps[0]) && !IsStressed(ps[1]) && !IsStressed(ps[2]);
  }

  // ---------------------------------------------------------------------------
  // generate_phonetic_word
  // ---------------------------------------------------------------------------

  /** The number of walk steps of generate_phonetic_word. */
  const MAX_STEPS: nat := 10

  /** Every listed context can be sampled from (random.choice rejects an empty list). */
  ghost predicate Drawable(model: ContextModel) {
    forall c :: c in model ==> |model[c]| > 0
  }

  /** `random.choice(choices)` under draw `d`. */
  function Choose(choices: seq<Phoneme>, d: nat): (t: Phoneme)
    requires |choices| > 0
    ensures t in choices
  {
    choices[d % |choices|]
  }

  /**
   * `tuple(list(current_prefix[1:]) + [next_phoneme])` exactly as written:
   * on an empty context it yields a one-token context.
   */
  function SlideAsWritten(ctx: Context, t: Phoneme): (r: Context)
    ensures |r| == if |ctx| == 0 then 1 else |ctx|
    ensures r[|r| - 1] == t
  {
    if |ctx| == 0 then [t] else ctx[1..] + [t]
  }

  /** The context after `t`: the last |ctx| tokens of ctx + [t]; its width never changes. */
  function Slide(ctx: Context, t: Phoneme): (r: Context)
    ensures |r| == |ctx|
    ensures |ctx| > 0 ==> r == SlideAsWritten(ctx, t)
  {
    (ctx + [t])[1..]
  }

  /**
   * The walk of at most `steps` draws from context `ctx`, sliding with
   * `slide`: None on a dead end, otherwise the tokens drawn before END or
   * before the step budget ran out.
   */
  function WalkWith(slide: (Context, Phoneme) -> Context, model: ContextModel, ctx: Context,
                    draws: seq<nat>, steps: nat): (r: Option<seq<Phoneme>>)
    requires Drawable(model) && |draws| >= steps
    ensures r.Some? ==> |r.value| <= steps && END !in r.value
    decreases steps
  {
    if steps == 0 then Some([])
    else if ctx !in model then None
    else
      var t := Choose(model[ctx], draws[0]);
      if t == END then Some([])
      else match WalkWith(slide, model, slide(ctx, t), draws[1..], steps - 1)
        case None => None
        case Some(rest) => Some([t] + rest)
  }

  function Walk(model: ContextModel, ctx: Context, draws: seq<nat>, steps: nat): (r: Option<seq<Phoneme>>)
    requires Drawable(model) && |draws| >= steps
    ensures r.Some? ==> |r.value| <= steps && END !in r.value
  {
    WalkWith(Slide, model, ctx, draws, steps)
  }

  /** The context after the first i generated tokens: the last |ctx| tokens of ctx + g[..i]. */
  function ContextAt(ctx: Context, g: seq<Phoneme>, i: nat): Context
    requires i <= |g|
  {
    (ctx + g[..i])[i..]
  }

  /** The outcome of generate_phonetic_word for a model, a signature, an order and the draws. */
  function Generation(model: ContextModel, rhymeSignature: seq<Phoneme>, n: nat, draws: seq<nat>): Option<seq<Phoneme>>
    requires n >= 1 && Drawable(model) && |draws| >= MAX_STEPS
  {
    if |model| == 0 then None
    else match Walk(model, Repeat(START, n - 1), draws, MAX_STEPS)
      case None => None
      case Some(g) => Some(g + rhymeSignature)
  }

  function Prepend(prefix: seq<Phoneme>, o: Option<seq<Phoneme>>): Option<seq<Phoneme>> {
    match o
    case None => None
    case Some(rest) => Some(prefix + rest)
  }

  /**
   * generate_phonetic_word: walk at most 10 steps from n-1 START tokens,
   * fail on an empty model or an unseen context, stop on END, and append
   * the rhyme signature to whatever was generated.
   */
  method GeneratePhoneticWord(model: ContextModel, rhymeSignature: seq<Phoneme>, n: nat, draws: seq<nat>)
    returns (word: Option<seq<Phoneme>>)
    requires n >= 1 && Drawable(model) && |draws| >= MAX_STEPS
    ensures word == Generation(model, rhymeSignature, n, draws)
    ensures |model| == 0 ==> word.None?
    ensures word.Some? ==>
      && |rhymeSignature| <= |word.value| <= |rhymeSignature| + MAX_STEPS
      && word.value[|word.value| - |rhymeSignature|..] == rhymeSignature
      && END !in word.value[..|word.value| - |rhymeSignature|]
  {
    if |model| == 0 {
      return None;
    }
    var prefixLen := n - 1;
    var currentPrefix := Repeat(START, prefixLen);
    ghost var start := currentPrefix;
    var generatedPhonemes: seq<Phoneme> := [];
    var step := 0;
    assert draws[0..] == draws;
    PrependNothing(Walk(model, start, draws, MAX_STEPS));
    while step < MAX_STEPS
      invariant 0 <= step <= MAX_STEPS && |generatedPhonemes| == step
      invariant Walk(model, start, draws, MAX_STEPS) ==
                Prepend(generatedPhonemes, Walk(model, currentPrefix, draws[step..], MAX_STEPS - step))
    {
      if currentPrefix !in model {
        WalkDeadEnd(model, currentPrefix, draws, step, generatedPhonemes);
        return None;
      }
      var nextPhoneme := Choose(model[currentPrefix], draws[step]);
      if nextPhoneme == END {
        WalkReachesEnd(model, currentPrefix, draws, step, generatedPhonemes);
        break;
      }
      WalkAdvances(model, currentPrefix, draws, step, generatedPhonemes);
      generatedPhonemes := generatedPhonemes + [nextPhoneme];
      currentPrefix := Slide(currentPrefix, nextPhoneme);
      step := step + 1;
    }
    if step == MAX_STEPS {
      WalkExhausted(model, currentPrefix, draws, generatedPhonemes);
    }
    word := Some(generatedPhonemes + rhymeSignature);
    GenerationShape(model, rhymeSignature, n, draws);
  }

  /**
   * What a generation is: nothing from an empty model, otherwise at most
   * MAX_STEPS generated phonemes, none of them END, followed by the signature.
   */
  lemma GenerationShape(model: ContextModel, rhymeSignature: seq<Phoneme>, n: nat, draws: seq<nat>)
    requires n >= 1 && Drawable(model) && |draws| >= MAX_STEPS
    ensures |model| == 0 ==> Generation(model, rhymeSignature, n, draws).None?
    ensures var word := Generation(model, rhymeSignature, n, draws);
      word.Some? ==>
      && |rhymeSignature| <= |word.value| <= |rhymeSignature| + MAX_STEPS
      && word.value[|word.value| - |rhymeSignature|..] == rhymeSignature
      && END !in word.value[..|word.value| - |rhymeSignature|]
  {
    var word := Generation(model, rhymeSignature, n, draws);
    if word.Some? {
      var g := Walk(model, Repeat(START, n - 1), draws, MAX_STEPS).value;
      assert word.value == g + rhymeSignature;
      assert word.value[..|word.value| - |rhymeSignature|] == g;
      assert word.value[|word.value| - |rhymeSignature|..] == rhymeSignature;
    }
  }

  /** The loop's exits: an unseen context fails the whole walk. */
  lemma WalkDeadEnd(model: ContextModel, ctx: Context, draws: seq<nat>, step: nat, g: seq<Phoneme>)
    requires Drawable(model) && step < MAX_STEPS <= |draws| && ctx !in model
    ensures Prepend(g, Walk(model, ctx, draws[step..], MAX_STEPS - step)) == None
  {
  }

  /** Drawing END ends the walk with what was generated so far. */
  lemma WalkReachesEnd(model: ContextModel, ctx: Context, draws: seq<nat>, step: nat, g: seq<Phoneme>)
    requires Drawable(model) && step < MAX_STEPS <= |draws| && ctx in model
    requires Choose(model[ctx], draws[step]) == END
    ensures Prepend(g, Walk(model, ctx, draws[step..], MAX_STEPS - step)) == Some(g)
  {
    assert draws[step..][0] == draws[step];
    assert g + [] == g;
  }

  /** Drawing another token appends it and slides the context. */
  lemma WalkAdvances(model: ContextModel, ctx: Context, draws: seq<nat>, step: nat, g: seq<Phoneme>)
    requires Drawable(model) && step < MAX_STEPS <= |draws| && ctx in model
    requires Choose(model[ctx], draws[step]) != END
    ensures var t := Choose(model[ctx], draws[step]);
      Prepend(g, Walk(model, ctx, draws[step..], MAX_STEPS - step)) ==
      Prepend(g + [t], Walk(model, Slide(ctx, t), draws[step + 1..], MAX_STEPS - step - 1))
  {
    var t := Choose(model[ctx], draws[step]);
    assert draws[step..][0] == draws[step] && draws[step..][1..] == draws[step + 1..];
    WalkStep(model, ctx, draws[step..], MAX_STEPS - step);
    PrependTwice(g, [t], Walk(model, Slide(ctx, t), draws[step + 1..], MAX_STEPS - step - 1));
  }

  /** After MAX_STEPS draws the walk ends with what was generated. */
  lemma WalkExhausted(model: ContextModel, ctx: Context, draws: seq<nat>, g: seq<Phoneme>)
    requires Drawable(model) && MAX_STEPS <= |draws|
    ensures Prepend(g, Walk(model, ctx, draws[MAX_STEPS..], 0)) == Some(g)
  {
    assert g + [] == g;
  }

  lemma PrependNothing(o: Option<seq<Phoneme>>)
    ensures Prepend([], o) == o
  {
    if o.Some? {
      assert [] + o.value == o.value;
    }
  }

  lemma PrependTwice(a: seq<Phoneme>, b: seq<Phoneme>, o: Option<seq<Phoneme>>)
    ensures Prepend(a, Prepend(b, o)) == Prepend(a + b, o)
  {
    if o.Some? {
      assert a + (b + o.value) == (a + b) + o.value;
    }
  }

  /** One step of the walk that draws a token other than END. */
  lemma WalkStep(model: ContextModel, ctx: Context, draws: seq<nat>, steps: nat)
    requires Drawable(model) && |draws| >= steps > 0 && ctx in model
    requires Choose(model[ctx], draws[0]) != END
    ensures var t := Choose(model[ctx], draws[0]);
      Walk(model, ctx, draws, steps) == Prepend([t], Walk(model, Slide(ctx, t), draws[1..], steps - 1))
  {
  }

  /**
   * Each generated token is the draw from the model's list for the context
   * at that point, and that context is the last |ctx| tokens of ctx followed
   * by the tokens generated so far.
   */
  lemma {:induction false} WalkFollowsModel(model: ContextModel, ctx: Context, draws: seq<nat>, steps: nat, i: nat)
    requires Drawable(model) && |draws| >= steps
    requires Walk(model, ctx, draws, steps).Some? && i < |Walk(model, ctx, draws, steps).value|
    ensures var g := Walk(model, ctx, draws, steps).value;
      && ContextAt(ctx, g, i) in model
      && g[i] == Choose(model[ContextAt(ctx, g, i)], draws[i])
      && g[i] in model[ContextAt(ctx, g, i)]
    decreases steps
  {
    var g := Walk(model, ctx, draws, steps).value;
    var t := Choose(model[ctx], draws[0]);
    var rest := Walk(model, Slide(ctx, t), draws[1..], steps - 1).value;
    assert g == [t] + rest;
    if i == 0 {
      assert ContextAt(ctx, g, 0) == ctx;
    } else {
      WalkFollowsModel(model, Slide(ctx, t), draws[1..], steps - 1, i - 1);
      assert draws[1..][i - 1] == draws[i] && rest[i - 1] == g[i];
      assert g[..i] == [t] + rest[..i - 1];
      assert ContextAt(Slide(ctx, t), rest, i - 1) == ContextAt(ctx, g, i) by {
        calc {
          ContextAt(Slide(ctx, t), rest, i - 1);
          ((ctx + [t])[1..] + rest[..i - 1])[i - 1..];
          { assert (ctx + [t])[1..] + rest[..i - 1] == (ctx + [t] + rest[..i - 1])[1..]; }
          (ctx + [t] + rest[..i - 1])[i..];
          { assert ctx + [t] + rest[..i - 1] == ctx + g[..i]; }
          ContextAt(ctx, g, i);
        }
      }
    }
  }

  /** Any prefix followed by a signature has that signature. */
  lemma SignatureAfterPrefix(g: seq<Phoneme>, s: seq<Phoneme>)
    requires RhymeSignature(s) == Some(s)
    ensures RhymeSignature(g + s) == Some(s)
  {
    var k := LastStressed(s);
    assert k >= 0 && s[k..] == s;
    assert k == 0 by {
      assert |s[k..]| == |s| - k;
    }
    LastStressedAppend(g, s);
    assert (g + s)[|g|..] == s;
  }

  /**
   * Every word generated for a signature taken from a target pronunciation
   * has that same signature: it rhymes with the target.
   */
  lemma GeneratedWordRhymes(model: ContextModel, target: seq<Phoneme>, n: nat, draws: seq<nat>)
    requires n >= 1 && Drawable(model) && |draws| >= MAX_STEPS
    requires RhymeSignature(target).Some?
    ensures var w := Generation(model, RhymeSignature(target).value, n, draws);
      w.Some? ==> RhymeSignature(w.value) == RhymeSignature(target)
  {
    var s := RhymeSignature(target).value;
    RhymeSignatureSpec(target);
    SignatureOfSignature(s, target);
    var w := Generation(model, s, n, draws);
    if w.Some? {
      var g := Walk(model, Repeat(START, n - 1), draws, MAX_STEPS).value;
      assert w.value == g + s;
      SignatureAfterPrefix(g, s);
    }
  }

  // ---------------------------------------------------------------------------
  // The context slide: as written and as intended
  // ---------------------------------------------------------------------------

  /**
   * With n = 1 the source's slide turns the empty context into a one-token
   * context, which no model built with n = 1 contains: a word whose first
   * draw is not END dead-ends, where the width-keeping slide goes on.
   */
  lemma UnigramSlideDeadEnds()
    ensures var model: ContextModel := map[[] := ["K", END]];
      && WalkWith(SlideAsWritten, model, [], [0, 1], 2) == None
      && Walk(model, [], [0, 1], 2) == Some(["K"])
  {
    var model: ContextModel := map[[] := ["K", END]];
    assert Choose(model[[]], 0) == "K";
    assert Choose(model[[]], 1) == END;
    assert SlideAsWritten([], "K") == ["K"];
    assert Slide([], "K") == [];
    assert [0, 1][1..] == [1];
    assert Choose(model[[]], [0, 1][1..][0]) == END;
    assert WalkWith(Slide, model, [], [1], 1) == Some([]);
    assert WalkWith(Slide, model, [], [0, 1], 2) == Some(["K"] + []);
    assert ["K"] + [] == ["K"];
  }

  /** For n >= 2 the two slides agree, so the walk is the source's walk. */
  lemma {:induction false} WalkAsWritten(model: ContextModel, ctx: Context, draws: seq<nat>, steps: nat)
    requires Drawable(model) && |draws| >= steps && |ctx| > 0
    ensures WalkWith(SlideAsWritten, model, ctx, draws, steps) == Walk(model, ctx, draws, steps)
    decreases steps
  {
    if steps > 0 && ctx in model {
      var t := Choose(model[ctx], draws[0]);
      if t != END {
        WalkAsWritten(model, Slide(ctx, t), draws[1..], steps - 1);
      }
    }
  }

  // ---------------------------------------------------------------------------
  // transcribe_word
  // ---------------------------------------------------------------------------

  /** Stress-stripped phoneme -> candidate spellings, most frequent first. */
  type Table = map<Phoneme, seq<string>>

  /**
   * The chunk written for one phoneme: one of the candidates of its
   * stress-stripped base, or "?" when it has none.
   */
  function Spelling(table: Table, p: Phoneme, d: nat): (r: string)
    ensures var base := StripStress(p);
      && (base !in table || |table[base]| == 0 ==> r == "?")
      && (base in table && |table[base]| > 0 ==> r in table[base])
      && (base in table && |table[base]| == 1 ==> r == table[base][0])
  {
    var base := StripStress(p);
    if base in table && |table[base]| > 0 then table[base][d % |table[base]|] else "?"
  }

  /** The transcription: one chunk per phoneme, in order. */
  function Transcription(table: Table, ps: seq<Phoneme>, draws: seq<nat>): string
    requires |draws| >= |ps|
    decreases |ps|
  {
    if |ps| == 0 then "" else Spelling(table, ps[0], draws[0]) + Transcription(table, ps[1..], draws[1..])
  }

  /** transcribe_word: strip stress, pick one spelling per phoneme, fall back to "?". */
  method TranscribeWord(table: Table, phonemes: seq<Phoneme>, draws: seq<nat>) returns (word: string)
    requires |draws| >= |phonemes|
    ensures word == Transcription(table, phonemes, draws)
  {
    word := "";
    for i := 0 to |phonemes|
      invariant word == Transcription(table, phonemes[..i], draws)
    {
      var p := phonemes[i];
      var basePhoneme := StripStress(p);
      var chunk;
      if basePhoneme in table && |table[basePhoneme]| > 0 {
        chunk := Choose(table[basePhoneme], draws[i]);
      } else {
        chunk := "?";
      }
      assert chunk == Spelling(table, p, draws[i]);
      TranscriptionSnoc(table, phonemes[..i + 1], draws);
      assert phonemes[..i + 1][..i] == phonemes[..i];
      word := word + chunk;
    }
    assert phonemes[..|phonemes|] == phonemes;
  }

  /** Transcribing one more phoneme appends exactly its chunk. */
  lemma {:induction false} TranscriptionSnoc(table: Table, ps: seq<Phoneme>, draws: seq<nat>)
    requires 0 < |ps| <= |draws|
    ensures Transcription(table, ps, draws) ==
      Transcription(table, ps[..|ps| - 1], draws) + Spelling(table, ps[|ps| - 1], draws[|ps| - 1])
    decreases |ps|
  {
    if |ps| > 1 {
      TranscriptionSnoc(table, ps[1..], draws[1..]);
      assert ps[1..][..|ps| - 2] == ps[..|ps| - 1][1..];
    }
  }

  /** Every candidate spelling is a single letter. */
  ghost predicate SingleLetters(table: Table) {
    forall b, i :: b in table && 0 <= i < |table[b]| ==> |table[b][i]| == 1
  }

  /** Every phoneme has exactly one candidate spelling. */
  ghost predicate OneCandidate(table: Table, ps: seq<Phoneme>) {
    forall i :: 0 <= i < |ps| ==> StripStress(ps[i]) in table && |table[StripStress(ps[i])]| == 1
  }

  /** With single-letter spellings the transcription has one letter per phoneme. */
  lemma {:induction false} TranscriptionLength(table: Table, ps: seq<Phoneme>, draws: seq<nat>)
    requires SingleLetters(table) && |draws| >= |ps|
    ensures |Transcription(table, ps, draws)| == |ps|
    decreases |ps|
  {
    if |ps| > 0 {
      TranscriptionLength(table, ps[1..], draws[1..]);
    }
  }

  /** Where every phoneme has a single candidate, the draws do not matter. */
  lemma {:induction false} TranscriptionDeterministic(table: Table, ps: seq<Phoneme>, d1: seq<nat>, d2: seq<nat>)
    requires OneCandidate(table, ps) && |d1| >= |ps| && |d2| >= |ps|
    ensures Transcription(table, ps, d1) == Transcription(table, ps, d2)
    decreases |ps|
  {
    if |ps| > 0 {
      TranscriptionDeterministic(table, ps[1..], d1[1..], d2[1..]);
    }
  }
}
