/**
 * The phonetic context-model builder of scripts/build_phonetic_model.py.
 *
 * Each pronunciation is padded with n-1 START tokens and one END token; a
 * window of width n-1 slides along it, and the token after each window is
 * appended to that window's list. Frequencies are kept by repetition.
 */
module PhoneticModel {
  import opened Wrappers
  import opened Phonetics

  /** A window of n-1 tokens (a Python tuple). */
  type Context = seq<Phoneme>
  /** Context -> the tokens observed after it, duplicates included. */
  type ContextModel = map<Context, seq<Phoneme>>

  /** One sliding-window observation: a context and the token after it. */
  datatype Window = Window(context: Context, next: Phoneme)

  /** `[t] * k` */
  function Repeat(t: Phoneme, k: nat): (r: seq<Phoneme>)
    ensures |r| == k && forall i :: 0 <= i < k ==> r[i] == t
  {
    if k == 0 then [] else Repeat(t, k - 1) + [t]
  }

  /** `["^"] * prefix_len + phonemes + ["$"]` */
  function Padded(phonemes: Pronunciation, prefixLen: nat): seq<Phoneme> {
    Repeat(START, prefixLen) + phonemes + [END]
  }

  /** Every window of width `prefixLen` and the token that follows it, left to right. */
  function Windows(padded: seq<Phoneme>, prefixLen: nat): seq<Window>
    requires prefixLen <= |padded|
  {
    seq(|padded| - prefixLen, i requires 0 <= i < |padded| - prefixLen =>
      Window(padded[i..i + prefixLen], padded[i + prefixLen]))
  }

  /** The list stored for a context, empty when the context was never seen. */
  function Lookup(m: ContextModel, c: Context): seq<Phoneme> {
    if c in m then m[c] else []
  }

  /** `model.setdefault(prefix, []).append(next)` */
  function Record(m: ContextModel, w: Window): ContextModel {
    m[w.context := Lookup(m, w.context) + [w.next]]
  }

  /** Record a sequence of windows in order. */
  function RecordAll(m: ContextModel, ws: seq<Window>): ContextModel
    decreases |ws|
  {
    if |ws| == 0 then m else Record(RecordAll(m, ws[..|ws| - 1]), ws[|ws| - 1])
  }

  /** The effect of one pronunciation on the model. */
  function AddPronunciation(m: ContextModel, phonemes: Pronunciation, prefixLen: nat): ContextModel {
    RecordAll(m, Windows(Padded(phonemes, prefixLen), prefixLen))
  }

  /** The effect of one corpus line: blank lines and unknown words are skipped. */
  function AddLine(m: ContextModel, lex: Lexicon, line: string, prefixLen: nat): ContextModel {
    match LinePronunciation(lex, line)
    case None => m
    case Some((_, phonemes)) => AddPronunciation(m, phonemes, prefixLen)
  }

  /** The model built from a corpus, one line after the other. */
  function BuildFrom(lex: Lexicon, lines: seq<string>, prefixLen: nat): ContextModel
    decreases |lines|
  {
    if |lines| == 0 then map[]
    else AddLine(BuildFrom(lex, lines[..|lines| - 1], prefixLen), lex, lines[|lines| - 1], prefixLen)
  }

  /** The tokens recorded after context `c` by a sequence of windows, in order. */
  function NextsFor(ws: seq<Window>, c: Context): seq<Phoneme>
    decreases |ws|
  {
    if |ws| == 0 then []
    else NextsFor(ws[..|ws| - 1], c) + (if ws[|ws| - 1].context == c then [ws[|ws| - 1].next] else [])
  }

  /** Every list can be sampled from, and every context has width k. */
  ghost predicate WellFormed(m: ContextModel, k: nat) {
    forall c :: c in m ==> |c| == k && |m[c]| > 0
  }

  /** END never occurs in a context and START occurs only as its leading run. */
  ghost predicate WellShaped(c: Context, k: nat) {
    && |c| == k
    && END !in c
    && forall a, b :: 0 <= a < b < |c| && c[b] == START ==> c[a] == START
  }

  ghost predicate SentinelsPlaced(m: ContextModel, k: nat) {
    forall c :: c in m ==> WellShaped(c, k)
  }

  /**
   * build_phonetic_model with the corpus as its lines, `pronouncing` as the
   * lexicon, and the order n.
   */
  method BuildPhoneticModel(lines: seq<string>, lex: Lexicon, n: nat) returns (model: ContextModel)
    requires n >= 1
    ensures model == BuildFrom(lex, lines, n - 1)
    ensures WellFormed(model, n - 1)
    ensures SentinelFree(lex) ==> SentinelsPlaced(model, n - 1)
  {
    model := map[];
    var prefixLen := n - 1;
    for w := 0 to |lines|
      invariant model == BuildFrom(lex, lines[..w], prefixLen)
    {
      ghost var before := model;
      BuildFromSnoc(lex, lines, w, prefixLen);
      var word := NormalizeLine(lines[w]);
      if word == [] {
        continue;
      }
      var phonesList := FirstPronunciation(lex, word);
      if phonesList.None? {
        continue;
      }
      var phonemes := phonesList.value;
      assert LinePronunciation(lex, lines[w]) == Some((word, phonemes));
      var padded := Repeat(START, prefixLen) + phonemes + [END];
      assert padded == Padded(phonemes, prefixLen);
      model := RecordWindows(model, padded, prefixLen);
      assert model == AddPronunciation(before, phonemes, prefixLen);
    }
    assert lines[..|lines|] == lines;
    BuildFromInvariants(lex, lines, prefixLen);
  }

  lemma BuildFromSnoc(lex: Lexicon, lines: seq<string>, w: nat, prefixLen: nat)
    requires w < |lines|
    ensures BuildFrom(lex, lines[..w + 1], prefixLen) == AddLine(BuildFrom(lex, lines[..w], prefixLen), lex, lines[w], prefixLen)
  {
    assert lines[..w + 1][..w] == lines[..w];
  }

  /**
   * The inner loop of build_phonetic_model: slide the window along one padded
   * pronunciation, creating each unseen context with an empty list and
   * appending the following token.
   */
  method RecordWindows(model: ContextModel, padded: seq<Phoneme>, prefixLen: nat) returns (model': ContextModel)
    requires prefixLen <= |padded|
    ensures model' == RecordAll(model, Windows(padded, prefixLen))
  {
    model' := model;
    ghost var ws := Windows(padded, prefixLen);
    var i := 0;
    while i < |padded| - prefixLen
      invariant 0 <= i <= |padded| - prefixLen
      invariant model' == RecordAll(model, ws[..i])
    {
      var prefix := padded[i..i + prefixLen];
      var nextPhoneme := padded[i + prefixLen];
      ghost var seen := model';
      if prefix !in model' {
        model' := model'[prefix := []];
      }
      model' := model'[prefix := model'[prefix] + [nextPhoneme]];
      RecordWindowAt(model, seen, padded, prefixLen, i);
      i := i + 1;
    }
    assert ws[..i] == ws;
  }

  /** Recording the i-th window after the first i extends the recorded prefix by one. */
  lemma RecordWindowAt(m: ContextModel, seen: ContextModel, padded: seq<Phoneme>, prefixLen: nat, i: nat)
    requires i < |padded| - prefixLen
    requires seen == RecordAll(m, Windows(padded, prefixLen)[..i])
    ensures var c := padded[i..i + prefixLen];
      seen[c := Lookup(seen, c) + [padded[i + prefixLen]]] == RecordAll(m, Windows(padded, prefixLen)[..i + 1])
  {
    var ws := Windows(padded, prefixLen);
    assert ws[..i + 1][..i] == ws[..i];
    assert ws[i] == Window(padded[i..i + prefixLen], padded[i + prefixLen]);
  }

  // ---------------------------------------------------------------------------
  // Properties of the windows of one pronunciation
  // ---------------------------------------------------------------------------

  lemma PaddedAt(phonemes: Pronunciation, k: nat, j: nat)
    requires j < |Padded(phonemes, k)|
    ensures |Padded(phonemes, k)| == k + |phonemes| + 1
    ensures Padded(phonemes, k)[j] ==
      if j < k then START else if j < k + |phonemes| then phonemes[j - k] else END
  {
  }

  /**
   * A pronunciation of length L yields L+1 windows: the first context is all
   * START, the last next-token is END, and every context has width k.
   */
  lemma WindowsOfPadded(phonemes: Pronunciation, k: nat)
    ensures var ws := Windows(Padded(phonemes, k), k);
      && |ws| == |phonemes| + 1
      && ws[0].context == Repeat(START, k)
      && ws[|ws| - 1].next == END
      && forall i :: 0 <= i < |ws| ==> |ws[i].context| == k
  {
    var padded := Padded(phonemes, k);
    assert padded[0..k] == Repeat(START, k);
  }

  /** With sentinel-free phonemes every window's context is well shaped. */
  lemma WindowsWellShaped(phonemes: Pronunciation, k: nat)
    requires START !in phonemes && END !in phonemes
    ensures var ws := Windows(Padded(phonemes, k), k);
      forall i :: 0 <= i < |ws| ==> WellShaped(ws[i].context, k)
  {
    var padded := Padded(phonemes, k);
    var ws := Windows(padded, k);
    forall i | 0 <= i < |ws|
      ensures WellShaped(ws[i].context, k)
    {
      var c := ws[i].context;
      assert c == padded[i..i + k];
      forall b | 0 <= b < |c|
        ensures c[b] != END && (c[b] == START <==> i + b < k)
      {
        PaddedAt(phonemes, k, i + b);
      }
      forall a, b | 0 <= a < b < |c| && c[b] == START
        ensures c[a] == START
      {
        PaddedAt(phonemes, k, i + a);
      }
    }
  }

  // ---------------------------------------------------------------------------
  // Recording only appends
  // ---------------------------------------------------------------------------

  /**
   * Recording windows only appends: each context keeps its old list, in
   * order, followed by the tokens recorded after it; an unseen context starts
   * from the empty list.
   */
  lemma {:induction false} RecordAllAppends(m: ContextModel, ws: seq<Window>, c: Context)
    ensures Lookup(RecordAll(m, ws), c) == Lookup(m, c) + NextsFor(ws, c)
    ensures c in RecordAll(m, ws) <==> c in m || |NextsFor(ws, c)| > 0
    decreases |ws|
  {
    if |ws| > 0 {
      RecordAllAppends(m, ws[..|ws| - 1], c);
    }
  }

  /** Recording windows keeps the model well formed when their contexts have width k. */
  lemma {:induction false} RecordAllWellFormed(m: ContextModel, ws: seq<Window>, k: nat)
    requires WellFormed(m, k)
    requires forall i :: 0 <= i < |ws| ==> |ws[i].context| == k
    ensures WellFormed(RecordAll(m, ws), k)
    decreases |ws|
  {
    if |ws| > 0 {
      RecordAllWellFormed(m, ws[..|ws| - 1], k);
    }
  }

  lemma {:induction false} RecordAllShaped(m: ContextModel, ws: seq<Window>, k: nat)
    requires SentinelsPlaced(m, k)
    requires forall i :: 0 <= i < |ws| ==> WellShaped(ws[i].context, k)
    ensures SentinelsPlaced(RecordAll(m, ws), k)
    decreases |ws|
  {
    if |ws| > 0 {
      RecordAllShaped(m, ws[..|ws| - 1], k);
    }
  }

  /** A blank line or a word without pronunciation leaves the model unchanged. */
  lemma SkippedLineUnchanged(m: ContextModel, lex: Lexicon, line: string, k: nat)
    requires NormalizeLine(line) == [] || FirstPronunciation(lex, NormalizeLine(line)).None?
    ensures AddLine(m, lex, line, k) == m
  {
  }

  /** Every built model is well formed, and its contexts are well shaped when the lexicon has no sentinels. */
  lemma {:induction false} BuildFromInvariants(lex: Lexicon, lines: seq<string>, k: nat)
    ensures WellFormed(BuildFrom(lex, lines, k), k)
    ensures SentinelFree(lex) ==> SentinelsPlaced(BuildFrom(lex, lines, k), k)
    decreases |lines|
  {
    if |lines| > 0 {
      var m := BuildFrom(lex, lines[..|lines| - 1], k);
      BuildFromInvariants(lex, lines[..|lines| - 1], k);
      match LinePronunciation(lex, lines[|lines| - 1])
      case None =>
      case Some((word, phonemes)) =>
        WindowsOfPadded(phonemes, k);
        RecordAllWellFormed(m, Windows(Padded(phonemes, k), k), k);
        if SentinelFree(lex) {
          assert phonemes == lex[word][0];
          assert START !in phonemes && END !in phonemes by {
            forall j | 0 <= j < |phonemes|
              ensures phonemes[j] != START && phonemes[j] != END
            {
              assert lex[word][0][j] == phonemes[j];
            }
          }
          WindowsWellShaped(phonemes, k);
          RecordAllShaped(m, Windows(Padded(phonemes, k), k), k);
        }
    }
  }

  // ---------------------------------------------------------------------------
  // Total number of recorded entries
  // ---------------------------------------------------------------------------

  /** The number of entries stored under the given contexts. */
  ghost function TotalOver(m: ContextModel, keys: set<Context>): nat
    requires keys <= m.Keys
    decreases keys
  {
    if keys == {} then 0
    else
      var c :| c in keys;
      |m[c]| + TotalOver(m, keys - {c})
  }

  /** The number of next-token entries in the whole model. */
  ghost function Total(m: ContextModel): nat {
    TotalOver(m, m.Keys)
  }

  lemma {:induction false} TotalOverPick(m: ContextModel, keys: set<Context>, c: Context)
    requires keys <= m.Keys && c in keys
    ensures TotalOver(m, keys) == |m[c]| + TotalOver(m, keys - {c})
    decreases keys
  {
    var d :| d in keys && TotalOver(m, keys) == |m[d]| + TotalOver(m, keys - {d});
    if d != c {
      TotalOverPick(m, keys - {d}, c);
      TotalOverPick(m, keys - {c}, d);
      assert keys - {d} - {c} == keys - {c} - {d};
    }
  }

  lemma {:induction false} TotalOverAgree(m1: ContextModel, m2: ContextModel, keys: set<Context>)
    requires keys <= m1.Keys && keys <= m2.Keys
    requires forall c :: c in keys ==> |m1[c]| == |m2[c]|
    ensures TotalOver(m1, keys) == TotalOver(m2, keys)
    decreases keys
  {
    if keys != {} {
      var c :| c in keys;
      TotalOverPick(m1, keys, c);
      TotalOverPick(m2, keys, c);
      TotalOverAgree(m1, m2, keys - {c});
    }
  }

  /** Recording one window adds exactly one entry. */
  lemma RecordTotal(m: ContextModel, w: Window)
    ensures Total(Record(m, w)) == Total(m) + 1
  {
    var m' := Record(m, w);
    var c := w.context;
    if c in m {
      assert m'.Keys == m.Keys;
      TotalOverPick(m', m.Keys, c);
      TotalOverPick(m, m.Keys, c);
      TotalOverAgree(m', m, m.Keys - {c});
    } else {
      assert m'.Keys == m.Keys + {c};
      TotalOverPick(m', m'.Keys, c);
      assert m'.Keys - {c} == m.Keys;
      TotalOverAgree(m', m, m.Keys);
    }
  }

  lemma {:induction false} RecordAllTotal(m: ContextModel, ws: seq<Window>)
    ensures Total(RecordAll(m, ws)) == Total(m) + |ws|
    decreases |ws|
  {
    if |ws| > 0 {
      RecordAllTotal(m, ws[..|ws| - 1]);
      RecordTotal(RecordAll(m, ws[..|ws| - 1]), ws[|ws| - 1]);
    }
  }

  /** A pronunciation of L phonemes adds exactly L+1 next-token entries. */
  lemma AddPronunciationTotal(m: ContextModel, phonemes: Pronunciation, k: nat)
    ensures Total(AddPronunciation(m, phonemes, k)) == Total(m) + |phonemes| + 1
  {
    WindowsOfPadded(phonemes, k);
    RecordAllTotal(m, Windows(Padded(phonemes, k), k));
  }
}
