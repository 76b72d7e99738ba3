/**
 * The transcription-table builder of scripts/build_transcription_model.py.
 *
 * For every corpus word whose letter count equals its phoneme count, the
 * letter at position i is counted against the stress-stripped phoneme at
 * position i. Each phoneme then keeps its three most frequent letters, most
 * frequent first; ties keep the order in which the letters were first seen.
 */
module TranscriptionModel {
  import opened Wrappers
  import opened Phonetics
  import Rhyme

  /**
   * The letter counts of one phoneme in first-seen order: Python's inner
   * `defaultdict(int)`, whose iteration order is insertion order.
   */
  type Tally = seq<(char, nat)>
  /** Stress-stripped phoneme -> its tally. */
  type Counts = map<Phoneme, Tally>

  /** The count of letter l in a tally (0 when absent). */
  function CountIn(t: Tally, l: char): nat
    decreases |t|
  {
    if |t| == 0 then 0 else if t[0].0 == l then t[0].1 else CountIn(t[1..], l)
  }

  /** Letter l has an entry in the tally. */
  predicate Seen(t: Tally, l: char) {
    exists i :: 0 <= i < |t| && t[i].0 == l
  }

  predicate DistinctLetters(t: Tally) {
    forall i, j :: 0 <= i < j < |t| ==> t[i].0 != t[j].0
  }

  /** A tally as the builder keeps it: non-empty, one entry per letter, every count positive. */
  ghost predicate TallyOk(t: Tally) {
    |t| > 0 && DistinctLetters(t) && forall i :: 0 <= i < |t| ==> t[i].1 >= 1
  }

  /**
   * `tally[letter] += 1`: the letter's count goes up by one, every other
   * count stays, and a new letter is added at the end.
   */
  function Bump(t: Tally, l: char): (r: Tally)
    ensures |r| > 0
    decreases |t|
  {
    if |t| == 0 then [(l, 1)]
    else if t[0].0 == l then [(l, t[0].1 + 1)] + t[1..]
    else [t[0]] + Bump(t[1..], l)
  }

  /** Bumping adds one to the letter's count and changes no other count. */
  lemma {:induction false} BumpCount(t: Tally, l: char, x: char)
    ensures CountIn(Bump(t, l), x) == CountIn(t, x) + (if x == l then 1 else 0)
    decreases |t|
  {
    if |t| > 0 && t[0].0 != l {
      BumpCount(t[1..], l, x);
      assert ([t[0]] + Bump(t[1..], l))[1..] == Bump(t[1..], l);
    }
  }

  /**
   * Bumping keeps every entry's letter in place (first-seen order), and
   * adds an entry, (l, 1) at the end, exactly when l was not seen before.
   */
  lemma {:induction false} BumpKeepsOrder(t: Tally, l: char)
    ensures |Bump(t, l)| == if Seen(t, l) then |t| else |t| + 1
    ensures forall i :: 0 <= i < |t| ==> Bump(t, l)[i].0 == t[i].0
    ensures !Seen(t, l) ==> Bump(t, l)[|t|] == (l, 1)
    decreases |t|
  {
    if |t| > 0 {
      if t[0].0 == l {
        assert Seen(t, l);
      } else {
        var rest := Bump(t[1..], l);
        BumpKeepsOrder(t[1..], l);
        assert Bump(t, l) == [t[0]] + rest;
        if Seen(t, l) {
          var i :| 0 <= i < |t| && t[i].0 == l;
          assert t[1..][i - 1].0 == l;
        } else {
          forall i | 0 <= i < |t| - 1
            ensures t[1..][i].0 != l
          {
            assert t[1..][i] == t[i + 1];
          }
        }
      }
    }
  }

  /** Bumping keeps a tally well-formed, and makes one out of an empty tally. */
  lemma {:induction false} BumpOk(t: Tally, l: char)
    requires t == [] || TallyOk(t)
    ensures TallyOk(Bump(t, l))
    decreases |t|
  {
    if |t| > 1 && t[0].0 != l {
      var rest := Bump(t[1..], l);
      BumpOk(t[1..], l);
      BumpKeepsOrder(t[1..], l);
      forall j | 0 <= j < |rest|
        ensures rest[j].0 != t[0].0
      {
        if j < |t| - 1 {
          assert rest[j].0 == t[j + 1].0;
        }
      }
      assert Bump(t, l) == [t[0]] + rest;
    }
  }

  function TallyOf(c: Counts, b: Phoneme): Tally {
    if b in c then c[b] else []
  }

  /** How often letter l was seen with phoneme base b. */
  function CountOf(c: Counts, b: Phoneme, l: char): nat {
    CountIn(TallyOf(c, b), l)
  }

  /** `model[base_phoneme][letter] += 1` */
  function Tick(c: Counts, b: Phoneme, l: char): Counts {
    c[b := Bump(TallyOf(c, b), l)]
  }

  /** The counts after the first i positions of an aligned word. */
  function AddAligned(c: Counts, word: string, ps: Pronunciation, i: nat): Counts
    requires i <= |word| && i <= |ps|
    decreases i
  {
    if i == 0 then c else Tick(AddAligned(c, word, ps, i - 1), StripStress(ps[i - 1]), word[i - 1])
  }

  /** A word counts only when it has as many letters as phonemes. */
  function AddWord(c: Counts, word: string, ps: Pronunciation): Counts {
    if |ps| == |word| then AddAligned(c, word, ps, |ps|) else c
  }

  function AddLine(c: Counts, lex: Lexicon, line: string): Counts {
    match LinePronunciation(lex, line)
    case None => c
    case Some((word, ps)) => AddWord(c, word, ps)
  }

  /** The counts accumulated over a corpus, one line after the other. */
  function CountsFrom(lex: Lexicon, lines: seq<string>): Counts
    decreases |lines|
  {
    if |lines| == 0 then map[] else AddLine(CountsFrom(lex, lines[..|lines| - 1]), lex, lines[|lines| - 1])
  }

  /** The number of positions j < i where phoneme base b meets letter l. */
  function Hits(word: string, ps: Pronunciation, b: Phoneme, l: char, i: nat): nat
    requires i <= |word| && i <= |ps|
    decreases i
  {
    if i == 0 then 0
    else Hits(word, ps, b, l, i - 1) + (if StripStress(ps[i - 1]) == b && word[i - 1] == l then 1 else 0)
  }

  // ---------------------------------------------------------------------------
  // Ranking: a stable sort by descending count, then the first three
  // ---------------------------------------------------------------------------

  predicate SortedByCount(s: Tally) {
    forall i, j :: 0 <= i < j < |s| ==> s[i].1 >= s[j].1
  }

  /** Insert x before the first entry whose count does not exceed x's. */
  function InsertByCount(x: (char, nat), s: Tally): (r: Tally)
    ensures |r| == |s| + 1
    decreases |s|
  {
    if |s| == 0 || x.1 >= s[0].1 then [x] + s
    else [s[0]] + InsertByCount(x, s[1..])
  }

  /** `sorted(tally.items(), key=count, reverse=True)`: an insertion sort. */
  function SortByCount(t: Tally): (r: Tally)
    ensures |r| == |t|
    decreases |t|
  {
    if |t| == 0 then [] else InsertByCount(t[0], SortByCount(t[1..]))
  }

  /** `sorted_spellings[:3]` */
  function TopThree(t: Tally): Tally {
    var s := SortByCount(t);
    if |s| <= 3 then s else s[..3]
  }

  /** `[s[0] for s in sorted_spellings[:3]]` */
  function Ranked(t: Tally): seq<string> {
    var top := TopThree(t);
    seq(|top|, i requires 0 <= i < |top| => [top[i].0])
  }

  /** The entries of a tally with count k, in order. */
  function WithCount(s: Tally, k: nat): Tally
    decreases |s|
  {
    if |s| == 0 then [] else (if s[0].1 == k then [s[0]] else []) + WithCount(s[1..], k)
  }

  lemma {:induction false} InsertPermutes(x: (char, nat), s: Tally)
    ensures multiset(InsertByCount(x, s)) == multiset(s) + multiset{x}
    decreases |s|
  {
    if |s| > 0 && x.1 < s[0].1 {
      InsertPermutes(x, s[1..]);
      assert s == [s[0]] + s[1..];
    }
  }

  /** The sort is a permutation of the tally. */
  lemma {:induction false} SortPermutes(t: Tally)
    ensures multiset(SortByCount(t)) == multiset(t)
    decreases |t|
  {
    if |t| > 0 {
      SortPermutes(t[1..]);
      InsertPermutes(t[0], SortByCount(t[1..]));
      assert t == [t[0]] + t[1..];
    }
  }

  lemma {:induction false} InsertSorted(x: (char, nat), s: Tally)
    requires SortedByCount(s)
    ensures SortedByCount(InsertByCount(x, s))
    decreases |s|
  {
    if |s| > 0 && x.1 < s[0].1 {
      InsertSorted(x, s[1..]);
      InsertPermutes(x, s[1..]);
      var rest := InsertByCount(x, s[1..]);
      forall j | 0 <= j < |rest|
        ensures rest[j].1 <= s[0].1
      {
        assert rest[j] in multiset(rest);
        assert rest[j] == x || rest[j] in multiset(s[1..]);
      }
    }
  }

  /** The sort yields non-increasing counts. */
  lemma {:induction false} SortSorted(t: Tally)
    ensures SortedByCount(SortByCount(t))
    decreases |t|
  {
    if |t| > 0 {
      SortSorted(t[1..]);
      InsertSorted(t[0], SortByCount(t[1..]));
    }
  }

  lemma WithCountCons(e: (char, nat), s: Tally, k: nat)
    ensures WithCount([e] + s, k) == (if e.1 == k then [e] else []) + WithCount(s, k)
  {
    assert ([e] + s)[1..] == s;
  }

  lemma {:induction false} InsertStable(x: (char, nat), s: Tally, k: nat)
    ensures WithCount(InsertByCount(x, s), k) == (if x.1 == k then [x] else []) + WithCount(s, k)
    decreases |s|
  {
    if |s| == 0 || x.1 >= s[0].1 {
      WithCountCons(x, s, k);
    } else {
      var rest := InsertByCount(x, s[1..]);
      assert InsertByCount(x, s) == [s[0]] + rest;
      InsertStable(x, s[1..], k);
      WithCountCons(s[0], rest, k);
      WithCountCons(s[0], s[1..], k);
      assert [s[0]] + s[1..] == s;
      if s[0].1 == k {
        calc {
          WithCount(InsertByCount(x, s), k);
          [s[0]] + WithCount(rest, k);
          [s[0]] + WithCount(s[1..], k);
          WithCount(s, k);
        }
      } else {
        calc {
          WithCount(InsertByCount(x, s), k);
          WithCount(rest, k);
          (if x.1 == k then [x] else []) + WithCount(s[1..], k);
        }
      }
    }
  }

  /** The sort is stable: entries of equal count keep their relative (first-seen) order. */
  lemma {:induction false} SortStable(t: Tally, k: nat)
    ensures WithCount(SortByCount(t), k) == WithCount(t, k)
    decreases |t|
  {
    if |t| > 0 {
      SortStable(t[1..], k);
      InsertStable(t[0], SortByCount(t[1..]), k);
    }
  }

  lemma {:induction false} InsertDistinct(x: (char, nat), s: Tally)
    requires DistinctLetters(s) && forall e :: e in s ==> e.0 != x.0
    ensures DistinctLetters(InsertByCount(x, s))
    decreases |s|
  {
    if |s| > 0 && x.1 < s[0].1 {
      InsertDistinct(x, s[1..]);
      InsertPermutes(x, s[1..]);
      var rest := InsertByCount(x, s[1..]);
      forall j | 0 <= j < |rest|
        ensures rest[j].0 != s[0].0
      {
        assert rest[j] in multiset(rest);
        assert rest[j] == x || rest[j] in multiset(s[1..]);
      }
      assert InsertByCount(x, s) == [s[0]] + rest;
    }
  }

  lemma {:induction false} SortDistinct(t: Tally)
    requires DistinctLetters(t)
    ensures DistinctLetters(SortByCount(t))
    decreases |t|
  {
    if |t| > 0 {
      SortDistinct(t[1..]);
      SortPermutes(t[1..]);
      var s := SortByCount(t[1..]);
      forall e | e in s
        ensures e.0 != t[0].0
      {
        assert e in multiset(s);
        assert e in t[1..];
      }
      InsertDistinct(t[0], s);
    }
  }

  /**
   * The three kept entries: as many as there are letters up to three, each
   * seen with the phoneme, distinct, in non-increasing count order, and no
   * letter left out was seen more often than one kept.
   */
  lemma TopThreeSpec(t: Tally)
    requires TallyOk(t)
    ensures var top := TopThree(t);
      && |top| == (if |t| < 3 then |t| else 3)
      && (forall i :: 0 <= i < |top| ==> top[i] in t && top[i].1 >= 1)
      && DistinctLetters(top)
      && SortedByCount(top)
      && (forall e :: e in t && e !in top ==> forall i :: 0 <= i < |top| ==> e.1 <= top[i].1)
  {
    var s := SortByCount(t);
    var top := TopThree(t);
    SortSorted(t);
    SortDistinct(t);
    assert top == s[..|top|];
    TopThreeFromSort(t);
    TopThreeDominates(t);
  }

  /** The kept entries are entries of the tally. */
  lemma TopThreeFromSort(t: Tally)
    requires TallyOk(t)
    ensures forall i :: 0 <= i < |TopThree(t)| ==> TopThree(t)[i] in t && TopThree(t)[i].1 >= 1
  {
    var s := SortByCount(t);
    var top := TopThree(t);
    SortPermutes(t);
    forall i | 0 <= i < |top|
      ensures top[i] in t && top[i].1 >= 1
    {
      assert top[i] == s[i] && s[i] in multiset(s);
    }
  }

  /** No entry left out has a higher count than an entry kept. */
  lemma TopThreeDominates(t: Tally)
    ensures forall e :: e in t && e !in TopThree(t) ==> forall i :: 0 <= i < |TopThree(t)| ==> e.1 <= TopThree(t)[i].1
  {
    var s := SortByCount(t);
    var top := TopThree(t);
    SortSorted(t);
    SortPermutes(t);
    forall e | e in t && e !in top
      ensures forall i :: 0 <= i < |top| ==> e.1 <= top[i].1
    {
      assert e in multiset(s);
      var p :| 0 <= p < |s| && s[p] == e;
      assert p >= |top|;
    }
  }

  /**
   * What each table entry is: one to three single-letter spellings, the
   * letters of the kept entries in rank order.
   */
  lemma RankedSpec(t: Tally)
    requires TallyOk(t)
    ensures var top := TopThree(t); var r := Ranked(t);
      && |r| == |top| && 1 <= |r| <= 3
      && (forall i :: 0 <= i < |r| ==> r[i] == [top[i].0])
      && (forall i, j :: 0 <= i < j < |r| ==> r[i] != r[j])
  {
    TopThreeSpec(t);
    var top := TopThree(t);
    var r := Ranked(t);
    forall i, j | 0 <= i < j < |r|
      ensures r[i] != r[j]
    {
      assert r[i][0] == top[i].0 && r[j][0] == top[j].0;
    }
  }

  // ---------------------------------------------------------------------------
  // Counting
  // ---------------------------------------------------------------------------

  /** The aligned positions of a word add exactly their co-occurrences to the counts. */
  lemma {:induction false} AddAlignedCounts(c: Counts, word: string, ps: Pronunciation, i: nat, b: Phoneme, l: char)
    requires i <= |word| && i <= |ps|
    ensures CountOf(AddAligned(c, word, ps, i), b, l) == CountOf(c, b, l) + Hits(word, ps, b, l, i)
    decreases i
  {
    if i > 0 {
      AddAlignedCounts(c, word, ps, i - 1, b, l);
      var prev := AddAligned(c, word, ps, i - 1);
      var base := StripStress(ps[i - 1]);
      BumpCount(TallyOf(prev, base), word[i - 1], l);
    }
  }

  /**
   * A word with as many letters as phonemes adds one count for each
   * position's (phoneme base, letter) pair; any other word adds nothing.
   */
  lemma AddWordCounts(c: Counts, word: string, ps: Pronunciation, b: Phoneme, l: char)
    ensures CountOf(AddWord(c, word, ps), b, l) ==
      CountOf(c, b, l) + (if |ps| == |word| then Hits(word, ps, b, l, |ps|) else 0)
    ensures |ps| != |word| ==> AddWord(c, word, ps) == c
  {
    if |ps| == |word| {
      AddAlignedCounts(c, word, ps, |ps|, b, l);
    }
  }

  /** The counts as the builder keeps them: well-formed tallies under stress-free keys. */
  ghost predicate CountsOk(c: Counts) {
    forall b :: b in c ==> TallyOk(c[b]) && (|b| == 0 || !IsStressDigit(b[|b| - 1]))
  }

  lemma {:induction false} AddAlignedOk(c: Counts, word: string, ps: Pronunciation, i: nat)
    requires CountsOk(c) && i <= |word| && i <= |ps|
    ensures CountsOk(AddAligned(c, word, ps, i))
    decreases i
  {
    if i > 0 {
      AddAlignedOk(c, word, ps, i - 1);
      var prev := AddAligned(c, word, ps, i - 1);
      var base := StripStress(ps[i - 1]);
      BumpOk(TallyOf(prev, base), word[i - 1]);
      assert |base| == 0 || !IsStressDigit(base[|base| - 1]);
      var next := Tick(prev, base, word[i - 1]);
      forall b | b in next
        ensures TallyOk(next[b]) && (|b| == 0 || !IsStressDigit(b[|b| - 1]))
      {
        if b != base {
          assert b in prev && next[b] == prev[b];
        }
      }
    }
  }

  lemma {:induction false} CountsFromOk(lex: Lexicon, lines: seq<string>)
    ensures CountsOk(CountsFrom(lex, lines))
    decreases |lines|
  {
    if |lines| > 0 {
      CountsFromOk(lex, lines[..|lines| - 1]);
      match LinePronunciation(lex, lines[|lines| - 1])
      case None =>
      case Some((word, ps)) =>
        if |ps| == |word| {
          AddAlignedOk(CountsFrom(lex, lines[..|lines| - 1]), word, ps, |ps|);
        }
    }
  }

  // ---------------------------------------------------------------------------
  // From tally entries to corpus co-occurrences
  // ---------------------------------------------------------------------------

  /** In a tally with one entry per letter, an entry's count is its letter's count. */
  lemma {:induction false} EntryCount(t: Tally, i: nat)
    requires DistinctLetters(t) && i < |t|
    ensures CountIn(t, t[i].0) == t[i].1
    decreases |t|
  {
    if i > 0 {
      var rest := t[1..];
      assert t[0].0 != t[i].0;
      assert rest[i - 1] == t[i];
      forall a, b | 0 <= a < b < |rest|
        ensures rest[a].0 != rest[b].0
      {
        assert rest[a] == t[a + 1] && rest[b] == t[b + 1];
      }
      EntryCount(rest, i - 1);
    }
  }

  /** A letter with a positive count has an entry carrying that count. */
  lemma {:induction false} CountedLetterHasEntry(t: Tally, l: char)
    requires CountIn(t, l) > 0
    ensures exists i :: 0 <= i < |t| && t[i].0 == l && t[i].1 == CountIn(t, l)
    decreases |t|
  {
    if t[0].0 == l {
      assert t[0].0 == l && t[0].1 == CountIn(t, l);
    } else {
      var rest := t[1..];
      CountedLetterHasEntry(rest, l);
      var i :| 0 <= i < |rest| && rest[i].0 == l && rest[i].1 == CountIn(rest, l);
      assert t[i + 1] == rest[i];
    }
  }

  /** The co-occurrences of base b and letter l that one corpus line contributes. */
  function LineHits(lex: Lexicon, line: string, b: Phoneme, l: char): nat {
    match LinePronunciation(lex, line)
    case None => 0
    case Some((word, ps)) => if |ps| == |word| then Hits(word, ps, b, l, |ps|) else 0
  }

  /** The co-occurrences of base b and letter l over the whole corpus. */
  function CorpusHits(lex: Lexicon, lines: seq<string>, b: Phoneme, l: char): nat
    decreases |lines|
  {
    if |lines| == 0 then 0
    else CorpusHits(lex, lines[..|lines| - 1], b, l) + LineHits(lex, lines[|lines| - 1], b, l)
  }

  /**
   * The builder's count of (b, l) is the number of positions, over the
   * aligned words of the whole corpus, where phoneme base b meets letter l.
   */
  lemma {:induction false} CountsFromHits(lex: Lexicon, lines: seq<string>, b: Phoneme, l: char)
    ensures CountOf(CountsFrom(lex, lines), b, l) == CorpusHits(lex, lines, b, l)
    decreases |lines|
  {
    if |lines| > 0 {
      CountsFromHits(lex, lines[..|lines| - 1], b, l);
      match LinePronunciation(lex, lines[|lines| - 1])
      case None =>
      case Some((word, ps)) =>
        AddWordCounts(CountsFrom(lex, lines[..|lines| - 1]), word, ps, b, l);
    }
  }

  /** Line `line`'s word is aligned and has letter l where its phoneme j has base b. */
  ghost predicate MeetsAt(lex: Lexicon, line: string, b: Phoneme, l: char, j: nat) {
    match LinePronunciation(lex, line)
    case None => false
    case Some((word, ps)) => |ps| == |word| && j < |ps| && StripStress(ps[j]) == b && word[j] == l
  }

  /** Letter l meets phoneme base b somewhere in an aligned word of the corpus. */
  ghost predicate Observed(lex: Lexicon, lines: seq<string>, b: Phoneme, l: char) {
    exists w, j :: 0 <= w < |lines| && MeetsAt(lex, lines[w], b, l, j)
  }

  lemma {:induction false} HitsWitness(word: string, ps: Pronunciation, b: Phoneme, l: char, i: nat)
    requires i <= |word| && i <= |ps| && Hits(word, ps, b, l, i) > 0
    ensures exists j :: 0 <= j < i && StripStress(ps[j]) == b && word[j] == l
    decreases i
  {
    if !(StripStress(ps[i - 1]) == b && word[i - 1] == l) {
      HitsWitness(word, ps, b, l, i - 1);
    }
  }

  /** A co-occurrence counted over the corpus happens in some aligned word. */
  lemma {:induction false} HitsObserved(lex: Lexicon, lines: seq<string>, b: Phoneme, l: char)
    ensures CorpusHits(lex, lines, b, l) > 0 ==> Observed(lex, lines, b, l)
    decreases |lines|
  {
    var last := |lines| - 1;
    if CorpusHits(lex, lines, b, l) == 0 {
    } else if LineHits(lex, lines[last], b, l) == 0 {
      HitsObserved(lex, lines[..last], b, l);
      var w, j :| 0 <= w < last && MeetsAt(lex, lines[..last][w], b, l, j);
      assert lines[..last][w] == lines[w];
    } else {
      match LinePronunciation(lex, lines[last])
      case Some((word, ps)) =>
        HitsWitness(word, ps, b, l, |ps|);
        var j :| 0 <= j < |ps| && StripStress(ps[j]) == b && word[j] == l;
        assert MeetsAt(lex, lines[last], b, l, j);
    }
  }

  /** A kept entry's count is its letter's number of co-occurrences with b over the corpus. */
  lemma KeptEntryHits(lex: Lexicon, lines: seq<string>, b: Phoneme, i: nat)
    requires b in CountsFrom(lex, lines) && i < |TopThree(CountsFrom(lex, lines)[b])|
    ensures var e := TopThree(CountsFrom(lex, lines)[b])[i];
      CorpusHits(lex, lines, b, e.0) == e.1 >= 1
  {
    var t := CountsFrom(lex, lines)[b];
    CountsFromOk(lex, lines);
    TopThreeFromSort(t);
    var e := TopThree(t)[i];
    var k :| 0 <= k < |t| && t[k] == e;
    EntryCount(t, k);
    CountsFromHits(lex, lines, b, e.0);
  }

  /** Every spelling kept for b is a letter seen with b in some aligned corpus word. */
  lemma TableLettersObserved(lex: Lexicon, lines: seq<string>, b: Phoneme)
    requires b in CountsFrom(lex, lines)
    ensures var r := Ranked(CountsFrom(lex, lines)[b]);
      forall i :: 0 <= i < |r| ==> |r[i]| == 1 && Observed(lex, lines, b, r[i][0])
  {
    var t := CountsFrom(lex, lines)[b];
    var r := Ranked(t);
    forall i | 0 <= i < |r|
      ensures |r[i]| == 1 && Observed(lex, lines, b, r[i][0])
    {
      KeptEntryHits(lex, lines, b, i);
      HitsObserved(lex, lines, b, r[i][0]);
    }
  }

  /** The spellings kept for b come in non-increasing order of their corpus co-occurrence counts. */
  lemma TableOrderedByCorpusCount(lex: Lexicon, lines: seq<string>, b: Phoneme)
    requires b in CountsFrom(lex, lines)
    ensures var r := Ranked(CountsFrom(lex, lines)[b]);
      forall i, j :: 0 <= i < j < |r| ==> CorpusHits(lex, lines, b, r[i][0]) >= CorpusHits(lex, lines, b, r[j][0])
  {
    var t := CountsFrom(lex, lines)[b];
    var r := Ranked(t);
    CountsFromOk(lex, lines);
    TopThreeSpec(t);
    forall i, j | 0 <= i < j < |r|
      ensures CorpusHits(lex, lines, b, r[i][0]) >= CorpusHits(lex, lines, b, r[j][0])
    {
      KeptEntryHits(lex, lines, b, i);
      KeptEntryHits(lex, lines, b, j);
    }
  }

  /** No letter seen with b but left out of its spellings was seen more often than a kept one. */
  lemma TableKeepsMostFrequent(lex: Lexicon, lines: seq<string>, b: Phoneme, l: char)
    requires b in CountsFrom(lex, lines)
    requires CorpusHits(lex, lines, b, l) > 0 && [l] !in Ranked(CountsFrom(lex, lines)[b])
    ensures var r := Ranked(CountsFrom(lex, lines)[b]);
      forall i :: 0 <= i < |r| ==> CorpusHits(lex, lines, b, l) <= CorpusHits(lex, lines, b, r[i][0])
  {
    var t := CountsFrom(lex, lines)[b];
    var top := TopThree(t);
    var r := Ranked(t);
    CountsFromHits(lex, lines, b, l);
    CountedLetterHasEntry(t, l);
    var k :| 0 <= k < |t| && t[k].0 == l && t[k].1 == CountIn(t, l);
    forall i | 0 <= i < |top|
      ensures top[i] != t[k]
    {
      assert r[i] == [top[i].0];
    }
    TopThreeDominates(t);
    forall i | 0 <= i < |r|
      ensures CorpusHits(lex, lines, b, l) <= CorpusHits(lex, lines, b, r[i][0])
    {
      KeptEntryHits(lex, lines, b, i);
    }
  }

  // ---------------------------------------------------------------------------
  // The builder
  // ---------------------------------------------------------------------------

  lemma CountsFromSnoc(lex: Lexicon, lines: seq<string>, w: nat)
    requires w < |lines|
    ensures CountsFrom(lex, lines[..w + 1]) == AddLine(CountsFrom(lex, lines[..w]), lex, lines[w])
  {
    assert lines[..w + 1][..w] == lines[..w];
  }

  lemma AddAlignedStep(c: Counts, word: string, ps: Pronunciation, i: nat)
    requires i < |word| && i < |ps|
    ensures AddAligned(c, word, ps, i + 1) == Tick(AddAligned(c, word, ps, i), StripStress(ps[i]), word[i])
  {
  }

  /**
   * The inner loop: count each (stress-stripped phoneme, letter) pair of an
   * aligned word.
   */
  method CountAligned(counts: Counts, word: string, phonemes: Pronunciation) returns (counts': Counts)
    requires |phonemes| == |word|
    ensures counts' == AddAligned(counts, word, phonemes, |phonemes|)
  {
    counts' := counts;
    for i := 0 to |phonemes|
      invariant counts' == AddAligned(counts, word, phonemes, i)
    {
      var basePhoneme := StripStress(phonemes[i]);
      var letter := word[i];
      var tally := if basePhoneme in counts' then counts'[basePhoneme] else [];
      AddAlignedStep(counts, word, phonemes, i);
      counts' := counts'[basePhoneme := Bump(tally, letter)];
    }
  }

  /** The final loop: rank every phoneme's letters and keep the top three. */
  method RankAll(counts: Counts) returns (table: Rhyme.Table)
    ensures table.Keys == counts.Keys
    ensures forall b :: b in table ==> table[b] == Ranked(counts[b])
  {
    table := map[];
    var pending := counts.Keys;
    while pending != {}
      invariant pending <= counts.Keys
      invariant table.Keys == counts.Keys - pending
      invariant forall b :: b in table ==> table[b] == Ranked(counts[b])
      decreases pending
    {
      var phoneme :| phoneme in pending;
      table := table[phoneme := Ranked(counts[phoneme])];
      pending := pending - {phoneme};
    }
  }

  /**
   * build_transcription_model with the corpus as its lines and `pronouncing`
   * as the lexicon.
   */
  method BuildTranscriptionModel(lines: seq<string>, lex: Lexicon) returns (table: Rhyme.Table)
    ensures table.Keys == CountsFrom(lex, lines).Keys
    ensures forall b :: b in table ==> table[b] == Ranked(CountsFrom(lex, lines)[b])
    ensures forall b :: b in table ==> 1 <= |table[b]| <= 3 && (|b| == 0 || !IsStressDigit(b[|b| - 1]))
    ensures Rhyme.SingleLetters(table)
  {
    var counts: Counts := map[];
    for w := 0 to |lines|
      invariant counts == CountsFrom(lex, lines[..w])
    {
      ghost var before := counts;
      CountsFromSnoc(lex, lines, w);
      var word := NormalizeLine(lines[w]);
      if word == [] {
        continue;
      }
      var phonesList := FirstPronunciation(lex, word);
      if phonesList.None? {
        continue;
      }
      var phonemes := phonesList.value;
      assert LinePronunciation(lex, lines[w]) == Some((word, phonemes));
      if |phonemes| == |word| {
        counts := CountAligned(counts, word, phonemes);
      }
    }
    assert lines[..|lines|] == lines;
    table := RankAll(counts);
    CountsFromOk(lex, lines);
    forall b | b in table
      ensures 1 <= |table[b]| <= 3 && forall i :: 0 <= i < |table[b]| ==> |table[b][i]| == 1
    {
      RankedSpec(counts[b]);
    }
  }
}
