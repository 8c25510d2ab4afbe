/**
 * The scoring half of the similarity checker (SimilarityCalculator.java):
 * synonym normalisation, the longest-common-subsequence table, the score of
 * one sentence pair, the share of matched sentences, the word-frequency
 * vectors and the weighted, clamped combination of the two scores.
 *
 * The synonym table is a parameter. Scores are exact reals; the one step that
 * needs a square root, the cosine of the word-frequency vectors, is the
 * parameter `cosine`, applied to the exact integer dot product and squared
 * norms.
 */
module SimilarityCalculator {
  import opened JavaStrings
  import opened TextProcessor
  import opened Lcs
  import opened SetSums

  /** SENTENCE_MATCH_THRESHOLD. */
  const SENTENCE_MATCH_THRESHOLD: real := 0.5

  /** The running maximum at which the search over original sentences stops. */
  const EARLY_STOP: real := 0.9

  // ---------------------------------------------------------------------
  // normalizeWords
  // ---------------------------------------------------------------------

  /** SYNONYM_MAP.getOrDefault(w, w). */
  function Canonical(synonyms: map<string, string>, w: string): string {
    if w in synonyms then synonyms[w] else w
  }

  /** Every word replaced by its canonical form. */
  function Normalized(synonyms: map<string, string>, words: seq<string>): seq<string> {
    seq(|words|, i requires 0 <= i < |words| => Canonical(synonyms, words[i]))
  }

  /** normalizeWords (SimilarityCalculator.java:71-77). */
  method NormalizeWords(synonyms: map<string, string>, words: seq<string>) returns (normalized: seq<string>)
    ensures |normalized| == |words|
    ensures forall i :: 0 <= i < |words| ==>
      normalized[i] == (if words[i] in synonyms then synonyms[words[i]] else words[i])
    ensures normalized == Normalized(synonyms, words)
  {
    normalized := [];
    for i := 0 to |words|
      invariant |normalized| == i
      invariant forall k :: 0 <= k < i ==> normalized[k] == Canonical(synonyms, words[k])
    {
      normalized := normalized + [Canonical(synonyms, words[i])];
    }
  }

  /**
   * Tokens are one character long, so a synonym table whose keys all have two
   * or more characters leaves the tokens of any text unchanged.
   */
  lemma NormalizeTokensIdentity(synonyms: map<string, string>, s: string)
    requires forall k :: k in synonyms ==> |k| >= 2
    ensures Normalized(synonyms, Tokens(s)) == Tokens(s)
  {
    var ws := Tokens(s);
    forall i | 0 <= i < |ws| ensures Canonical(synonyms, ws[i]) == ws[i] {
      assert |ws[i]| == 1;
    }
  }

  // ---------------------------------------------------------------------
  // calculateLCSLength
  // ---------------------------------------------------------------------

  /**
   * calculateLCSLength (SimilarityCalculator.java:79-96): fills the table so
   * that dp[i, j] is the LCS length of the first i and first j words.
   */
  method CalculateLcsLength(list1: seq<string>, list2: seq<string>) returns (len: int)
    ensures len == LcsLen(list1, list2)
  {
    var m, n := |list1|, |list2|;
    var dp := new int[m + 1, n + 1]((i, j) => 0);
    for i := 1 to m + 1
      invariant forall p, q :: 0 <= p < i && 0 <= q <= n ==> dp[p, q] == LcsLen(list1[..p], list2[..q])
      invariant forall p :: i <= p <= m ==> dp[p, 0] == 0
    {
      for j := 1 to n + 1
        invariant forall p, q :: 0 <= p < i && 0 <= q <= n ==> dp[p, q] == LcsLen(list1[..p], list2[..q])
        invariant forall q :: 0 <= q < j ==> dp[i, q] == LcsLen(list1[..i], list2[..q])
        invariant forall p :: i < p <= m ==> dp[p, 0] == 0
      {
        LcsStep(list1, list2, i, j);
        if list1[i - 1] == list2[j - 1] {
          dp[i, j] := dp[i - 1, j - 1] + 1;
        } else {
          dp[i, j] := Max(dp[i - 1, j], dp[i, j - 1]);
        }
      }
    }
    assert list1[..m] == list1 && list2[..n] == list2;
    len := dp[m, n];
  }

  /** The recurrence the table applies at cell (i, j), stated on prefixes. */
  lemma LcsStep(list1: seq<string>, list2: seq<string>, i: nat, j: nat)
    requires 1 <= i <= |list1| && 1 <= j <= |list2|
    ensures LcsLen(list1[..i], list2[..j]) ==
      if list1[i - 1] == list2[j - 1] then LcsLen(list1[..i - 1], list2[..j - 1]) + 1
      else Max(LcsLen(list1[..i - 1], list2[..j]), LcsLen(list1[..i], list2[..j - 1]))
  {
    assert list1[..i][..i - 1] == list1[..i - 1];
    assert list2[..j][..j - 1] == list2[..j - 1];
  }

  // ---------------------------------------------------------------------
  // calculateTwoSentencesSimilarity
  // ---------------------------------------------------------------------

  /** floor((m + n) / 2), the average length that divides the LCS length. */
  function AvgLength(a: seq<string>, b: seq<string>): nat {
    (|a| + |b|) / 2
  }

  /**
   * The score of one sentence pair: 1 when neither sentence has a token, 0
   * when exactly one has none, otherwise the LCS length of the normalised
   * tokens over their average length.
   */
  function PairScore(synonyms: map<string, string>, sentence1: string, sentence2: string): real {
    var words1, words2 := Tokens(sentence1), Tokens(sentence2);
    if words1 == [] && words2 == [] then 1.0
    else if words1 == [] || words2 == [] then 0.0
    else
      var n1, n2 := Normalized(synonyms, words1), Normalized(synonyms, words2);
      var avg := AvgLength(n1, n2);
      LcsRatio(LcsLen(n1, n2), avg)
  }

  /** The LCS length over the average length, guarded against a zero divisor. */
  function LcsRatio(lcsLength: nat, avgLength: nat): real {
    if avgLength == 0 then 0.0 else lcsLength as real / avgLength as real
  }

  /**
   * With tokens on both sides the average length is at least 1, the guard
   * against a zero divisor never fires, and the score is the LCS ratio.
   */
  lemma PairScoreRatio(synonyms: map<string, string>, sentence1: string, sentence2: string)
    requires Tokens(sentence1) != [] && Tokens(sentence2) != []
    ensures var n1, n2 := Normalized(synonyms, Tokens(sentence1)), Normalized(synonyms, Tokens(sentence2));
      AvgLength(n1, n2) >= 1 &&
      PairScore(synonyms, sentence1, sentence2) == LcsLen(n1, n2) as real / AvgLength(n1, n2) as real
  {
  }

  /** A pair score lies in [0, 1]: the LCS is no longer than the shorter list. */
  lemma PairScoreRange(synonyms: map<string, string>, sentence1: string, sentence2: string)
    ensures 0.0 <= PairScore(synonyms, sentence1, sentence2) <= 1.0
  {
    var words1, words2 := Tokens(sentence1), Tokens(sentence2);
    if words1 != [] && words2 != [] {
      var n1, n2 := Normalized(synonyms, words1), Normalized(synonyms, words2);
      LcsBounded(n1, n2);
      var lcs, avg := LcsLen(n1, n2), AvgLength(n1, n2);
      assert lcs <= avg;
      RatioAtMostOne(lcs, avg);
    }
  }

  lemma RatioAtMostOne(x: nat, y: nat)
    requires 0 < y && x <= y
    ensures 0.0 <= x as real / y as real <= 1.0
  {
  }

  /** A sentence scores exactly 1 against itself. */
  lemma PairScoreSelf(synonyms: map<string, string>, sentence: string)
    ensures PairScore(synonyms, sentence, sentence) == 1.0
  {
    var words := Tokens(sentence);
    if words != [] {
      var n := Normalized(synonyms, words);
      LcsSelf(n);
      assert AvgLength(n, n) == |n| >= 1;
      RatioOfEqual(|n|);
    }
  }

  lemma RatioOfEqual(y: nat)
    requires y > 0
    ensures y as real / y as real == 1.0
  {
  }

  /** The pair score does not depend on which sentence comes first. */
  lemma PairScoreSymmetric(synonyms: map<string, string>, sentence1: string, sentence2: string)
    ensures PairScore(synonyms, sentence1, sentence2) == PairScore(synonyms, sentence2, sentence1)
  {
    var words1, words2 := Tokens(sentence1), Tokens(sentence2);
    if words1 != [] && words2 != [] {
      LcsSymmetric(Normalized(synonyms, words1), Normalized(synonyms, words2));
    }
  }

  /**
   * Reaching a threshold num / den is an integer comparison:
   * score >= num/den exactly when den * lcs >= num * avg. For the match
   * threshold 0.5 that is 2 * lcs >= avg.
   */
  lemma PairScoreAtLeast(synonyms: map<string, string>, sentence1: string, sentence2: string, num: nat, den: nat)
    requires Tokens(sentence1) != [] && Tokens(sentence2) != [] && den > 0
    ensures var n1, n2 := Normalized(synonyms, Tokens(sentence1)), Normalized(synonyms, Tokens(sentence2));
      PairScore(synonyms, sentence1, sentence2) >= num as real / den as real <==>
      den * LcsLen(n1, n2) >= num * AvgLength(n1, n2)
  {
    var n1, n2 := Normalized(synonyms, Tokens(sentence1)), Normalized(synonyms, Tokens(sentence2));
    RatioCompare(LcsLen(n1, n2), AvgLength(n1, n2), num, den);
  }

  lemma RatioCompare(x: nat, y: nat, num: nat, den: nat)
    requires y > 0 && den > 0
    ensures x as real / y as real >= num as real / den as real <==> den * x >= num * y
  {
    var X, Y, N, D := x as real, y as real, num as real, den as real;
    var a, b := X / Y, N / D;
    assert a * Y == X;
    assert b * D == N;
    ScaleCompare(a, b, Y * D);
    assert a * (Y * D) == X * D;
    assert b * (Y * D) == N * Y;
    assert (den * x) as real == X * D;
    assert (num * y) as real == N * Y;
  }

  lemma ScaleCompare(a: real, b: real, c: real)
    requires c > 0.0
    ensures a >= b <==> a * c >= b * c
  {
    if a >= b {
      assert (a - b) * c >= 0.0;
    } else {
      assert (b - a) * c > 0.0;
    }
  }

  /** calculateTwoSentencesSimilarity (SimilarityCalculator.java:54-69). */
  method CalculateTwoSentencesSimilarity(synonyms: map<string, string>, sentence1: string, sentence2: string)
    returns (similarity: real)
    ensures similarity == PairScore(synonyms, sentence1, sentence2)
    ensures 0.0 <= similarity <= 1.0
  {
    PairScoreRange(synonyms, sentence1, sentence2);
    var words1 := SegmentSentence(sentence1);
    var words2 := SegmentSentence(sentence2);
    if words1 == [] && words2 == [] {
      return 1.0;
    }
    if words1 == [] || words2 == [] {
      return 0.0;
    }
    var normalized1 := NormalizeWords(synonyms, words1);
    var normalized2 := NormalizeWords(synonyms, words2);
    var lcsLength := CalculateLcsLength(normalized1, normalized2);
    var avgLength := (|normalized1| + |normalized2|) / 2;
    similarity := LcsRatio(lcsLength, avgLength);
  }

  // ---------------------------------------------------------------------
  // calculateSentenceSimilarity
  // ---------------------------------------------------------------------

  /** The larger of two scores. */
  function MaxReal(x: real, y: real): real {
    if y > x then y else x
  }

  /**
   * The best pair score of plag against the originals, starting from 0 and
   * raising it whenever a score exceeds it.
   */
  function BestScore(synonyms: map<string, string>, origs: seq<string>, plag: string): real
    decreases |origs|
  {
    if origs == [] then 0.0
    else
      var prev := BestScore(synonyms, origs[..|origs| - 1], plag);
      MaxReal(prev, PairScore(synonyms, origs[|origs| - 1], plag))
  }

  /** No original scores higher than BestScore. */
  lemma {:induction false} BestScoreAtLeast(synonyms: map<string, string>, origs: seq<string>, plag: string)
    ensures forall i :: 0 <= i < |origs| ==> PairScore(synonyms, origs[i], plag) <= BestScore(synonyms, origs, plag)
    decreases |origs|
  {
    if origs != [] {
      var p := origs[..|origs| - 1];
      BestScoreAtLeast(synonyms, p, plag);
      forall i | 0 <= i < |origs| ensures PairScore(synonyms, origs[i], plag) <= BestScore(synonyms, origs, plag) {
        if i < |p| {
          assert origs[i] == p[i];
        }
      }
    }
  }

  /** BestScore is 0 or the score of some original. */
  lemma {:induction false} BestScoreAttained(synonyms: map<string, string>, origs: seq<string>, plag: string)
    ensures BestScore(synonyms, origs, plag) == 0.0 ||
      exists i :: 0 <= i < |origs| && BestScore(synonyms, origs, plag) == PairScore(synonyms, origs[i], plag)
    decreases |origs|
  {
    if origs != [] {
      var p := origs[..|origs| - 1];
      BestScoreAttained(synonyms, p, plag);
      if BestScore(synonyms, origs, plag) == BestScore(synonyms, p, plag) && BestScore(synonyms, p, plag) != 0.0 {
        var i :| 0 <= i < |p| && BestScore(synonyms, p, plag) == PairScore(synonyms, p[i], plag);
        assert origs[i] == p[i];
      }
    }
  }

  /**
   * BestScore is the maximum pair score: no original scores higher, and it is
   * either 0 or the score of some original.
   */
  lemma BestScoreIsMax(synonyms: map<string, string>, origs: seq<string>, plag: string)
    ensures forall i :: 0 <= i < |origs| ==> PairScore(synonyms, origs[i], plag) <= BestScore(synonyms, origs, plag)
    ensures BestScore(synonyms, origs, plag) == 0.0 ||
      exists i :: 0 <= i < |origs| && BestScore(synonyms, origs, plag) == PairScore(synonyms, origs[i], plag)
  {
    BestScoreAtLeast(synonyms, origs, plag);
    BestScoreAttained(synonyms, origs, plag);
  }

  /** Looking at fewer originals never gives a better score. */
  lemma {:induction false} BestScorePrefix(synonyms: map<string, string>, origs: seq<string>, plag: string, j: nat)
    requires j <= |origs|
    ensures BestScore(synonyms, origs[..j], plag) <= BestScore(synonyms, origs, plag)
    decreases |origs|
  {
    if j < |origs| {
      var p := origs[..|origs| - 1];
      assert p[..j] == origs[..j];
      BestScorePrefix(synonyms, p, plag, j);
    } else {
      assert origs[..j] == origs;
    }
  }

  /** A candidate sentence is matched when its best score reaches the threshold. */
  predicate Matched(synonyms: map<string, string>, origs: seq<string>, plag: string) {
    BestScore(synonyms, origs, plag) >= SENTENCE_MATCH_THRESHOLD
  }

  /**
   * A candidate sentence is matched exactly when some original sentence
   * scores at least 0.5 against it.
   */
  lemma MatchedIff(synonyms: map<string, string>, origs: seq<string>, plag: string)
    ensures Matched(synonyms, origs, plag) <==>
      exists i :: 0 <= i < |origs| && PairScore(synonyms, origs[i], plag) >= SENTENCE_MATCH_THRESHOLD
  {
    BestScoreIsMax(synonyms, origs, plag);
  }

  /** The number of matched candidate sentences. */
  function MatchCount(synonyms: map<string, string>, origs: seq<string>, plags: seq<string>): (count: nat)
    ensures count <= |plags|
    decreases |plags|
  {
    if plags == [] then 0
    else
      MatchCount(synonyms, origs, plags[..|plags| - 1]) + (if Matched(synonyms, origs, plags[|plags| - 1]) then 1 else 0)
  }

  /** Every candidate is matched exactly when the count is the number of candidates. */
  lemma {:induction false} MatchCountAll(synonyms: map<string, string>, origs: seq<string>, plags: seq<string>)
    ensures MatchCount(synonyms, origs, plags) == |plags| <==>
      forall i :: 0 <= i < |plags| ==> Matched(synonyms, origs, plags[i])
    decreases |plags|
  {
    if plags != [] {
      var p := plags[..|plags| - 1];
      MatchCountAll(synonyms, origs, p);
      assert forall i :: 0 <= i < |p| ==> p[i] == plags[i];
    }
  }

  /** No candidate is matched exactly when the count is 0. */
  lemma {:induction false} MatchCountNone(synonyms: map<string, string>, origs: seq<string>, plags: seq<string>)
    ensures MatchCount(synonyms, origs, plags) == 0 <==>
      forall i :: 0 <= i < |plags| ==> !Matched(synonyms, origs, plags[i])
    decreases |plags|
  {
    if plags != [] {
      var p := plags[..|plags| - 1];
      MatchCountNone(synonyms, origs, p);
      assert forall i :: 0 <= i < |p| ==> p[i] == plags[i];
    }
  }

  /** Extending the candidates by one adds one to the count if it is matched. */
  lemma MatchCountStep(synonyms: map<string, string>, origs: seq<string>, plags: seq<string>, i: nat)
    requires i < |plags|
    ensures MatchCount(synonyms, origs, plags[..i + 1]) ==
      MatchCount(synonyms, origs, plags[..i]) + (if Matched(synonyms, origs, plags[i]) then 1 else 0)
  {
    assert plags[..i + 1][..i] == plags[..i];
  }

  /** Extending the originals by one raises the best score to the new pair score if that is higher. */
  lemma BestScoreStep(synonyms: map<string, string>, origs: seq<string>, plag: string, j: nat)
    requires j < |origs|
    ensures BestScore(synonyms, origs[..j + 1], plag) ==
      MaxReal(BestScore(synonyms, origs[..j], plag), PairScore(synonyms, origs[j], plag))
  {
    assert origs[..j + 1][..j] == origs[..j];
  }

  /** The share of candidate sentences that are matched. */
  function SentenceScore(synonyms: map<string, string>, origs: seq<string>, plags: seq<string>): real
    requires |plags| > 0
  {
    MatchCount(synonyms, origs, plags) as real / |plags| as real
  }

  /** The sentence score lies in [0, 1], is 1 when every candidate is matched and 0 when none is. */
  lemma SentenceScoreRange(synonyms: map<string, string>, origs: seq<string>, plags: seq<string>)
    requires |plags| > 0
    ensures 0.0 <= SentenceScore(synonyms, origs, plags) <= 1.0
    ensures SentenceScore(synonyms, origs, plags) == 1.0 <==>
      forall i :: 0 <= i < |plags| ==> Matched(synonyms, origs, plags[i])
    ensures SentenceScore(synonyms, origs, plags) == 0.0 <==>
      forall i :: 0 <= i < |plags| ==> !Matched(synonyms, origs, plags[i])
  {
    var c := MatchCount(synonyms, origs, plags);
    MatchCountAll(synonyms, origs, plags);
    MatchCountNone(synonyms, origs, plags);
    RatioAtMostOne(c, |plags|);
    RatioOne(c, |plags|);
  }

  lemma RatioOne(x: nat, y: nat)
    requires 0 < y
    ensures x as real / y as real == 1.0 <==> x == y
    ensures x as real / y as real == 0.0 <==> x == 0
  {
    assert (x as real / y as real) * y as real == x as real;
  }

  /** Every candidate that also appears among the originals is matched, since it scores 1 against itself. */
  lemma CopiedSentencesMatch(synonyms: map<string, string>, origs: seq<string>, plags: seq<string>)
    requires |plags| > 0
    requires forall i :: 0 <= i < |plags| ==> plags[i] in origs
    ensures SentenceScore(synonyms, origs, plags) == 1.0
  {
    forall i | 0 <= i < |plags| ensures Matched(synonyms, origs, plags[i]) {
      var k :| 0 <= k < |origs| && origs[k] == plags[i];
      PairScoreSelf(synonyms, plags[i]);
      MatchedIff(synonyms, origs, plags[i]);
    }
    SentenceScoreRange(synonyms, origs, plags);
  }

  /**
   * calculateSentenceSimilarity (SimilarityCalculator.java:29-52). The search
   * over the originals stops once the running maximum reaches 0.9; the count
   * is nevertheless the one the full maximum gives, because 0.9 is already
   * above the match threshold.
   */
  method CalculateSentenceSimilarity(synonyms: map<string, string>, origSentences: seq<string>, plagSentences: seq<string>)
    returns (score: real)
    requires |plagSentences| > 0
    ensures score == SentenceScore(synonyms, origSentences, plagSentences)
  {
    var totalMatches := 0;
    for i := 0 to |plagSentences|
      invariant totalMatches == MatchCount(synonyms, origSentences, plagSentences[..i])
    {
      var plagSent := plagSentences[i];
      MatchCountStep(synonyms, origSentences, plagSentences, i);
      var maxSimilarity := 0.0;
      var j := 0;
      while j < |origSentences|
        invariant 0 <= j <= |origSentences|
        invariant maxSimilarity == BestScore(synonyms, origSentences[..j], plagSent)
      {
        var similarity := CalculateTwoSentencesSimilarity(synonyms, origSentences[j], plagSent);
        BestScoreStep(synonyms, origSentences, plagSent, j);
        if similarity > maxSimilarity {
          maxSimilarity := similarity;
        }
        j := j + 1;
        if maxSimilarity >= EARLY_STOP {
          break;
        }
      }
      BestScorePrefix(synonyms, origSentences, plagSent, j);
      assert j == |origSentences| ==> origSentences[..j] == origSentences;
      if maxSimilarity >= SENTENCE_MATCH_THRESHOLD {
        totalMatches := totalMatches + 1;
      }
    }
    assert plagSentences[..|plagSentences|] == plagSentences;
    score := totalMatches as real / |plagSentences| as real;
  }

  // ---------------------------------------------------------------------
  // getWordFrequency and calculateWordFrequencySimilarity
  // ---------------------------------------------------------------------

  /** The distinct words of a list. */
  function Vocabulary(words: seq<string>): set<string> {
    set w | w in words
  }

  /** getWordFrequency (SimilarityCalculator.java:132-138). */
  method GetWordFrequency(words: seq<string>) returns (frequency: map<string, int>)
    ensures frequency.Keys == Vocabulary(words)
    ensures forall w :: w in frequency ==> frequency[w] == multiset(words)[w]
  {
    frequency := map[];
    for i := 0 to |words|
      invariant frequency.Keys == Vocabulary(words[..i])
      invariant forall w :: w in frequency ==> frequency[w] == multiset(words[..i])[w]
    {
      var word := words[i];
      assert words[..i + 1] == words[..i] + [word];
      frequency := frequency[word := (if word in frequency then frequency[word] else 0) + 1];
    }
    assert words[..|words|] == words;
  }

  /** frequency is the table getWordFrequency builds from words. */
  ghost predicate IsFrequencyOf(frequency: map<string, int>, words: seq<string>) {
    && frequency.Keys == Vocabulary(words)
    && forall w :: w in frequency ==> frequency[w] == multiset(words)[w]
  }

  /** getOrDefault(word, 0) on a frequency table. */
  function CountOf(frequency: map<string, int>, word: string): int {
    if word in frequency then frequency[word] else 0
  }

  /** getOrDefault(word, 0) on a frequency table gives the word's count, also for an absent word. */
  lemma FrequencyLookup(frequency: map<string, int>, words: seq<string>, word: string)
    requires IsFrequencyOf(frequency, words)
    ensures CountOf(frequency, word) == multiset(words)[word]
  {
    if word !in frequency {
      assert word !in words;
    }
  }

  /** The frequencies of a list's words add up to its length. */
  lemma {:induction false} FrequenciesSumToLength(words: seq<string>)
    ensures SetSum(Vocabulary(words), w => multiset(words)[w]) == |words|
    decreases |words|
  {
    if words != [] {
      var p, x := words[..|words| - 1], words[|words| - 1];
      assert words == p + [x];
      FrequenciesSumToLength(p);
      var f := (w: string) => multiset(p)[w];
      var g := (w: string) => multiset(words)[w];
      var V := Vocabulary(p);
      if x in V {
        assert Vocabulary(words) == V;
        SetSumRemove(V, f, x);
        SetSumRemove(V, g, x);
        SetSumExt(V - {x}, f, g);
      } else {
        assert Vocabulary(words) == V + {x};
        SetSumInsert(V, g, x);
        SetSumExt(V, f, g);
      }
    }
  }

  /** The sum over a set of words of the products of their counts in xs and ys. */
  ghost function CrossSum(vocabulary: set<string>, xs: seq<string>, ys: seq<string>): int {
    SetSum(vocabulary, w => multiset(xs)[w] * multiset(ys)[w])
  }

  /** Adding a word not yet visited adds the product of its two counts. */
  lemma CrossSumInsert(vocabulary: set<string>, xs: seq<string>, ys: seq<string>, word: string, fx: int, fy: int)
    requires word !in vocabulary
    requires fx == multiset(xs)[word] && fy == multiset(ys)[word]
    ensures CrossSum(vocabulary + {word}, xs, ys) == CrossSum(vocabulary, xs, ys) + fx * fy
  {
    SetSumInsert(vocabulary, w => multiset(xs)[w] * multiset(ys)[w], word);
  }

  /**
   * Moving one word from the remaining words to the visited ones adds its
   * products of counts to the dot product and to both squared norms.
   */
  lemma VectorsStep(allWords: set<string>, remaining: set<string>, word: string,
                    freq1: map<string, int>, freq2: map<string, int>, xs: seq<string>, ys: seq<string>)
    requires word in remaining && remaining <= allWords
    requires IsFrequencyOf(freq1, xs) && IsFrequencyOf(freq2, ys)
    ensures var f1, f2, visited := CountOf(freq1, word), CountOf(freq2, word), allWords - remaining;
      && CrossSum(allWords - (remaining - {word}), xs, ys) == CrossSum(visited, xs, ys) + f1 * f2
      && CrossSum(allWords - (remaining - {word}), xs, xs) == CrossSum(visited, xs, xs) + f1 * f1
      && CrossSum(allWords - (remaining - {word}), ys, ys) == CrossSum(visited, ys, ys) + f2 * f2
  {
    var f1, f2 := CountOf(freq1, word), CountOf(freq2, word);
    FrequencyLookup(freq1, xs, word);
    FrequencyLookup(freq2, ys, word);
    var visited := allWords - remaining;
    assert allWords - (remaining - {word}) == visited + {word};
    CrossSumInsert(visited, xs, ys, word, f1, f2);
    CrossSumInsert(visited, xs, xs, word, f1, f1);
    CrossSumInsert(visited, ys, ys, word, f2, f2);
  }

  /** The union of the two tables' keys is the union of the two vocabularies. */
  lemma VectorsDone(freq1: map<string, int>, freq2: map<string, int>, xs: seq<string>, ys: seq<string>)
    requires IsFrequencyOf(freq1, xs) && IsFrequencyOf(freq2, ys)
    ensures freq1.Keys + freq2.Keys == AllWords(xs, ys)
  {
  }

  /** The words both vectors are indexed by: allWords. */
  function AllWords(xs: seq<string>, ys: seq<string>): set<string> {
    Vocabulary(xs) + Vocabulary(ys)
  }

  /** The normalised tokens of a text, as the word-frequency score counts them. */
  function FrequencyWords(synonyms: map<string, string>, text: string): seq<string> {
    Normalized(synonyms, Tokens(text))
  }

  /**
   * The word-frequency score: 0 when either text has no word, otherwise the
   * cosine of the two count vectors, given their dot product and squared norms.
   */
  ghost function WordScore(synonyms: map<string, string>, text1: string, text2: string,
                           cosine: (int, int, int) -> real): real
  {
    var xs, ys := FrequencyWords(synonyms, text1), FrequencyWords(synonyms, text2);
    var allWords := AllWords(xs, ys);
    var norm1, norm2 := CrossSum(allWords, xs, xs), CrossSum(allWords, ys, ys);
    if norm1 == 0 || norm2 == 0 then 0.0
    else cosine(CrossSum(allWords, xs, ys), norm1, norm2)
  }

  /** Squared norms are non-negative, and zero exactly for a list without words. */
  lemma SquaredNormZeroIff(vocabulary: set<string>, xs: seq<string>)
    requires Vocabulary(xs) <= vocabulary
    ensures CrossSum(vocabulary, xs, xs) >= 0
    ensures CrossSum(vocabulary, xs, xs) == 0 <==> xs == []
  {
    var f := (w: string) => multiset(xs)[w] * multiset(xs)[w];
    SetSumNonNeg(vocabulary, f);
    if xs == [] {
      SetSumZero(vocabulary, f);
    } else {
      assert xs[0] in vocabulary;
      SetSumAtLeast(vocabulary, f, xs[0]);
      assert multiset(xs)[xs[0]] >= 1;
      assert f(xs[0]) >= 1;
    }
  }

  /** Lists with no word in common have dot product 0. */
  lemma DisjointDotZero(vocabulary: set<string>, xs: seq<string>, ys: seq<string>)
    requires Vocabulary(xs) !! Vocabulary(ys)
    ensures CrossSum(vocabulary, xs, ys) == 0
  {
    var f := (w: string) => multiset(xs)[w] * multiset(ys)[w];
    forall w | w in vocabulary ensures f(w) == 0 {
      assert w in xs ==> w in Vocabulary(xs);
      assert w in ys ==> w in Vocabulary(ys);
    }
    SetSumZero(vocabulary, f);
  }

  /** Lists with the same words, counted with multiplicity, have dot == norm1 == norm2. */
  lemma EqualCountsDot(vocabulary: set<string>, xs: seq<string>, ys: seq<string>)
    requires multiset(xs) == multiset(ys)
    ensures CrossSum(vocabulary, xs, ys) == CrossSum(vocabulary, xs, xs) == CrossSum(vocabulary, ys, ys)
  {
    var fxy := (w: string) => multiset(xs)[w] * multiset(ys)[w];
    var fxx := (w: string) => multiset(xs)[w] * multiset(xs)[w];
    var fyy := (w: string) => multiset(ys)[w] * multiset(ys)[w];
    SetSumExt(vocabulary, fxy, fxx);
    SetSumExt(vocabulary, fxy, fyy);
  }

  /** The dot product of count vectors is never negative. */
  lemma DotNonNeg(vocabulary: set<string>, xs: seq<string>, ys: seq<string>)
    ensures CrossSum(vocabulary, xs, ys) >= 0
  {
    SetSumNonNeg(vocabulary, w => multiset(xs)[w] * multiset(ys)[w]);
  }

  /** A text without words scores 0 against any text, on either side. */
  lemma WordScoreOfNoWords(synonyms: map<string, string>, text1: string, text2: string,
                           cosine: (int, int, int) -> real)
    requires Tokens(text1) == [] || Tokens(text2) == []
    ensures WordScore(synonyms, text1, text2, cosine) == 0.0
  {
    var xs, ys := FrequencyWords(synonyms, text1), FrequencyWords(synonyms, text2);
    SquaredNormZeroIff(AllWords(xs, ys), xs);
    SquaredNormZeroIff(AllWords(xs, ys), ys);
  }

  /**
   * Texts whose words have the same counts are scored as the cosine of a
   * vector with itself: dot product and both squared norms are one number n.
   */
  lemma WordScoreOfEqualCounts(synonyms: map<string, string>, text1: string, text2: string,
                               cosine: (int, int, int) -> real)
    requires multiset(FrequencyWords(synonyms, text1)) == multiset(FrequencyWords(synonyms, text2))
    requires Tokens(text1) != []
    ensures exists n :: n > 0 && WordScore(synonyms, text1, text2, cosine) == cosine(n, n, n)
  {
    var xs, ys := FrequencyWords(synonyms, text1), FrequencyWords(synonyms, text2);
    var allWords := AllWords(xs, ys);
    EqualCountsDot(allWords, xs, ys);
    SquaredNormZeroIff(allWords, xs);
    var n := CrossSum(allWords, xs, xs);
    assert WordScore(synonyms, text1, text2, cosine) == cosine(n, n, n);
  }

  /**
   * The loop of calculateWordFrequencySimilarity (SimilarityCalculator.java:116-123):
   * the dot product and squared norms of two count vectors, accumulated over
   * allWords one word at a time, in whatever order the set yields them.
   */
  method AccumulateVectors(freq1: map<string, int>, freq2: map<string, int>, ghost xs: seq<string>, ghost ys: seq<string>)
    returns (dotProduct: int, norm1: int, norm2: int)
    requires IsFrequencyOf(freq1, xs) && IsFrequencyOf(freq2, ys)
    ensures dotProduct == CrossSum(AllWords(xs, ys), xs, ys)
    ensures norm1 == CrossSum(AllWords(xs, ys), xs, xs)
    ensures norm2 == CrossSum(AllWords(xs, ys), ys, ys)
  {
    var allWords := freq1.Keys + freq2.Keys;
    dotProduct, norm1, norm2 := 0, 0, 0;
    var remaining := allWords;
    while remaining != {}
      invariant remaining <= allWords
      invariant dotProduct == CrossSum(allWords - remaining, xs, ys)
      invariant norm1 == CrossSum(allWords - remaining, xs, xs)
      invariant norm2 == CrossSum(allWords - remaining, ys, ys)
      decreases |remaining|
    {
      var word :| word in remaining;
      var f1, f2 := CountOf(freq1, word), CountOf(freq2, word);
      VectorsStep(allWords, remaining, word, freq1, freq2, xs, ys);
      dotProduct := dotProduct + f1 * f2;
      norm1 := norm1 + f1 * f1;
      norm2 := norm2 + f2 * f2;
      remaining := remaining - {word};
    }
    VectorsDone(freq1, freq2, xs, ys);
    assert allWords - remaining == allWords;
  }

  /**
   * calculateWordFrequencySimilarity (SimilarityCalculator.java:98-130), with
   * the cosine of the accumulated integers left to `cosine`.
   */
  method CalculateWordFrequencySimilarity(synonyms: map<string, string>, text1: string, text2: string,
                                          cosine: (int, int, int) -> real)
    returns (similarity: real)
    ensures similarity == WordScore(synonyms, text1, text2, cosine)
  {
    var words1 := SegmentSentence(text1);
    var words2 := SegmentSentence(text2);
    var normalized1 := NormalizeWords(synonyms, words1);
    var normalized2 := NormalizeWords(synonyms, words2);
    var freq1 := GetWordFrequency(normalized1);
    var freq2 := GetWordFrequency(normalized2);
    var dotProduct, norm1, norm2 := AccumulateVectors(freq1, freq2, normalized1, normalized2);
    if norm1 == 0 || norm2 == 0 {
      return 0.0;
    }
    similarity := cosine(dotProduct, norm1, norm2);
  }

  // ---------------------------------------------------------------------
  // calculateSimilarity
  // ---------------------------------------------------------------------

  /** Math.max(0.0, Math.min(1.0, x)). */
  function Clamp(x: real): (r: real)
    ensures 0.0 <= r <= 1.0
    ensures 0.0 <= x <= 1.0 ==> r == x
    ensures x > 1.0 ==> r == 1.0
    ensures x < 0.0 ==> r == 0.0
  {
    if x < 1.0 then (if x > 0.0 then x else 0.0) else 1.0
  }

  /**
   * The overall score of two texts: 0 when either has no sentence after
   * cleaning, otherwise 0.7 times the sentence score plus 0.3 times the
   * word-frequency score, clamped to [0, 1].
   */
  ghost function Similarity(noise: set<char>, synonyms: map<string, string>,
                            originalText: Option<string>, plagiarizedText: Option<string>,
                            cosine: (int, int, int) -> real): real
  {
    var origClean, plagClean := Cleaned(noise, originalText), Cleaned(noise, plagiarizedText);
    var origSentences, plagSentences := Sentences(origClean), Sentences(plagClean);
    if origSentences == [] || plagSentences == [] then 0.0
    else Combine(SentenceScore(synonyms, origSentences, plagSentences),
                 WordScore(synonyms, origClean, plagClean, cosine))
  }

  /** 0.7 times the sentence score plus 0.3 times the word-frequency score, clamped to [0, 1]. */
  function Combine(sentenceScore: real, wordScore: real): (r: real)
    ensures 0.0 <= r <= 1.0
  {
    Clamp(0.7 * sentenceScore + 0.3 * wordScore)
  }

  /** With both scores in [0, 1] the clamp never acts, since 0.7 and 0.3 add up to 1. */
  lemma CombineUnclamped(sentenceScore: real, wordScore: real)
    requires 0.0 <= sentenceScore <= 1.0 && 0.0 <= wordScore <= 1.0
    ensures Combine(sentenceScore, wordScore) == 0.7 * sentenceScore + 0.3 * wordScore
  {
  }

  /** A null or blank text scores 0 against anything, on either side. */
  lemma SimilarityOfBlank(noise: set<char>, synonyms: map<string, string>,
                          originalText: Option<string>, plagiarizedText: Option<string>,
                          cosine: (int, int, int) -> real)
    requires Cleaned(noise, originalText) == [] || Cleaned(noise, plagiarizedText) == []
    ensures Similarity(noise, synonyms, originalText, plagiarizedText, cosine) == 0.0
  {
    SentencesEmptyIff([]);
  }

  /**
   * With both scores in [0, 1] the clamp never acts: the result is exactly
   * the weighted sum.
   */
  lemma SimilarityUnclamped(noise: set<char>, synonyms: map<string, string>,
                            originalText: Option<string>, plagiarizedText: Option<string>,
                            cosine: (int, int, int) -> real)
    requires forall d, n1, n2 :: 0.0 <= cosine(d, n1, n2) <= 1.0
    requires Sentences(Cleaned(noise, originalText)) != [] && Sentences(Cleaned(noise, plagiarizedText)) != []
    ensures var origClean, plagClean := Cleaned(noise, originalText), Cleaned(noise, plagiarizedText);
      Similarity(noise, synonyms, originalText, plagiarizedText, cosine) ==
        0.7 * SentenceScore(synonyms, Sentences(origClean), Sentences(plagClean)) +
        0.3 * WordScore(synonyms, origClean, plagClean, cosine)
  {
    var origClean, plagClean := Cleaned(noise, originalText), Cleaned(noise, plagiarizedText);
    var origSentences, plagSentences := Sentences(origClean), Sentences(plagClean);
    SentenceScoreRange(synonyms, origSentences, plagSentences);
    WordScoreRange(synonyms, origClean, plagClean, cosine);
    CombineUnclamped(SentenceScore(synonyms, origSentences, plagSentences),
                     WordScore(synonyms, origClean, plagClean, cosine));
  }

  /** A word score whose cosine stays in [0, 1] is itself in [0, 1]. */
  lemma WordScoreRange(synonyms: map<string, string>, text1: string, text2: string,
                       cosine: (int, int, int) -> real)
    requires forall d, n1, n2 :: 0.0 <= cosine(d, n1, n2) <= 1.0
    ensures 0.0 <= WordScore(synonyms, text1, text2, cosine) <= 1.0
  {
  }

  /**
   * A text with at least one word, compared with itself, scores exactly 1
   * when the cosine of a vector with itself is 1.
   */
  lemma SimilaritySelf(noise: set<char>, synonyms: map<string, string>, text: Option<string>,
                       cosine: (int, int, int) -> real)
    requires Tokens(Cleaned(noise, text)) != []
    requires forall n :: n > 0 ==> cosine(n, n, n) == 1.0
    ensures Similarity(noise, synonyms, text, text, cosine) == 1.0
  {
    var clean := Cleaned(noise, text);
    TokensNotBlank(clean);
    SentencesEmptyIff(clean);
    var sentences := Sentences(clean);
    CopiedSentencesMatch(synonyms, sentences, sentences);
    WordScoreOfEqualCounts(synonyms, clean, clean, cosine);
  }

  /** The score is in [0, 1], and 0 when either text has no sentence. */
  lemma SimilarityBounds(noise: set<char>, synonyms: map<string, string>,
                         originalText: Option<string>, plagiarizedText: Option<string>,
                         cosine: (int, int, int) -> real)
    ensures 0.0 <= Similarity(noise, synonyms, originalText, plagiarizedText, cosine) <= 1.0
    ensures Sentences(Cleaned(noise, originalText)) == [] || Sentences(Cleaned(noise, plagiarizedText)) == [] ==>
      Similarity(noise, synonyms, originalText, plagiarizedText, cosine) == 0.0
  {
  }

  /** calculateSimilarity (SimilarityCalculator.java:9-27). */
  method CalculateSimilarity(noise: set<char>, synonyms: map<string, string>,
                             originalText: Option<string>, plagiarizedText: Option<string>,
                             cosine: (int, int, int) -> real)
    returns (similarity: real)
    ensures similarity == Similarity(noise, synonyms, originalText, plagiarizedText, cosine)
  {
    var origClean := CleanText(noise, originalText);
    var plagClean := CleanText(noise, plagiarizedText);
    var origSentences := SplitIntoSentences(origClean);
    var plagSentences := SplitIntoSentences(plagClean);
    if origSentences == [] || plagSentences == [] {
      return 0.0;
    }
    var sentenceSimilarity := CalculateSentenceSimilarity(synonyms, origSentences, plagSentences);
    var wordFreqSimilarity := CalculateWordFrequencySimilarity(synonyms, origClean, plagClean, cosine);
    similarity := Combine(sentenceSimilarity, wordFreqSimilarity);
  }
}
