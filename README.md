# Text-similarity checker, modelled in Dafny

The system scores how much of a "plagiarised" text is copied from an
original. Its two core classes are modelled here.

`TextProcessor` is the lexical front end:
- `cleanText` drops noise characters, collapses whitespace runs to one space and trims;
- `splitIntoSentences` cuts the cleaned text after every punctuation character;
- `segmentSentence` cuts a sentence into one-character tokens and drops stop words and blanks;
- `getSynonymMap` builds the word-to-canonical-word table.

`SimilarityCalculator` does the scoring:
- synonym normalisation;
- the longest-common-subsequence (LCS) table;
- the score of one sentence pair, the LCS length over the average token count;
- the share of candidate sentences whose best pair score reaches 0.5;
- the word-frequency cosine;
- the final 0.7/0.3 weighted and clamped combination.

The project has five modules.
- `JavaStrings` (`java_strings.dfy`) holds the pieces of `java.lang` the pipeline relies on. These are a nullable reference (`Option`), `Character.isWhitespace` and `String.trim`. Trim removes characters at or below U+0020, which is not the same as whitespace, so the two are kept apart.
- `TextProcessor` (`text_processor.dfy`) has one specification function per operation: `Cleaned`, `Sentences`, `Tokens` and `LastPut`. Each source loop is a method proved equal to its function. The lemmas state the shape of each result.
- `Lcs` (`lcs.dfy`) defines LCS length by the recurrence the table fills in. It proves that this is the length of a longest common subsequence, defined from first principles.
- `SetSums` (`set_sums.dfy`) is an order-free sum over a finite set of words. The word-frequency loop visits a hash set in an order the program does not fix.
- `SimilarityCalculator` (`similarity_calculator.dfy`) has specification functions `PairScore`, `BestScore`, `MatchCount`, `SentenceScore`, `WordScore` and `Similarity`, plus one method per source method.

Configuration data is passed in as parameters:
- the noise-character set (`noise: set<char>`);
- the synonym table (`synonyms: map<string, string>`);
- the square-root-and-divide step of the cosine (`cosine: (int, int, int) -> real`), applied to the exact integer dot product and squared norms.

The punctuation set and the stop-word set are written out as the source has them. Scores are exact reals.

## Model

| member | source | states |
|---|---|---|
| TextProcessor.CleanText | 3123004235/TextProcessor.java:55-76 | The result is `Cleaned(text)`. It is "" for null input or input that trims to "". When ' ' is not a noise character, it is clean text: noise-free, no whitespace but ' ', no two adjacent spaces, and neither starting nor ending with a character trim removes. |
| TextProcessor.CollapseStep | 3123004235/TextProcessor.java:61-74 | One loop step on the buffer: skip a noise character; turn whitespace into one ' ' only after a non-whitespace character; copy anything else. |
| TextProcessor.CleanedIsClean | 3123004235/TextProcessor.java:66-75 | When ' ' is not noise, every cleanText result is noise-free and collapsed, and starts and ends with a visible character. |
| TextProcessor.CollapseCollapsed | 3123004235/TextProcessor.java:66-73 | The buffer never holds whitespace other than ' ', never holds two spaces in a row, and never starts with whitespace. |
| TextProcessor.CollapseNoiseFree | 3123004235/TextProcessor.java:63-65 | No noise character reaches the buffer, provided ' ' is not itself noise. |
| TextProcessor.CleanIdempotent | 3123004235/TextProcessor.java:55-75 | Cleaning already-cleaned text returns it unchanged, provided ' ' is not noise. |
| TextProcessor.BlankGuardRedundant | 3123004235/TextProcessor.java:56-58 | The early return for blank input changes nothing: the loop and trim give "" for such input too. |
| TextProcessor.CleanKeepsVisible | 3123004235/TextProcessor.java:61-75 | The output with its spaces deleted equals the trim of the input's non-noise, non-whitespace characters in their original order. |
| TextProcessor.CleanKeepsVisibleExactly | 3123004235/TextProcessor.java:61-75 | When every input character at or below U+0020 is whitespace, the output with its spaces deleted is exactly the input's non-noise, non-whitespace characters, in order. |
| TextProcessor.CollapseVisible | 3123004235/TextProcessor.java:61-74 | Deleting the spaces from the buffer leaves exactly the non-noise, non-whitespace characters read so far. |
| TextProcessor.CollapseOfCollapsed | 3123004235/TextProcessor.java:61-74 | A collapsed, noise-free string that does not start with whitespace passes through the loop unchanged. |
| TextProcessor.VisibleOfBlank | 3123004235/TextProcessor.java:56-58 | Input that trims to "" has no visible character above U+0020. |
| TextProcessor.SplitIntoSentences | 3123004235/TextProcessor.java:83-109 | The result is `Sentences(text)`: the buffer contents cut after each punctuation character, trimmed, with empty ones dropped. The empty-input early return and the final buffer flush are both covered. |
| TextProcessor.SplitStep | 3123004235/TextProcessor.java:90-100 | One loop step: append the character; at punctuation, emit the trimmed buffer if non-empty and reset the buffer. |
| TextProcessor.SplitEnd | 3123004235/TextProcessor.java:103-106 | After the loop, the trimmed remainder is appended when non-empty. |
| TextProcessor.ChunksPartition | 3123004235/TextProcessor.java:89-100 | The buffer contents concatenate back to the input. Every piece but the last ends with a punctuation character and has no other. The last piece has none. |
| TextProcessor.ChunksConcat | 3123004235/TextProcessor.java:89-100 | The pieces concatenate back to the input. |
| TextProcessor.ChunksPieces | 3123004235/TextProcessor.java:90-100 | Every piece but the last ends at its only punctuation character, and the last piece has none. |
| TextProcessor.SentencesShape | 3123004235/TextProcessor.java:94-106 | Every sentence is non-empty and trimmed, and punctuation occurs in it only as its last character. Every sentence but the last ends with punctuation. |
| TextProcessor.NonBlankOfPieces | 3123004235/TextProcessor.java:94-97 | Pieces ending at punctuation become sentences ending at punctuation. None is dropped: there are as many sentences as pieces. |
| TextProcessor.TrimEndsAtPunctuation | 3123004235/TextProcessor.java:94 | Trimming a piece that ends at punctuation keeps it non-empty and ending at punctuation. |
| TextProcessor.SentencesEmptyIff | 3123004235/TextProcessor.java:85-87 | There are no sentences exactly when every character is one trim removes; in particular "" gives none. |
| TextProcessor.NonBlankEmptyIff | 3123004235/TextProcessor.java:94-97 | All pieces are dropped exactly when their concatenation is all trim-removable characters. |
| TextProcessor.SegmentSentence | 3123004235/TextProcessor.java:116-131 | The result is `Tokens(sentence)`. |
| TextProcessor.Tokens | 3123004235/TextProcessor.java:123-128 | An order-preserving filter: no more tokens than characters. Each token is one character that is not a stop word and is above U+0020. |
| TextProcessor.TokensConcat | 3123004235/TextProcessor.java:123-128 | Tokenising a concatenation concatenates the tokens, so the filter keeps input order. |
| TextProcessor.KeepTest | 3123004235/TextProcessor.java:124-125 | The source's keep test on `String.valueOf(c)` holds exactly when the character is above U+0020 and not a stop word. |
| TextProcessor.OnlySingleCharStopWords | 3123004235/TextProcessor.java:44-48 | Only the one-character stop words can remove a token; the two-character pronouns never match. |
| TextProcessor.TokensNotBlank | 3123004235/TextProcessor.java:123-128 | Text with a token has a character above U+0020. |
| TextProcessor.BuildSynonymMap | 3123004235/TextProcessor.java:137-657 | Building the table by sequential puts gives a key exactly when some put used it, with the value of the last such put. |
| TextProcessor.LastPutIsLastWrite | 3123004235/TextProcessor.java:137-657 | The last-write-wins lookup is absent exactly when no put has the key; otherwise it comes from a put with no later put of that key. |
| TextProcessor.LaterPutWins | 3123004235/TextProcessor.java:155-164 | A put not followed by another put of the same key determines the key's value, so a later duplicate overrides an earlier one. |
| SimilarityCalculator.NormalizeWords | 3123004235/SimilarityCalculator.java:71-77 | Same length as the input. Element i is the synonym of word i when it has one, and word i otherwise. |
| SimilarityCalculator.NormalizeTokensIdentity | 3123004235/SimilarityCalculator.java:71-77 | When every synonym key has two or more characters, normalising one-character tokens changes nothing. |
| SimilarityCalculator.CalculateLcsLength | 3123004235/SimilarityCalculator.java:79-96 | The result is the LCS length of the two lists. Row by row, `dp[i][j]` holds the LCS length of the prefixes of length i and j. |
| SimilarityCalculator.LcsStep | 3123004235/SimilarityCalculator.java:87-91 | The table recurrence: a diagonal step plus one on equal elements, else the larger of the two neighbours. |
| Lcs.LcsIsLongest | 3123004235/SimilarityCalculator.java:79-96 | The table's value is the length of some common subsequence, and no common subsequence is longer. |
| Lcs.LcsBounded | 3123004235/SimilarityCalculator.java:79-96 | The LCS length is at most the length of either list. |
| Lcs.LcsSymmetric | 3123004235/SimilarityCalculator.java:79-96 | The LCS length does not depend on argument order. |
| Lcs.LcsSelf | 3123004235/SimilarityCalculator.java:79-96 | A list's LCS with itself is its whole length. |
| Lcs.LcsDropLast | 3123004235/SimilarityCalculator.java:88-90 | Dropping a last element lowers the LCS length by at most one and never raises it. |
| SimilarityCalculator.CalculateTwoSentencesSimilarity | 3123004235/SimilarityCalculator.java:54-69 | The result is `PairScore`: 1.0 when both token lists are empty, 0.0 when one is, else LCS over the average length. The result lies in [0, 1]. |
| SimilarityCalculator.PairScoreRatio | 3123004235/SimilarityCalculator.java:64-68 | With tokens on both sides the integer average length is at least 1, so the zero-divisor guard never fires and the score is the plain ratio. |
| SimilarityCalculator.PairScoreRange | 3123004235/SimilarityCalculator.java:58-68 | Every pair score lies in [0, 1], because the LCS length is at most min(m, n), which is at most floor((m+n)/2). |
| SimilarityCalculator.PairScoreSelf | 3123004235/SimilarityCalculator.java:54-69 | A sentence scores exactly 1.0 against itself. |
| SimilarityCalculator.PairScoreSymmetric | 3123004235/SimilarityCalculator.java:54-69 | The pair score does not depend on argument order. |
| SimilarityCalculator.PairScoreAtLeast | 3123004235/SimilarityCalculator.java:64-68 | The score reaches num/den exactly when den·lcs ≥ num·avg; for the 0.5 threshold this is 2·lcs ≥ avg. |
| SimilarityCalculator.CalculateSentenceSimilarity | 3123004235/SimilarityCalculator.java:29-52 | The result is `SentenceScore`: the number of candidate sentences whose best score over all originals reaches 0.5, divided by the number of candidates. The break at 0.9 never changes the count. |
| SimilarityCalculator.BestScoreIsMax | 3123004235/SimilarityCalculator.java:33-44 | The running maximum bounds every pair score. It is 0.0 or equal to one of them. |
| SimilarityCalculator.BestScorePrefix | 3123004235/SimilarityCalculator.java:41-43 | The maximum over a prefix is at most the full maximum. So once it reaches 0.9, at or above the threshold, the rest of the originals cannot change the outcome. |
| SimilarityCalculator.BestScoreStep | 3123004235/SimilarityCalculator.java:36-39 | One inner-loop step: the maximum grows to the new pair score when that is larger. |
| SimilarityCalculator.MatchedIff | 3123004235/SimilarityCalculator.java:33-48 | A candidate is counted exactly when some original scores at least 0.5 against it. |
| SimilarityCalculator.MatchCount | 3123004235/SimilarityCalculator.java:30-49 | The number of matches is at most the number of candidates. |
| SimilarityCalculator.MatchCountStep | 3123004235/SimilarityCalculator.java:46-48 | One outer-loop step adds one exactly when the candidate is matched. |
| SimilarityCalculator.MatchCountAll | 3123004235/SimilarityCalculator.java:30-49 | Every candidate is counted exactly when every candidate is matched. |
| SimilarityCalculator.MatchCountNone | 3123004235/SimilarityCalculator.java:30-49 | The count is 0 exactly when no candidate is matched. |
| SimilarityCalculator.SentenceScoreRange | 3123004235/SimilarityCalculator.java:29-52 | The sentence score lies in [0, 1]. It is 1.0 exactly when every candidate is matched and 0.0 exactly when none is. |
| SimilarityCalculator.CopiedSentencesMatch | 3123004235/SimilarityCalculator.java:29-52 | When every candidate sentence occurs among the originals, the sentence score is 1.0. |
| SimilarityCalculator.GetWordFrequency | 3123004235/SimilarityCalculator.java:132-138 | The keys are the distinct words, and each maps to its number of occurrences. |
| SimilarityCalculator.FrequenciesSumToLength | 3123004235/SimilarityCalculator.java:132-138 | The counts add up to the length of the list. |
| SimilarityCalculator.FrequencyLookup | 3123004235/SimilarityCalculator.java:117-118 | `getOrDefault(word, 0)` on a frequency table is the word's count, also for a word not in the table. |
| SimilarityCalculator.AccumulateVectors | 3123004235/SimilarityCalculator.java:109-123 | Whatever order the union of the vocabularies is visited in, the loop ends with the dot product and both squared norms of the two count vectors. |
| SimilarityCalculator.VectorsStep | 3123004235/SimilarityCalculator.java:116-123 | Visiting one more word adds f1·f2, f1·f1 and f2·f2 to the three sums. |
| SimilarityCalculator.CalculateWordFrequencySimilarity | 3123004235/SimilarityCalculator.java:98-130 | The result is `WordScore`: 0.0 when either squared norm is 0, otherwise the cosine of the dot product and the squared norms. |
| SimilarityCalculator.SquaredNormZeroIff | 3123004235/SimilarityCalculator.java:121-127 | A squared norm is non-negative, and 0 exactly when the word list is empty. |
| SimilarityCalculator.WordScoreOfNoWords | 3123004235/SimilarityCalculator.java:125-127 | A text without tokens scores 0.0 against any text, on either side. |
| SimilarityCalculator.DisjointDotZero | 3123004235/SimilarityCalculator.java:116-123 | Lists with no word in common have dot product 0. |
| SimilarityCalculator.EqualCountsDot | 3123004235/SimilarityCalculator.java:116-123 | Lists with equal word multisets have dot product equal to both squared norms. |
| SimilarityCalculator.DotNonNeg | 3123004235/SimilarityCalculator.java:116-123 | The dot product of count vectors is never negative. |
| SimilarityCalculator.WordScoreOfEqualCounts | 3123004235/SimilarityCalculator.java:116-129 | Texts whose tokens have equal counts are scored as cosine(n, n, n) for one positive n. |
| SimilarityCalculator.WordScoreRange | 3123004235/SimilarityCalculator.java:125-129 | When the cosine stays in [0, 1], so does the word score. |
| SimilarityCalculator.CalculateSimilarity | 3123004235/SimilarityCalculator.java:9-27 | The result is `Similarity`: 0.0 when either cleaned text has no sentence, otherwise the clamped 0.7/0.3 combination of the sentence score and the word score. |
| SimilarityCalculator.Clamp | 3123004235/SimilarityCalculator.java:26 | The result lies in [0, 1]. It is x itself inside [0, 1], 1.0 above and 0.0 below. |
| SimilarityCalculator.Combine | 3123004235/SimilarityCalculator.java:24-26 | The weighted, clamped combination lies in [0, 1]. |
| SimilarityCalculator.CombineUnclamped | 3123004235/SimilarityCalculator.java:24-26 | With both scores in [0, 1] the clamp never acts, because the weights add up to 1. |
| SimilarityCalculator.SimilarityBounds | 3123004235/SimilarityCalculator.java:16-26 | The overall score lies in [0, 1], and it is 0.0 when either text yields no sentence. |
| SimilarityCalculator.SimilarityOfBlank | 3123004235/SimilarityCalculator.java:10-18 | A null or blank text scores 0.0 against anything, on either side. |
| SimilarityCalculator.SimilarityUnclamped | 3123004235/SimilarityCalculator.java:20-26 | With a cosine in [0, 1], the overall score is exactly 0.7 times the sentence score plus 0.3 times the word score. |
| SimilarityCalculator.SimilaritySelf | 3123004235/SimilarityCalculator.java:9-27 | A text with at least one token scores exactly 1.0 against itself, when the cosine of a vector with itself is 1. |
| JavaStrings.TrimIsSlice | 3123004235/TextProcessor.java:75 | `String.trim` returns the slice between a leading and a trailing run of characters at or below U+0020. The slice neither starts nor ends with such a character. |
| JavaStrings.TrimEmptyIff | 3123004235/TextProcessor.java:56 | A string trims to "" exactly when all its characters are at or below U+0020. |
| JavaStrings.TrimRemoveSpaces | 3123004235/TextProcessor.java:75 | Deleting spaces commutes with trimming. |
| SetSums.SetSumRemove | 3123004235/SimilarityCalculator.java:116 | Any word may be visited first: a sum over a set does not depend on the visiting order. |

## Left out

- Floating point. Every score is an exact real. Java's rounding of `0.7 * s + 0.3 * w`, of the division in the sentence and pair scores, and of the comparison with 0.9 is not modelled. Comparisons with the 0.5 threshold are unaffected, because 0.5 is exact.
- `Math.sqrt` and the final division in the cosine (`SimilarityCalculator.java:129`) are the parameter `cosine`. It is applied to the exact dot product and squared norms. The model does not say that the result is a cosine.
- SimilarityCalculator.WordScoreRange: the word score lies in [0, 1] only under an assumption about `cosine`, because the square root is not modelled.
- SimilarityCalculator.SimilaritySelf: the exact 1.0 for identical texts assumes the cosine of a vector with itself is 1.0.
- SimilarityCalculator.CalculateSentenceSimilarity: it requires at least one candidate sentence. With none, Java divides 0 by 0 and returns NaN. Its only caller returns 0.0 before that can happen.
- 32-bit `int` overflow is not modelled; integers are unbounded. The LCS table and the frequency counts would need more than two billion tokens to wrap. The products `f1 * f2`, `f1 * f1` and `f2 * f2` (`SimilarityCalculator.java:120-122`) are `int` products too. They wrap as soon as one canonical token, punctuation included, occurs 46,341 times in one text, since 46,341² exceeds 2³¹−1. In Java a squared norm can then go negative, `Math.sqrt` returns NaN, and the clamp at line 26 passes the NaN through, so `calculateSimilarity` returns NaN. The model keeps exact products and captures neither the wrap nor that NaN result.
- The double accumulators `dotProduct`, `norm1` and `norm2` are exact integers. They are sums of products of counts, exact in a double below 2^53.
- The visiting order of `HashSet` and `HashMap`. The word-frequency loop takes an arbitrary remaining word each round. Its result is proved independent of the order.
- UTF-16. A `char` is a Dafny `char`, one Unicode scalar value. Surrogate pairs, which Java treats as two `char`s, are not modelled.
- `Character.isWhitespace` follows current Unicode, so U+180E is not whitespace.
- The contents of the noise-character set (`TextProcessor.java:7-36`) and of the synonym table (`TextProcessor.java:141-655`) are configuration data. The first is the parameter `noise`. The second is modelled by `BuildSynonymMap` over any list of puts, and used as the parameter `synonyms`.
- TextProcessor.CleanedIsClean and TextProcessor.CleanIdempotent assume that ' ' is not a noise character, which holds for the source's set. With ' ' as noise, the loop could still insert a ' ' for other whitespace.
- TextProcessor.CleanKeepsVisible: "the output without spaces equals the input's non-noise, non-whitespace characters" holds only up to a trim. A control character at or below U+0020 that is not Java whitespace (U+0000 to U+0008, U+000E to U+001B) survives the loop but is removed by `trim` at either end. `CleanKeepsVisibleExactly` gives the exact equality for input without such characters.
- `ChunksPartition` states that the buffer contents reassemble the input. The sentences themselves are those pieces trimmed, with empty ones dropped, so the input is reproduced only up to the characters trimmed at sentence boundaries.
- `FileProcessor.java` (file reading and writing), `Main.java` (command line, exit codes, percentage formatting) and `PlagiarismCheckerTest.java` are not part of this model.
