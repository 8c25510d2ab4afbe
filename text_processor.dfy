/**
 * The lexical front end of the similarity checker (TextProcessor.java):
 * cleaning raw text, cutting it into sentences, cutting a sentence into
 * one-character tokens, and building the synonym table.
 *
 * The noise-character set and the list of synonym pairs are configuration
 * data and are passed in; the punctuation set and the stop-word set are small
 * and are written out below exactly as the source has them.
 */
module TextProcessor {
  import opened JavaStrings

  /** CHINESE_PUNCTUATION: the characters after which a sentence ends. */
  const PUNCTUATION: set<char> := {'。', '！', '？', '；', '：', '，', '.', '!', '?', ';', ':'}

  /** STOP_WORDS, including the two-character pronouns. */
  const STOP_WORDS: set<string> := {
    "的", "了", "是", "在", "有", "和", "就", "都", "而", "及",
    "与", "也", "不", "很", "还", "又", "只", "这", "那", "我",
    "你", "他", "她", "它", "我们", "你们", "他们", "她们", "它们"
  }

  /** The one-character entries of STOP_WORDS. */
  const STOP_CHARS: set<char> := {
    '的', '了', '是', '在', '有', '和', '就', '都', '而', '及',
    '与', '也', '不', '很', '还', '又', '只', '这', '那', '我',
    '你', '他', '她', '它'
  }

  // ---------------------------------------------------------------------
  // cleanText
  // ---------------------------------------------------------------------

  /**
   * The buffer cleanText has built after reading s: noise characters are
   * skipped, a whitespace character becomes one ' ' only when the buffer is
   * non-empty and does not already end in whitespace, any other character is
   * copied.
   */
  function Collapse(noise: set<char>, s: string): string
    decreases |s|
  {
    if s == [] then []
    else
      var b := Collapse(noise, s[..|s| - 1]);
      var c := s[|s| - 1];
      if c in noise then b
      else if IsWhitespace(c) then
        (if |b| > 0 && !IsWhitespace(b[|b| - 1]) then b + [' '] else b)
      else b + [c]
  }

  /** What cleanText returns: "" for null or blank input, else the trimmed buffer. */
  function Cleaned(noise: set<char>, text: Option<string>): string {
    match text
    case None => []
    case Some(s) => if Trim(s) == [] then [] else Trim(Collapse(noise, s))
  }

  /** The characters of s that are neither noise nor whitespace, in order. */
  function Visible(noise: set<char>, s: string): string
    decreases |s|
  {
    if s == [] then []
    else
      var c := s[|s| - 1];
      Visible(noise, s[..|s| - 1]) + (if c in noise || IsWhitespace(c) then [] else [c])
  }

  /** No noise character in t. */
  predicate NoiseFree(noise: set<char>, t: string) {
    forall k :: 0 <= k < |t| ==> t[k] !in noise
  }

  /** No whitespace other than ' ', and never two spaces in a row. */
  predicate Collapsed(t: string) {
    && (forall k :: 0 <= k < |t| && IsWhitespace(t[k]) ==> t[k] == ' ')
    && (forall k :: 0 <= k && k + 1 < |t| ==> t[k] != ' ' || t[k + 1] != ' ')
  }

  /**
   * The shape of every cleanText result when ' ' is not itself a noise
   * character: noise-free, collapsed, and trimmed at both ends.
   */
  predicate IsCleanText(noise: set<char>, t: string) {
    NoiseFree(noise, t) && Collapsed(t) && (t == [] || (!IsLow(t[0]) && !IsLow(t[|t| - 1])))
  }

  /** Every slice of a collapsed, noise-free string is collapsed and noise-free. */
  lemma CollapsedSlice(noise: set<char>, t: string, i: nat, j: nat)
    requires i <= j <= |t| && Collapsed(t) && NoiseFree(noise, t)
    ensures Collapsed(t[i..j]) && NoiseFree(noise, t[i..j])
  {
    var u := t[i..j];
    forall k | 0 <= k < |u| ensures u[k] == t[i + k] {}
  }

  /** The buffer is collapsed and does not start with whitespace. */
  lemma {:induction false} CollapseCollapsed(noise: set<char>, s: string)
    ensures Collapsed(Collapse(noise, s))
    ensures Collapse(noise, s) == [] || !IsWhitespace(Collapse(noise, s)[0])
    decreases |s|
  {
    if s != [] {
      var p, c := s[..|s| - 1], s[|s| - 1];
      CollapseCollapsed(noise, p);
      var b := Collapse(noise, p);
      if c !in noise && IsWhitespace(c) && |b| > 0 && !IsWhitespace(b[|b| - 1]) {
        var b' := b + [' '];
        forall k | 0 <= k && k + 1 < |b'| ensures b'[k] != ' ' || b'[k + 1] != ' ' {
          if k + 1 < |b| {
            assert b'[k] == b[k] && b'[k + 1] == b[k + 1];
          }
        }
      } else if c !in noise && !IsWhitespace(c) {
        var b' := b + [c];
        forall k | 0 <= k && k + 1 < |b'| ensures b'[k] != ' ' || b'[k + 1] != ' ' {
          if k + 1 < |b| {
            assert b'[k] == b[k] && b'[k + 1] == b[k + 1];
          }
        }
      }
    }
  }

  /** When ' ' is not a noise character, the buffer holds no noise character. */
  lemma {:induction false} CollapseNoiseFree(noise: set<char>, s: string)
    requires ' ' !in noise
    ensures NoiseFree(noise, Collapse(noise, s))
    decreases |s|
  {
    if s != [] {
      CollapseNoiseFree(noise, s[..|s| - 1]);
    }
  }

  /** Deleting the buffer's spaces leaves exactly the visible characters of the input. */
  lemma {:induction false} CollapseVisible(noise: set<char>, s: string)
    ensures RemoveSpaces(Collapse(noise, s)) == Visible(noise, s)
    decreases |s|
  {
    if s != [] {
      var p, c := s[..|s| - 1], s[|s| - 1];
      CollapseVisible(noise, p);
      var b := Collapse(noise, p);
      if c in noise {
      } else if IsWhitespace(c) {
        if |b| > 0 && !IsWhitespace(b[|b| - 1]) {
          RemoveSpacesConcat(b, [' ']);
          assert RemoveSpaces([' ']) == [];
        }
      } else {
        RemoveSpacesConcat(b, [c]);
        assert RemoveSpaces([c]) == [c] by { assert [c][1..] == []; }
      }
    }
  }

  /** Blank input gives a buffer of characters at or below U+0020. */
  lemma {:induction false} CollapseOfBlank(noise: set<char>, s: string)
    requires AllLow(s)
    ensures AllLow(Collapse(noise, s))
    decreases |s|
  {
    if s != [] {
      var p := s[..|s| - 1];
      forall k | 0 <= k < |p| ensures IsLow(p[k]) { assert p[k] == s[k]; }
      CollapseOfBlank(noise, p);
      assert IsLow(s[|s| - 1]);
    }
  }

  /** A collapsed string that does not start with whitespace is its own buffer. */
  lemma {:induction false} CollapseOfCollapsed(noise: set<char>, t: string)
    requires Collapsed(t) && NoiseFree(noise, t)
    requires t == [] || !IsWhitespace(t[0])
    ensures Collapse(noise, t) == t
    decreases |t|
  {
    if t != [] {
      var p, c := t[..|t| - 1], t[|t| - 1];
      CollapsedSlice(noise, t, 0, |t| - 1);
      assert p == t[0..|t| - 1];
      CollapseOfCollapsed(noise, p);
      assert c !in noise;
      if IsWhitespace(c) {
        assert c == ' ' && |t| >= 2;
        assert p[|p| - 1] == t[|t| - 2] != ' ';
      }
      assert p + [c] == t;
    }
  }

  /** Trimming a collapsed, noise-free buffer gives clean text. */
  lemma TrimmedBufferIsClean(noise: set<char>, b: string)
    requires Collapsed(b) && NoiseFree(noise, b)
    ensures IsCleanText(noise, Trim(b))
  {
    TrimSliceBounds(b);
    TrimKeptEnds(b);
    SliceIsClean(noise, b, Trim(b), TrimFrom(b));
  }

  /** A slice of a collapsed, noise-free buffer that starts and ends with visible characters is clean text. */
  lemma SliceIsClean(noise: set<char>, b: string, t: string, i: nat)
    requires Collapsed(b) && NoiseFree(noise, b)
    requires i + |t| <= |b| && t == b[i..i + |t|]
    requires t == [] || (!IsLow(t[0]) && !IsLow(t[|t| - 1]))
    ensures IsCleanText(noise, t)
  {
    CollapsedSlice(noise, b, i, i + |t|);
  }

  /** cleanText always returns a noise-free, collapsed, trimmed string. */
  lemma CleanedIsClean(noise: set<char>, text: Option<string>)
    requires ' ' !in noise
    ensures IsCleanText(noise, Cleaned(noise, text))
  {
    if text.Some? && Trim(text.value) != [] {
      var b := Collapse(noise, text.value);
      CollapseCollapsed(noise, text.value);
      CollapseNoiseFree(noise, text.value);
      TrimmedBufferIsClean(noise, b);
      assert Cleaned(noise, text) == Trim(b);
    } else {
      assert Cleaned(noise, text) == [];
    }
  }

  /** cleanText is idempotent: cleaning clean text changes nothing. */
  lemma CleanIdempotent(noise: set<char>, text: Option<string>)
    requires ' ' !in noise
    ensures Cleaned(noise, Some(Cleaned(noise, text))) == Cleaned(noise, text)
  {
    var t := Cleaned(noise, text);
    CleanedIsClean(noise, text);
    TrimOfTrimmed(t);
    CollapseOfCollapsed(noise, t);
    assert t == [] || Trim(t) != [];
  }

  /**
   * The blank-input guard at the top of cleanText never changes the answer:
   * the loop alone would have produced "" for such input too.
   */
  lemma BlankGuardRedundant(noise: set<char>, s: string)
    requires Trim(s) == []
    ensures Trim(Collapse(noise, s)) == []
  {
    TrimEmptyIff(s);
    CollapseOfBlank(noise, s);
    TrimEmptyIff(Collapse(noise, s));
  }

  /** The visible characters of blank input are themselves blank. */
  lemma VisibleOfBlank(noise: set<char>, s: string)
    requires AllLow(s)
    ensures AllLow(Visible(noise, s))
  {
    CollapseOfBlank(noise, s);
    CollapseVisible(noise, s);
    RemoveSpacesAllLow(Collapse(noise, s));
  }

  lemma {:induction false} RemoveSpacesAllLow(s: string)
    requires AllLow(s)
    ensures AllLow(RemoveSpaces(s))
    decreases |s|
  {
    if s != [] {
      assert AllLow(s[1..]) by {
        forall k | 0 <= k < |s| - 1 ensures IsLow(s[1..][k]) { assert s[1..][k] == s[k + 1]; }
      }
      RemoveSpacesAllLow(s[1..]);
      var h: string := if s[0] == ' ' then [] else [s[0]];
      assert RemoveSpaces(s) == h + RemoveSpaces(s[1..]);
    }
  }

  /**
   * No character above U+0020 is lost or invented: deleting the spaces from
   * the result gives the input's non-noise, non-whitespace characters in
   * their original order, less any run of characters at or below U+0020 at
   * either end (the final trim).
   */
  lemma CleanKeepsVisible(noise: set<char>, s: string)
    ensures RemoveSpaces(Cleaned(noise, Some(s))) == Trim(Visible(noise, s))
  {
    CollapseVisible(noise, s);
    if Trim(s) == [] {
      TrimEmptyIff(s);
      VisibleOfBlank(noise, s);
      TrimEmptyIff(Visible(noise, s));
    } else {
      TrimRemoveSpaces(Collapse(noise, s));
    }
  }

  /** Visible characters of text whose low characters are all whitespace are above U+0020. */
  lemma {:induction false} VisibleNoLow(noise: set<char>, s: string)
    requires forall k :: 0 <= k < |s| && IsLow(s[k]) ==> IsWhitespace(s[k])
    ensures forall k :: 0 <= k < |Visible(noise, s)| ==> !IsLow(Visible(noise, s)[k])
    decreases |s|
  {
    if s != [] {
      var p := s[..|s| - 1];
      forall k | 0 <= k < |p| && IsLow(p[k]) ensures IsWhitespace(p[k]) { assert p[k] == s[k]; }
      VisibleNoLow(noise, p);
    }
  }

  /**
   * For ordinary text (every character at or below U+0020 is whitespace),
   * the result with its spaces deleted is exactly the input with noise and
   * whitespace deleted.
   */
  lemma CleanKeepsVisibleExactly(noise: set<char>, s: string)
    requires forall k :: 0 <= k < |s| && IsLow(s[k]) ==> IsWhitespace(s[k])
    ensures RemoveSpaces(Cleaned(noise, Some(s))) == Visible(noise, s)
  {
    CleanKeepsVisible(noise, s);
    VisibleNoLow(noise, s);
    TrimOfTrimmed(Visible(noise, s));
  }

  /** One iteration of cleanText's loop, in terms of the buffer before and after. */
  lemma CollapseStep(noise: set<char>, s: string, i: nat)
    requires i < |s|
    ensures var b, c := Collapse(noise, s[..i]), s[i];
      Collapse(noise, s[..i + 1]) ==
        if c in noise then b
        else if IsWhitespace(c) then (if |b| > 0 && !IsWhitespace(b[|b| - 1]) then b + [' '] else b)
        else b + [c]
  {
    assert s[..i + 1][..i] == s[..i];
  }

  /** cleanText (TextProcessor.java:55-76). */
  method CleanText(noise: set<char>, text: Option<string>) returns (r: string)
    ensures r == Cleaned(noise, text)
    ensures ' ' !in noise ==> IsCleanText(noise, r)
    ensures text.None? || Trim(text.value) == [] ==> r == []
  {
    if ' ' !in noise {
      CleanedIsClean(noise, text);
    }
    if text.None? || Trim(text.value) == [] {
      return [];
    }
    var s := text.value;
    var cleaned := [];
    for i := 0 to |s|
      invariant cleaned == Collapse(noise, s[..i])
    {
      var c := s[i];
      CollapseStep(noise, s, i);
      if c in noise {
        continue;
      }
      if IsWhitespace(c) {
        if |cleaned| > 0 && !IsWhitespace(cleaned[|cleaned| - 1]) {
          cleaned := cleaned + [' '];
        }
      } else {
        cleaned := cleaned + [c];
      }
    }
    assert s[..|s|] == s;
    r := Trim(cleaned);
  }

  // ---------------------------------------------------------------------
  // splitIntoSentences
  // ---------------------------------------------------------------------

  /** No punctuation character anywhere in w. */
  predicate NoPunctuation(w: string) {
    forall k :: 0 <= k < |w| ==> w[k] !in PUNCTUATION
  }

  /** w ends with a punctuation character and has no other. */
  predicate EndsAtPunctuation(w: string) {
    w != [] && w[|w| - 1] in PUNCTUATION && NoPunctuation(w[..|w| - 1])
  }

  /**
   * The successive contents of the splitter's buffer: s cut right after every
   * punctuation character. The last piece is what is left in the buffer at
   * the end, possibly empty.
   */
  function Chunks(s: string): (cs: seq<string>)
    ensures |cs| >= 1
    decreases |s|
  {
    if s == [] then [[]]
    else
      var cs := Chunks(s[..|s| - 1]);
      var c := s[|s| - 1];
      var grown := cs[..|cs| - 1] + [cs[|cs| - 1] + [c]];
      if c in PUNCTUATION then grown + [[]] else grown
  }

  function Concat(cs: seq<string>): string
    decreases |cs|
  {
    if cs == [] then [] else Concat(cs[..|cs| - 1]) + cs[|cs| - 1]
  }

  /** Trim every piece and keep those that are not empty. */
  function NonBlank(cs: seq<string>): seq<string>
    decreases |cs|
  {
    if cs == [] then []
    else
      var t := Trim(cs[|cs| - 1]);
      NonBlank(cs[..|cs| - 1]) + (if t == [] then [] else [t])
  }

  /** What splitIntoSentences returns. */
  function Sentences(s: string): seq<string> {
    NonBlank(Chunks(s))
  }

  lemma ConcatSnoc(cs: seq<string>, w: string)
    ensures Concat(cs + [w]) == Concat(cs) + w
  {
    assert (cs + [w])[..|cs|] == cs;
  }

  /** The pieces concatenate back to s. */
  lemma {:induction false} ChunksConcat(s: string)
    ensures Concat(Chunks(s)) == s
    decreases |s|
  {
    if s != [] {
      var p, c := s[..|s| - 1], s[|s| - 1];
      ChunksConcat(p);
      var cs := Chunks(p);
      var n := |cs|;
      var init, last := cs[..n - 1], cs[n - 1];
      var grown := init + [last + [c]];
      assert Chunks(s) == if c in PUNCTUATION then grown + [[]] else grown;
      InitAndLast(cs);
      ConcatSnoc(init, last);
      ConcatSnoc(init, last + [c]);
      if c in PUNCTUATION {
        ConcatSnoc(grown, []);
      }
      InitAndLast(s);
    }
  }

  /**
   * Every piece but the last ends with a punctuation character and has no
   * other, and the last piece has none.
   */
  lemma {:induction false} ChunksPieces(s: string)
    ensures forall k :: 0 <= k < |Chunks(s)| - 1 ==> EndsAtPunctuation(Chunks(s)[k])
    ensures NoPunctuation(Chunks(s)[|Chunks(s)| - 1])
    decreases |s|
  {
    if s != [] {
      var p, c := s[..|s| - 1], s[|s| - 1];
      ChunksPieces(p);
      var cs := Chunks(p);
      var n := |cs|;
      var grown := cs[..n - 1] + [cs[n - 1] + [c]];
      assert Chunks(s) == if c in PUNCTUATION then grown + [[]] else grown;
      if c in PUNCTUATION {
        GrowAtPunctuation(cs, c);
      } else {
        GrowInside(cs, c);
      }
    }
  }

  /** Appending a punctuation character closes the last piece and opens an empty one. */
  lemma GrowAtPunctuation(cs: seq<string>, c: char)
    requires |cs| >= 1 && c in PUNCTUATION
    requires forall k :: 0 <= k < |cs| - 1 ==> EndsAtPunctuation(cs[k])
    requires NoPunctuation(cs[|cs| - 1])
    ensures var cs' := cs[..|cs| - 1] + [cs[|cs| - 1] + [c]] + [[]];
      && (forall k :: 0 <= k < |cs'| - 1 ==> EndsAtPunctuation(cs'[k]))
      && NoPunctuation(cs'[|cs'| - 1])
  {
    var n := |cs|;
    var last := cs[n - 1];
    var w := last + [c];
    assert w[..|last|] == last;
    var cs' := cs[..n - 1] + [w] + [[]];
    forall k | 0 <= k < |cs'| - 1 ensures EndsAtPunctuation(cs'[k]) {
      if k < n - 1 {
        assert cs'[k] == cs[k];
      } else {
        assert cs'[k] == w;
      }
    }
  }

  /** Appending any other character extends the last piece. */
  lemma GrowInside(cs: seq<string>, c: char)
    requires |cs| >= 1 && c !in PUNCTUATION
    requires forall k :: 0 <= k < |cs| - 1 ==> EndsAtPunctuation(cs[k])
    requires NoPunctuation(cs[|cs| - 1])
    ensures var cs' := cs[..|cs| - 1] + [cs[|cs| - 1] + [c]];
      && (forall k :: 0 <= k < |cs'| - 1 ==> EndsAtPunctuation(cs'[k]))
      && NoPunctuation(cs'[|cs'| - 1])
  {
    var n := |cs|;
    var last := cs[n - 1];
    var w := last + [c];
    var cs' := cs[..n - 1] + [w];
    forall j | 0 <= j < |w| ensures w[j] !in PUNCTUATION {
      if j < |last| {
        assert w[j] == last[j];
      }
    }
    assert cs'[|cs'| - 1] == w;
    forall k | 0 <= k < |cs'| - 1 ensures EndsAtPunctuation(cs'[k]) {
      assert cs'[k] == cs[k];
    }
  }

  /**
   * The pieces are a partition of s: they concatenate back to s, every piece
   * but the last ends with a punctuation character and has no other, and the
   * last piece has none. (These three facts determine the pieces.)
   */
  lemma ChunksPartition(s: string)
    ensures Concat(Chunks(s)) == s
    ensures forall k :: 0 <= k < |Chunks(s)| - 1 ==> EndsAtPunctuation(Chunks(s)[k])
    ensures NoPunctuation(Chunks(s)[|Chunks(s)| - 1])
  {
    ChunksConcat(s);
    ChunksPieces(s);
  }

  /** Trimming a piece that ends at punctuation keeps that shape (punctuation is above U+0020). */
  lemma TrimEndsAtPunctuation(w: string)
    requires EndsAtPunctuation(w)
    ensures Trim(w) != [] && EndsAtPunctuation(Trim(w))
  {
    TrimIsSlice(w);
    var i, t := TrimFrom(w), Trim(w);
    assert !IsLow(w[|w| - 1]);
    assert i + |t| == |w|;
    assert t[|t| - 1] == w[|w| - 1];
    var u, v := t[..|t| - 1], w[..|w| - 1];
    forall k | 0 <= k < |u| ensures u[k] !in PUNCTUATION {
      assert u[k] == w[i + k] == v[i + k];
    }
  }

  /** Trimming keeps a punctuation-free piece punctuation-free. */
  lemma TrimNoPunctuation(w: string)
    requires NoPunctuation(w)
    ensures NoPunctuation(Trim(w))
  {
    TrimIsSlice(w);
    var i, t := TrimFrom(w), Trim(w);
    forall k | 0 <= k < |t| ensures t[k] !in PUNCTUATION {
      assert t[k] == w[i + k];
    }
  }

  /**
   * A sentence as splitIntoSentences emits it: non-empty, neither starting
   * nor ending with a character at or below U+0020, and with punctuation at
   * most as its last character.
   */
  predicate IsSentence(w: string) {
    w != [] && !IsLow(w[0]) && !IsLow(w[|w| - 1]) && NoPunctuation(w[..|w| - 1])
  }

  /** Sentences cut from pieces that end at punctuation are sentences ending at punctuation. */
  lemma {:induction false} NonBlankOfPieces(cs: seq<string>)
    requires forall k :: 0 <= k < |cs| ==> EndsAtPunctuation(cs[k])
    ensures |NonBlank(cs)| == |cs|
    ensures forall k :: 0 <= k < |NonBlank(cs)| ==> IsSentence(NonBlank(cs)[k]) && EndsAtPunctuation(NonBlank(cs)[k])
    decreases |cs|
  {
    if cs != [] {
      var init, w := cs[..|cs| - 1], cs[|cs| - 1];
      forall k | 0 <= k < |init| ensures EndsAtPunctuation(init[k]) {
        assert init[k] == cs[k];
      }
      NonBlankOfPieces(init);
      PieceSentence(w);
      assert NonBlank(cs) == NonBlank(init) + [Trim(w)];
      SnocSentence(NonBlank(init), Trim(w));
    }
  }

  /** A piece ending at punctuation trims to a sentence ending at punctuation. */
  lemma PieceSentence(w: string)
    requires EndsAtPunctuation(w)
    ensures Trim(w) != [] && IsSentence(Trim(w)) && EndsAtPunctuation(Trim(w))
  {
    TrimEndsAtPunctuation(w);
    TrimIsSlice(w);
  }

  lemma SnocSentence(head: seq<string>, t: string)
    requires forall k :: 0 <= k < |head| ==> IsSentence(head[k]) && EndsAtPunctuation(head[k])
    requires IsSentence(t) && EndsAtPunctuation(t)
    ensures forall k :: 0 <= k < |head + [t]| ==> IsSentence((head + [t])[k]) && EndsAtPunctuation((head + [t])[k])
  {
    var ss := head + [t];
    forall k | 0 <= k < |ss| ensures IsSentence(ss[k]) && EndsAtPunctuation(ss[k]) {
      if k < |head| {
        assert ss[k] == head[k];
      }
    }
  }

  /** The trimmed remainder of a punctuation-free piece, when not empty, is a sentence. */
  lemma LastPieceSentence(w: string)
    requires NoPunctuation(w) && Trim(w) != []
    ensures IsSentence(Trim(w))
  {
    TrimNoPunctuation(w);
    TrimIsSlice(w);
    var t := Trim(w);
    var u := t[..|t| - 1];
    forall j | 0 <= j < |u| ensures u[j] !in PUNCTUATION {
      assert u[j] == t[j];
    }
  }

  /**
   * Every sentence is non-empty and trimmed, a punctuation character can only
   * be a sentence's last character, and every sentence but the last ends
   * with one.
   */
  lemma {:induction false} SentencesShape(s: string)
    ensures forall k :: 0 <= k < |Sentences(s)| ==> IsSentence(Sentences(s)[k])
    ensures forall k :: 0 <= k < |Sentences(s)| - 1 ==> EndsAtPunctuation(Sentences(s)[k])
  {
    ChunksPieces(s);
    SplitEnd(s);
    var cs := Chunks(s);
    var n := |cs|;
    var init, last := cs[..n - 1], cs[n - 1];
    forall k | 0 <= k < |init| ensures EndsAtPunctuation(init[k]) {
      assert init[k] == cs[k];
    }
    NonBlankOfPieces(init);
    var head := NonBlank(init);
    if Trim(last) != [] {
      LastPieceSentence(last);
      AppendSentence(head, Trim(last));
      assert Sentences(s) == head + [Trim(last)];
    } else {
      assert Sentences(s) == head + [];
      assert head + [] == head;
    }
  }

  /** A list of sentences ending at punctuation, followed by one more sentence. */
  lemma AppendSentence(head: seq<string>, t: string)
    requires forall k :: 0 <= k < |head| ==> IsSentence(head[k]) && EndsAtPunctuation(head[k])
    requires IsSentence(t)
    ensures forall k :: 0 <= k < |head + [t]| ==> IsSentence((head + [t])[k])
    ensures forall k :: 0 <= k < |head + [t]| - 1 ==> EndsAtPunctuation((head + [t])[k])
  {
    var ss := head + [t];
    forall k | 0 <= k < |ss| ensures IsSentence(ss[k]) {
      if k < |head| {
        assert ss[k] == head[k];
      }
    }
    forall k | 0 <= k < |ss| - 1 ensures EndsAtPunctuation(ss[k]) {
      assert ss[k] == head[k];
    }
  }

  lemma {:induction false} NonBlankEmptyIff(cs: seq<string>)
    ensures NonBlank(cs) == [] <==> AllLow(Concat(cs))
    decreases |cs|
  {
    if cs != [] {
      var p, w := cs[..|cs| - 1], cs[|cs| - 1];
      NonBlankEmptyIff(p);
      TrimEmptyIff(w);
      var c := Concat(p);
      assert Concat(cs) == c + w;
      if AllLow(c + w) {
        forall k | 0 <= k < |c| ensures IsLow(c[k]) { assert (c + w)[k] == c[k]; }
        forall k | 0 <= k < |w| ensures IsLow(w[k]) { assert (c + w)[|c| + k] == w[k]; }
      }
    }
  }

  /** splitIntoSentences returns no sentence exactly when the text is blank. */
  lemma SentencesEmptyIff(s: string)
    ensures Sentences(s) == [] <==> AllLow(s)
  {
    ChunksPartition(s);
    NonBlankEmptyIff(Chunks(s));
  }

  /** Reading one more character: it joins the buffer, and punctuation then closes the buffer. */
  lemma ChunksStep(text: string, i: nat)
    requires i < |text|
    ensures var cs, cs' := Chunks(text[..i]), Chunks(text[..i + 1]);
      var grown := cs[|cs| - 1] + [text[i]];
      if text[i] in PUNCTUATION then
        cs'[|cs'| - 1] == [] && cs'[..|cs'| - 1] == cs[..|cs| - 1] + [grown]
      else
        cs'[|cs'| - 1] == grown && cs'[..|cs'| - 1] == cs[..|cs| - 1]
  {
    assert text[..i + 1][..i] == text[..i];
    var cs := Chunks(text[..i]);
    var g := cs[..|cs| - 1] + [cs[|cs| - 1] + [text[i]]];
    assert g[..|g| - 1] == cs[..|cs| - 1];
    assert (g + [[]])[..|g|] == g;
  }

  /** Emitting one more piece adds its trimmed form unless that is empty. */
  lemma NonBlankSnoc(cs: seq<string>, w: string)
    ensures NonBlank(cs + [w]) == NonBlank(cs) + (if Trim(w) == [] then [] else [Trim(w)])
  {
    assert (cs + [w])[..|cs|] == cs;
  }

  /**
   * One iteration of the splitter: the buffer grows by the character read;
   * after punctuation the trimmed buffer, unless empty, is emitted and the
   * buffer restarts empty.
   */
  lemma SplitStep(text: string, i: nat)
    requires i < |text|
    ensures var cs, cs' := Chunks(text[..i]), Chunks(text[..i + 1]);
      var grown := cs[|cs| - 1] + [text[i]];
      var emitted := NonBlank(cs[..|cs| - 1]);
      if text[i] in PUNCTUATION then
        cs'[|cs'| - 1] == [] &&
        NonBlank(cs'[..|cs'| - 1]) == emitted + (if Trim(grown) == [] then [] else [Trim(grown)])
      else
        cs'[|cs'| - 1] == grown && NonBlank(cs'[..|cs'| - 1]) == emitted
  {
    ChunksStep(text, i);
    var cs := Chunks(text[..i]);
    NonBlankSnoc(cs[..|cs| - 1], cs[|cs| - 1] + [text[i]]);
  }

  /** At the end of the text the sentences are those emitted plus the trimmed rest of the buffer. */
  lemma SplitEnd(text: string)
    ensures var cs := Chunks(text);
      Sentences(text) == NonBlank(cs[..|cs| - 1]) +
        (if Trim(cs[|cs| - 1]) == [] then [] else [Trim(cs[|cs| - 1])])
  {
    var cs := Chunks(text);
    NonBlankSnoc(cs[..|cs| - 1], cs[|cs| - 1]);
    InitAndLast(cs);
  }

  lemma InitAndLast<T>(cs: seq<T>)
    requires cs != []
    ensures cs[..|cs| - 1] + [cs[|cs| - 1]] == cs
  {
  }

  /** splitIntoSentences (TextProcessor.java:83-109). */
  method SplitIntoSentences(text: string) returns (sentences: seq<string>)
    ensures sentences == Sentences(text)
  {
    sentences := [];
    if text == [] {
      return;
    }
    var current := "";
    for i := 0 to |text|
      invariant current == Chunks(text[..i])[|Chunks(text[..i])| - 1]
      invariant sentences == NonBlank(Chunks(text[..i])[..|Chunks(text[..i])| - 1])
    {
      var c := text[i];
      SplitStep(text, i);
      current := current + [c];
      if c in PUNCTUATION {
        var sentence := Trim(current);
        if sentence != [] {
          sentences := sentences + [sentence];
        }
        current := "";
      }
    }
    assert text[..|text|] == text;
    SplitEnd(text);
    var lastSentence := Trim(current);
    if lastSentence != [] {
      sentences := sentences + [lastSentence];
    }
  }

  // ---------------------------------------------------------------------
  // segmentSentence
  // ---------------------------------------------------------------------

  /**
   * A character segmentSentence keeps as a token: its one-character string
   * is not a stop word and does not trim to "".
   */
  predicate IsTokenChar(c: char) {
    [c] !in STOP_WORDS && !IsLow(c)
  }

  /** What segmentSentence returns: one string per kept character, in order. */
  function Tokens(s: string): (ws: seq<string>)
    ensures |ws| <= |s|
    ensures forall k :: 0 <= k < |ws| ==> |ws[k]| == 1 && IsTokenChar(ws[k][0])
    decreases |s|
  {
    if s == [] then []
    else
      var c := s[|s| - 1];
      Tokens(s[..|s| - 1]) + (if IsTokenChar(c) then [[c]] else [])
  }

  /** Tokenising is an order-preserving filter: it distributes over concatenation. */
  lemma {:induction false} TokensConcat(a: string, b: string)
    ensures Tokens(a + b) == Tokens(a) + Tokens(b)
    decreases |b|
  {
    if b == [] {
      assert a + b == a;
    } else {
      var p := b[..|b| - 1];
      assert (a + b)[..|a + b| - 1] == a + p;
      TokensConcat(a, p);
    }
  }

  /**
   * Only the one-character stop words can ever remove a character: the
   * two-character pronouns never equal a one-character word.
   */
  lemma OnlySingleCharStopWords(c: char)
    ensures IsTokenChar(c) <==> !IsLow(c) && c !in STOP_CHARS
  {
  }

  /** Text with a token holds a character above U+0020, so it is not blank. */
  lemma {:induction false} TokensNotBlank(s: string)
    requires Tokens(s) != []
    ensures !AllLow(s)
    decreases |s|
  {
    var p, c := s[..|s| - 1], s[|s| - 1];
    if !IsTokenChar(c) {
      TokensNotBlank(p);
      var k :| 0 <= k < |p| && !IsLow(p[k]);
      assert s[k] == p[k];
    }
  }

  /** The test segmentSentence applies to a one-character word. */
  lemma KeepTest(c: char)
    ensures ([c] !in STOP_WORDS && Trim([c]) != []) == IsTokenChar(c)
  {
    TrimSingleton(c);
  }

  /** segmentSentence (TextProcessor.java:116-131). */
  method SegmentSentence(sentence: string) returns (words: seq<string>)
    ensures words == Tokens(sentence)
  {
    words := [];
    if sentence == [] {
      return;
    }
    for i := 0 to |sentence|
      invariant words == Tokens(sentence[..i])
    {
      var word := [sentence[i]];
      assert sentence[..i + 1][..i] == sentence[..i];
      KeepTest(sentence[i]);
      if word !in STOP_WORDS && Trim(word) != [] {
        words := words + [word];
      }
    }
    assert sentence[..|sentence|] == sentence;
  }

  // ---------------------------------------------------------------------
  // getSynonymMap
  // ---------------------------------------------------------------------

  /** The value the last put for key k leaves in the table, if any put has key k. */
  function LastPut(puts: seq<(string, string)>, k: string): Option<string>
    decreases |puts|
  {
    if puts == [] then None
    else if puts[|puts| - 1].0 == k then Some(puts[|puts| - 1].1)
    else LastPut(puts[..|puts| - 1], k)
  }

  /**
   * Last write wins: the table maps k to v exactly when some put (k, v) is
   * followed by no other put for k, and has no entry for k exactly when no
   * put has key k.
   */
  lemma {:induction false} LastPutIsLastWrite(puts: seq<(string, string)>, k: string)
    ensures LastPut(puts, k).None? <==> forall i :: 0 <= i < |puts| ==> puts[i].0 != k
    ensures LastPut(puts, k).Some? ==>
      exists i :: 0 <= i < |puts| && puts[i] == (k, LastPut(puts, k).value) &&
        forall j :: i < j < |puts| ==> puts[j].0 != k
    decreases |puts|
  {
    if puts != [] {
      var p := puts[..|puts| - 1];
      LastPutIsLastWrite(p, k);
      assert forall i :: 0 <= i < |p| ==> p[i] == puts[i];
      if puts[|puts| - 1].0 != k && LastPut(p, k).Some? {
        var i :| 0 <= i < |p| && p[i] == (k, LastPut(p, k).value) &&
          forall j :: i < j < |p| ==> p[j].0 != k;
        assert puts[i] == (k, LastPut(puts, k).value);
      }
    }
  }

  /** The value of a put survives unless a later put has the same key. */
  lemma {:induction false} LaterPutWins(puts: seq<(string, string)>, i: nat)
    requires i < |puts|
    requires forall j :: i < j < |puts| ==> puts[j].0 != puts[i].0
    ensures LastPut(puts, puts[i].0) == Some(puts[i].1)
    decreases |puts|
  {
    if i < |puts| - 1 {
      LaterPutWins(puts[..|puts| - 1], i);
    }
  }

  /** getSynonymMap (TextProcessor.java:137-657), over its sequence of puts. */
  method BuildSynonymMap(puts: seq<(string, string)>) returns (synonymMap: map<string, string>)
    ensures forall k :: k in synonymMap <==> LastPut(puts, k).Some?
    ensures forall k :: k in synonymMap ==> synonymMap[k] == LastPut(puts, k).value
  {
    synonymMap := map[];
    for i := 0 to |puts|
      invariant forall k :: k in synonymMap <==> LastPut(puts[..i], k).Some?
      invariant forall k :: k in synonymMap ==> synonymMap[k] == LastPut(puts[..i], k).value
    {
      assert puts[..i + 1][..i] == puts[..i];
      synonymMap := synonymMap[puts[i].0 := puts[i].1];
    }
    assert puts[..|puts|] == puts;
  }
}
