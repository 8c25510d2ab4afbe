/**
 * The few pieces of java.lang the text pipeline leans on, stated exactly:
 * a nullable reference, Character.isWhitespace on one character, and
 * String.trim, which removes characters at or below U+0020 from both ends.
 * The two notions of "blank" differ in both directions (U+0001 is trimmed but
 * is not whitespace; U+3000 is whitespace but is not trimmed), so they are
 * kept apart.
 */
module JavaStrings {

  /** A Java reference that may be null. */
  datatype Option<+T> = None | Some(value: T)

  /**
   * Character.isWhitespace: the Unicode space, line and paragraph separators
   * except the no-break spaces U+00A0, U+2007 and U+202F, together with
   * U+0009 to U+000D and U+001C to U+001F.
   */
  predicate IsWhitespace(c: char) {
    || ('\U{9}' <= c <= '\U{D}')
    || ('\U{1C}' <= c <= ' ')
    || c == '\U{1680}'
    || ('\U{2000}' <= c <= '\U{2006}')
    || ('\U{2008}' <= c <= '\U{200A}')
    || c == '\U{2028}'
    || c == '\U{2029}'
    || c == '\U{205F}'
    || c == '\U{3000}'
  }

  /** A character that String.trim removes when it stands at an end. */
  predicate IsLow(c: char) {
    c <= ' '
  }

  /** True when every character of s is one that trim removes. */
  predicate AllLow(s: string) {
    forall k :: 0 <= k < |s| ==> IsLow(s[k])
  }

  /** s with its leading run of characters at or below U+0020 removed. */
  function TrimStart(s: string): (r: string)
    ensures |r| <= |s| && r == s[|s| - |r|..]
    ensures r == [] || !IsLow(r[0])
    ensures AllLow(s[..|s| - |r|])
    decreases |s|
  {
    if s != [] && IsLow(s[0]) then
      var r := TrimStart(s[1..]);
      assert s[..|s| - |r|] == [s[0]] + s[1..][..|s| - 1 - |r|];
      r
    else s
  }

  /** s with its trailing run of characters at or below U+0020 removed. */
  function TrimEnd(s: string): (r: string)
    ensures |r| <= |s| && r == s[..|r|]
    ensures r == [] || !IsLow(r[|r| - 1])
    ensures AllLow(s[|r|..])
    decreases |s|
  {
    if s != [] && IsLow(s[|s| - 1]) then
      var p := s[..|s| - 1];
      var r := TrimEnd(p);
      assert s[|r|..] == p[|r|..] + [s[|s| - 1]];
      r
    else s
  }

  /** String.trim. */
  function Trim(s: string): string {
    TrimEnd(TrimStart(s))
  }

  /** The start index of Trim(s) inside s. */
  function TrimFrom(s: string): nat {
    |s| - |TrimStart(s)|
  }

  lemma SliceOfSuffix(s: string, i: nat, n: nat)
    requires i + n <= |s|
    ensures s[i..][..n] == s[i..i + n]
  {
  }

  lemma TrimSliceBounds(s: string)
    ensures TrimFrom(s) + |Trim(s)| <= |s|
    ensures Trim(s) == s[TrimFrom(s)..TrimFrom(s) + |Trim(s)|]
  {
    var t, i := TrimStart(s), TrimFrom(s);
    var r := TrimEnd(t);
    SliceOfSuffix(s, i, |r|);
  }

  lemma TrimRemovedLow(s: string)
    ensures TrimFrom(s) + |Trim(s)| <= |s|
    ensures AllLow(s[..TrimFrom(s)]) && AllLow(s[TrimFrom(s) + |Trim(s)|..])
  {
    var t := TrimStart(s);
    SuffixOfSuffix(s, TrimFrom(s), |TrimEnd(t)|);
  }

  lemma SuffixOfSuffix(s: string, i: nat, n: nat)
    requires i + n <= |s|
    ensures s[i..][n..] == s[i + n..]
  {
  }

  lemma TrimKeptEnds(s: string)
    ensures Trim(s) == [] || (!IsLow(Trim(s)[0]) && !IsLow(Trim(s)[|Trim(s)| - 1]))
  {
    var t := TrimStart(s);
    var r := TrimEnd(t);
    assert r != [] ==> r[0] == t[0];
  }

  /**
   * Trim(s) is the slice of s between two runs of characters at or below
   * U+0020, and it neither starts nor ends with such a character.
   */
  lemma TrimIsSlice(s: string)
    ensures TrimFrom(s) + |Trim(s)| <= |s|
    ensures Trim(s) == s[TrimFrom(s)..TrimFrom(s) + |Trim(s)|]
    ensures AllLow(s[..TrimFrom(s)]) && AllLow(s[TrimFrom(s) + |Trim(s)|..])
    ensures Trim(s) == [] || (!IsLow(Trim(s)[0]) && !IsLow(Trim(s)[|Trim(s)| - 1]))
  {
    TrimSliceBounds(s);
    TrimRemovedLow(s);
    TrimKeptEnds(s);
  }

  /** Trimming gives "" exactly when every character is at or below U+0020. */
  lemma TrimEmptyIff(s: string)
    ensures Trim(s) == [] <==> AllLow(s)
  {
    TrimIsSlice(s);
    var i := TrimFrom(s);
    if Trim(s) == [] {
      assert TrimStart(s) == [];
      forall k | 0 <= k < |s| ensures IsLow(s[k]) {
        assert s[..i][k] == s[k];
      }
    } else {
      assert s[i] == Trim(s)[0];
    }
  }

  /** A one-character string trims to "" exactly when its character is at or below U+0020. */
  lemma TrimSingleton(c: char)
    ensures Trim([c]) == if IsLow(c) then [] else [c]
  {
    assert [c][0] == c && [c][1..] == [];
    if IsLow(c) {
      assert TrimStart([c]) == TrimStart([]) == [];
    } else {
      assert TrimStart([c]) == [c];
      assert [c][..0] == [];
      assert TrimEnd([c]) == [c];
    }
  }

  /** A string that already neither starts nor ends with a low character is its own trim. */
  lemma TrimOfTrimmed(s: string)
    requires s == [] || (!IsLow(s[0]) && !IsLow(s[|s| - 1]))
    ensures Trim(s) == s
  {
  }

  /** s with every ' ' deleted. */
  function RemoveSpaces(s: string): (r: string)
    ensures |r| <= |s|
    decreases |s|
  {
    if s == [] then []
    else (if s[0] == ' ' then [] else [s[0]]) + RemoveSpaces(s[1..])
  }

  lemma {:induction false} RemoveSpacesConcat(a: string, b: string)
    ensures RemoveSpaces(a + b) == RemoveSpaces(a) + RemoveSpaces(b)
    decreases |a|
  {
    if a == [] {
      assert a + b == b;
    } else {
      assert (a + b)[0] == a[0];
      assert (a + b)[1..] == a[1..] + b;
      RemoveSpacesConcat(a[1..], b);
    }
  }

  lemma RemoveSpacesCons(c: char, r: string)
    ensures RemoveSpaces([c] + r) == if c == ' ' then RemoveSpaces(r) else [c] + RemoveSpaces(r)
  {
    assert ([c] + r)[0] == c;
    assert ([c] + r)[1..] == r;
    assert [] + RemoveSpaces(r) == RemoveSpaces(r);
  }

  lemma TrimStartCons(c: char, r: string)
    ensures TrimStart([c] + r) == if IsLow(c) then TrimStart(r) else [c] + r
  {
    assert ([c] + r)[0] == c;
    assert ([c] + r)[1..] == r;
  }

  lemma {:induction false} TrimStartRemoveSpaces(s: string)
    ensures RemoveSpaces(TrimStart(s)) == TrimStart(RemoveSpaces(s))
    decreases |s|
  {
    if s != [] {
      var c, rest := s[0], s[1..];
      assert s == [c] + rest;
      TrimStartRemoveSpaces(rest);
      RemoveSpacesCons(c, rest);
      TrimStartCons(c, rest);
      var r := RemoveSpaces(rest);
      if c == ' ' {
        assert TrimStart(s) == TrimStart(rest);
        assert RemoveSpaces(s) == r;
      } else {
        TrimStartCons(c, r);
        assert RemoveSpaces(s) == [c] + r;
        if IsLow(c) {
          assert TrimStart(s) == TrimStart(rest);
          assert TrimStart([c] + r) == TrimStart(r);
        } else {
          assert TrimStart(s) == s;
          assert TrimStart([c] + r) == [c] + r;
        }
      }
    }
  }

  lemma {:induction false} TrimEndRemoveSpaces(s: string)
    ensures RemoveSpaces(TrimEnd(s)) == TrimEnd(RemoveSpaces(s))
    decreases |s|
  {
    if s != [] {
      var p, c := s[..|s| - 1], s[|s| - 1];
      assert s == p + [c];
      RemoveSpacesConcat(p, [c]);
      assert RemoveSpaces([c]) == if c == ' ' then [] else [c] by {
        assert [c][1..] == [];
      }
      TrimEndRemoveSpaces(p);
      var q := RemoveSpaces(s);
      if IsLow(c) {
        assert TrimEnd(s) == TrimEnd(p);
        if c != ' ' {
          assert q == RemoveSpaces(p) + [c];
          assert q[..|q| - 1] == RemoveSpaces(p);
          assert TrimEnd(q) == TrimEnd(RemoveSpaces(p));
        } else {
          assert q == RemoveSpaces(p);
        }
      } else {
        assert TrimEnd(s) == s;
        assert q == RemoveSpaces(p) + [c];
        assert TrimEnd(q) == q;
      }
    }
  }

  /**
   * Deleting spaces and trimming commute: a ' ' is itself a character that
   * trim removes.
   */
  lemma TrimRemoveSpaces(s: string)
    ensures RemoveSpaces(Trim(s)) == Trim(RemoveSpaces(s))
  {
    TrimEndRemoveSpaces(TrimStart(s));
    TrimStartRemoveSpaces(s);
  }
}
