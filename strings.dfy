/** The Python string operations the decision core relies on:
    `str.lower()`, the `in` substring test and `str.split()` with no argument. */
module Strings {

  /** Lower-casing of one character, as `str.lower()` does for ASCII letters. */
  function LowerChar(c: char): char
  {
    if 'A' <= c <= 'Z' then (c as int + 32) as char else c
  }

  /** `s.lower()`, character by character. */
  function Lower(s: string): string
  {
    seq(|s|, i requires 0 <= i < |s| => LowerChar(s[i]))
  }

  /** Lower-casing twice is lower-casing once: the scraper lowers page text
      that the recency test lowers again. */
  lemma LowerIdempotent(s: string)
    ensures Lower(Lower(s)) == Lower(s)
  {
    assert forall i :: 0 <= i < |s| ==> LowerChar(LowerChar(s[i])) == LowerChar(s[i]);
  }

  /** A text with no upper-case ASCII letter is its own lower-case form. */
  lemma LowerOfLowerCase(s: string)
    requires forall i :: 0 <= i < |s| ==> !('A' <= s[i] <= 'Z')
    ensures Lower(s) == s
  {
  }

  /** Lower-casing distributes over concatenation. */
  lemma LowerConcat(a: string, b: string)
    ensures Lower(a + b) == Lower(a) + Lower(b)
  {
  }

  predicate StartsWith(s: string, prefix: string)
  {
    |prefix| <= |s| && s[..|prefix|] == prefix
  }

  /** Python's `sub in s`: some suffix of `s` starts with `sub`. */
  predicate Contains(s: string, sub: string)
    decreases |s|
  {
    StartsWith(s, sub) || (|s| > 0 && Contains(s[1..], sub))
  }

  /** `sub` sits in `s` at index `i`. */
  ghost predicate OccursAt(s: string, sub: string, i: int)
  {
    0 <= i && i + |sub| <= |s| && s[i..i + |sub|] == sub
  }

  /** The recursive substring test agrees with the positional definition,
      in both directions. */
  lemma {:induction false} ContainsIffOccurs(s: string, sub: string)
    ensures Contains(s, sub) <==> exists i :: OccursAt(s, sub, i)
    decreases |s|
  {
    if StartsWith(s, sub) {
      assert OccursAt(s, sub, 0);
    }
    if |s| > 0 {
      ContainsIffOccurs(s[1..], sub);
      if Contains(s[1..], sub) {
        var i :| OccursAt(s[1..], sub, i);
        assert s[i + 1..i + 1 + |sub|] == s[1..][i..i + |sub|];
        assert OccursAt(s, sub, i + 1);
      }
      if i :| OccursAt(s, sub, i) {
        if i > 0 {
          assert s[1..][i - 1..i - 1 + |sub|] == s[i..i + |sub|];
          assert OccursAt(s[1..], sub, i - 1);
        } else {
          assert StartsWith(s, sub);
        }
      }
    } else {
      if i :| OccursAt(s, sub, i) {
        assert |sub| == 0 && StartsWith(s, sub);
      }
    }
  }

  /** An occurrence at a known index is found by the substring test. */
  lemma ContainsAt(s: string, sub: string, i: int)
    requires OccursAt(s, sub, i)
    ensures Contains(s, sub)
  {
    ContainsIffOccurs(s, sub);
  }

  /** A pattern holding a character that `s` lacks is not in `s`. */
  lemma NotContainsMissingChar(s: string, sub: string, k: int)
    requires 0 <= k < |sub| && sub[k] !in s
    ensures !Contains(s, sub)
  {
    ContainsIffOccurs(s, sub);
    forall i | 0 <= i <= |s| - |sub| ensures !OccursAt(s, sub, i) {
      assert s[i..i + |sub|][k] == s[i + k];
      assert s[i + k] in s;
    }
  }

  /** The characters for which Python's `str.isspace()` holds, and on which
      `str.split()` with no argument splits. */
  predicate IsSpace(c: char)
  {
    c in SpaceChars
  }

  const SpaceChars: set<char> :=
    {'\t', '\n', '\U{B}', '\U{C}', '\r', '\U{1C}', '\U{1D}', '\U{1E}', '\U{1F}', ' ',
     '\U{85}', '\U{A0}', '\U{1680}', '\U{2000}', '\U{2001}', '\U{2002}', '\U{2003}',
     '\U{2004}', '\U{2005}', '\U{2006}', '\U{2007}', '\U{2008}', '\U{2009}', '\U{200A}',
     '\U{2028}', '\U{2029}', '\U{202F}', '\U{205F}', '\U{3000}'}

  /** Length of the run of non-space characters that starts `s`. */
  function RunLength(s: string): (n: nat)
    ensures n <= |s|
    decreases |s|
  {
    if s == [] || IsSpace(s[0]) then 0 else 1 + RunLength(s[1..])
  }

  /** `s.split()`: the maximal runs of non-space characters, in order. */
  function Words(s: string): seq<string>
    decreases |s|
  {
    if s == [] then []
    else if IsSpace(s[0]) then Words(s[1..])
    else
      var n := RunLength(s);
      [s[..n]] + Words(s[n..])
  }

  /** `s` holds a space between two non-space characters. */
  ghost predicate HasInnerSpace(s: string)
  {
    exists i, j, k :: SpaceBetween(s, i, j, k)
  }

  /** `s[j]` is whitespace and `s[i]`, `s[k]` on either side of it are not. */
  ghost predicate SpaceBetween(s: string, i: int, j: int, k: int)
  {
    0 <= i < j < k < |s| && !IsSpace(s[i]) && IsSpace(s[j]) && !IsSpace(s[k])
  }

  ghost predicate AllSpace(s: string)
  {
    forall i :: 0 <= i < |s| ==> IsSpace(s[i])
  }

  lemma {:induction false} RunLengthSpec(s: string)
    ensures forall i :: 0 <= i < RunLength(s) ==> !IsSpace(s[i])
    ensures RunLength(s) < |s| ==> IsSpace(s[RunLength(s)])
    decreases |s|
  {
    if s != [] && !IsSpace(s[0]) {
      RunLengthSpec(s[1..]);
    }
  }

  /** `split()` finds no word exactly when the text is all whitespace. */
  lemma {:induction false} WordsEmptyIff(s: string)
    ensures Words(s) == [] <==> AllSpace(s)
    decreases |s|
  {
    if s != [] {
      if IsSpace(s[0]) {
        WordsEmptyIff(s[1..]);
        if AllSpace(s[1..]) {
          forall i | 0 <= i < |s| ensures IsSpace(s[i]) {
            if i > 0 { assert s[i] == s[1..][i - 1]; }
          }
        }
      }
    }
  }

  /** Leading whitespace neither adds nor removes an inner space. */
  lemma InnerSpaceAfterSpace(s: string)
    requires s != [] && IsSpace(s[0])
    ensures HasInnerSpace(s) <==> HasInnerSpace(s[1..])
  {
    var t := s[1..];
    if HasInnerSpace(t) {
      var i, j, k :| SpaceBetween(t, i, j, k);
      assert SpaceBetween(s, i + 1, j + 1, k + 1);
    }
    if HasInnerSpace(s) {
      var i, j, k :| SpaceBetween(s, i, j, k);
      assert SpaceBetween(t, i - 1, j - 1, k - 1);
    }
  }

  /** After a leading word, an inner space exists exactly when the rest of the
      text is not all whitespace. */
  lemma InnerSpaceAfterWord(s: string)
    requires s != [] && !IsSpace(s[0])
    ensures HasInnerSpace(s) <==> !AllSpace(s[RunLength(s)..])
  {
    var n := RunLength(s);
    RunLengthSpec(s);
    var rest := s[n..];
    if !AllSpace(rest) {
      var k :| 0 <= k < |rest| && !IsSpace(rest[k]);
      assert n < |s| && IsSpace(s[n]) && !IsSpace(s[n + k]);
      assert SpaceBetween(s, 0, n, n + k);
    }
    if HasInnerSpace(s) {
      var i, j, k :| SpaceBetween(s, i, j, k);
      assert n <= j;
      assert rest[k - n] == s[k];
    }
  }

  /** `split()` finds more than one word exactly when some whitespace stands
      between two non-space characters, which is what the keyword filter's
      `len(kw.split()) > 1` tests. */
  lemma {:induction false} WordsManyIff(s: string)
    ensures |Words(s)| > 1 <==> HasInnerSpace(s)
    decreases |s|
  {
    if s == [] {
    } else if IsSpace(s[0]) {
      WordsManyIff(s[1..]);
      InnerSpaceAfterSpace(s);
    } else {
      var n := RunLength(s);
      assert Words(s) == [s[..n]] + Words(s[n..]);
      WordsEmptyIff(s[n..]);
      InnerSpaceAfterWord(s);
    }
  }

  /** A text made of one run of non-space characters splits into itself. */
  lemma SingleWord(s: string)
    requires s != [] && forall i :: 0 <= i < |s| ==> !IsSpace(s[i])
    ensures Words(s) == [s]
  {
    RunLengthSpec(s);
    var n := RunLength(s);
    assert n == |s|;
    assert s[..n] == s;
    assert s[n..] == [];
    assert Words(s) == [s[..n]] + Words(s[n..]);
  }
}
