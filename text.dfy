/**
  The string primitives the script relies on, with Python's semantics:
  substring search, `str.replace` with a non-empty target, and the
  argument-less `str.strip`.
 */
module Text {

  /** `pat` occurs in `s` starting at index `i`. */
  predicate OccursAt(s: string, pat: string, i: nat)
  {
    i + |pat| <= |s| && s[i..i + |pat|] == pat
  }

  /** `pat in s`, decided by trying every start position from the left. */
  predicate Contains(s: string, pat: string)
    decreases |s|
  {
    pat <= s || (s != [] && Contains(s[1..], pat))
  }

  /** `n` copies of the character `c`. */
  function Repeat(c: char, n: nat): (r: string)
    ensures |r| == n
    ensures forall i :: 0 <= i < n ==> r[i] == c
  {
    if n == 0 then [] else [c] + Repeat(c, n - 1)
  }

  /** An occurrence in the tail of a string is an occurrence one place further in the string. */
  lemma OccursInTail(s: string, pat: string, j: nat)
    requires s != []
    ensures OccursAt(s[1..], pat, j) <==> OccursAt(s, pat, j + 1)
  {
    if j + 1 + |pat| <= |s| {
      assert s[1..][j..j + |pat|] == s[j + 1..j + 1 + |pat|];
    }
  }

  /** Contains agrees with the index-based reading of "occurs somewhere". */
  lemma {:induction false} ContainsIffOccurs(s: string, pat: string)
    ensures Contains(s, pat) <==> exists i: nat :: OccursAt(s, pat, i)
    decreases |s|
  {
    if Contains(s, pat) {
      if pat <= s {
        assert OccursAt(s, pat, 0);
      } else {
        ContainsIffOccurs(s[1..], pat);
        var j: nat :| OccursAt(s[1..], pat, j);
        OccursInTail(s, pat, j);
      }
    }
    if exists i: nat :: OccursAt(s, pat, i) {
      var i: nat :| OccursAt(s, pat, i);
      if i == 0 {
        assert pat <= s;
      } else {
        OccursInTail(s, pat, i - 1);
        ContainsIffOccurs(s[1..], pat);
      }
    }
  }

  /** An occurrence inside a suffix is an occurrence in the whole string. */
  lemma {:induction false} ContainsInSuffix(s: string, pat: string, i: nat)
    requires i <= |s|
    requires Contains(s[i..], pat)
    ensures Contains(s, pat)
    decreases i
  {
    if i > 0 {
      assert s[1..][i - 1..] == s[i..];
      ContainsInSuffix(s[1..], pat, i - 1);
    }
  }

  /** An occurrence inside a prefix is an occurrence in the whole string. */
  lemma {:induction false} ContainsInPrefix(s: string, pat: string, j: nat)
    requires j <= |s|
    requires Contains(s[..j], pat)
    ensures Contains(s, pat)
    decreases j
  {
    if !(pat <= s[..j]) {
      assert s[..j][1..] == s[1..][..j - 1];
      ContainsInPrefix(s[1..], pat, j - 1);
    }
  }

  /** An occurrence inside any slice is an occurrence in the whole string. */
  lemma ContainsInSlice(s: string, pat: string, i: nat, j: nat)
    requires i <= j <= |s|
    requires Contains(s[i..j], pat)
    ensures Contains(s, pat)
  {
    assert s[i..][..j - i] == s[i..j];
    ContainsInPrefix(s[i..], pat, j - i);
    ContainsInSuffix(s, pat, i);
  }

  /** The middle part of a concatenation occurs in it. */
  lemma {:induction false} ContainsMiddle(a: string, m: string, b: string)
    ensures Contains(a + m + b, m)
    decreases |a|
  {
    if a == [] {
      assert a + m + b == m + b;
    } else {
      assert (a + m + b)[1..] == a[1..] + m + b;
      ContainsMiddle(a[1..], m, b);
    }
  }

  /** What occurs in a part of a string occurs in the string. */
  lemma {:induction false} ContainsTransitive(s: string, part: string, pat: string)
    requires Contains(s, part) && Contains(part, pat)
    ensures Contains(s, pat)
    decreases |s|
  {
    if part <= s {
      assert s[..|part|] == part;
      ContainsInPrefix(s, pat, |part|);
    } else {
      ContainsTransitive(s[1..], part, pat);
    }
  }

  /** A string that holds `pat + tail` somewhere holds `pat` there too. */
  lemma {:induction false} ContainsLonger(s: string, pat: string, tail: string)
    ensures Contains(s, pat + tail) ==> Contains(s, pat)
    decreases |s|
  {
    if s != [] && !(pat + tail <= s) {
      ContainsLonger(s[1..], pat, tail);
    }
  }

  // ---------------------------------------------------------------------
  // str.replace
  // ---------------------------------------------------------------------

  /**
    Python's `s.replace(target, replacement)` for a non-empty target: the
    string is scanned from the left; a match is replaced and scanning
    resumes after it, so matches never overlap. Deleting the target never
    lengthens the string, and replacing the target by itself changes nothing.
   */
  function Replace(s: string, target: string, replacement: string): (r: string)
    requires target != []
    ensures replacement == [] ==> |r| <= |s|
    ensures replacement == target ==> r == s
    decreases |s|
  {
    if target <= s then
      assert replacement == target ==> replacement + s[|target|..] == s;
      replacement + Replace(s[|target|..], target, replacement)
    else if s == [] then []
    else
      assert s == [s[0]] + s[1..];
      [s[0]] + Replace(s[1..], target, replacement)
  }

  /**
    The text before the leftmost occurrence of the target is copied, that
    occurrence becomes the replacement, and the scan resumes after it: the
    find-first reading of `str.replace`.
   */
  lemma {:induction false} ReplaceAtFirst(s: string, target: string, replacement: string, i: nat)
    requires target != []
    requires OccursAt(s, target, i)
    requires forall j: nat :: j < i ==> !OccursAt(s, target, j)
    ensures Replace(s, target, replacement)
         == s[..i] + replacement + Replace(s[i + |target|..], target, replacement)
    decreases i
  {
    if i == 0 {
      assert target <= s;
      assert s[..0] + replacement == replacement;
    } else {
      var tail := s[1..];
      FirstOccurrenceInTail(s, target, i);
      ReplaceAtFirst(tail, target, replacement, i - 1);
      assert tail[i - 1 + |target|..] == s[i + |target|..];
      var rest := Replace(s[i + |target|..], target, replacement);
      assert Replace(s, target, replacement) == [s[0]] + (tail[..i - 1] + replacement + rest);
      RegroupHead(s, i, replacement, rest);
    }
  }

  /**
    When the leftmost occurrence is not at the start, the string does not
    start with the target, and in its tail the leftmost occurrence is one
    place earlier.
   */
  lemma FirstOccurrenceInTail(s: string, target: string, i: nat)
    requires 0 < i && OccursAt(s, target, i)
    requires forall j: nat :: j < i ==> !OccursAt(s, target, j)
    ensures s != [] && !(target <= s)
    ensures OccursAt(s[1..], target, i - 1)
    ensures forall j: nat :: j < i - 1 ==> !OccursAt(s[1..], target, j)
  {
    assert !OccursAt(s, target, 0);
    OccursInTail(s, target, i - 1);
    forall j: nat | j < i - 1
      ensures !OccursAt(s[1..], target, j)
    {
      OccursInTail(s, target, j);
    }
  }

  /** Putting the first character back in front of a prefix of the tail. */
  lemma RegroupHead(s: string, i: nat, mid: string, rest: string)
    requires 0 < i <= |s|
    ensures [s[0]] + (s[1..][..i - 1] + mid + rest) == s[..i] + mid + rest
  {
    assert [s[0]] + s[1..][..i - 1] == s[..i];
  }

  /** Replacing a target that does not occur changes nothing. */
  lemma {:induction false} ReplaceAbsent(s: string, target: string, replacement: string)
    requires target != []
    requires !Contains(s, target)
    ensures Replace(s, target, replacement) == s
    decreases |s|
  {
    if s != [] {
      ReplaceAbsent(s[1..], target, replacement);
    }
  }

  /**
    Removal of a run of one character never leaves the output starting with
    more copies of that character than the input started with.
   */
  lemma {:induction false} RemoveRunKeepsLeadingRun(t: string, c: char, n: nat, k: nat)
    requires n > 0
    ensures Repeat(c, k) <= Replace(t, Repeat(c, n), "") ==> Repeat(c, k) <= t
    decreases |t|
  {
    var pat := Repeat(c, n);
    var r := Replace(t, pat, "");
    if pat <= t {
      assert r == Replace(t[n..], pat, "");
      RemoveRunKeepsLeadingRun(t[n..], c, n, k);
      if Repeat(c, k) <= r {
        forall i | 0 <= i < k ensures t[i] == c {
          if i >= n {
            assert t[i] == t[n..][i - n];
          }
        }
      }
    } else if t != [] && k > 0 {
      var rest := Replace(t[1..], pat, "");
      assert r == [t[0]] + rest;
      RemoveRunKeepsLeadingRun(t[1..], c, n, k - 1);
      if Repeat(c, k) <= r {
        assert t[0] == r[0] == Repeat(c, k)[0];
        assert Repeat(c, k - 1) <= rest by {
          forall i | 0 <= i < k - 1 ensures rest[i] == c {
            assert rest[i] == r[i + 1];
          }
        }
        forall i | 0 <= i < k ensures t[i] == c {
          if i > 0 {
            assert t[i] == t[1..][i - 1];
          }
        }
      }
    }
  }

  /**
    After removing every occurrence of a run of one character (as
    `replace(run, "")` does), no occurrence of that run is left, even where
    removal brought two pieces of the input together.
   */
  lemma {:induction false} RemoveRunLeavesNone(s: string, c: char, n: nat)
    requires n > 0
    ensures !Contains(Replace(s, Repeat(c, n), ""), Repeat(c, n))
    decreases |s|
  {
    var pat := Repeat(c, n);
    var r := Replace(s, pat, "");
    if pat <= s {
      assert r == Replace(s[n..], pat, "");
      RemoveRunLeavesNone(s[n..], c, n);
    } else if s != [] {
      var rest := Replace(s[1..], pat, "");
      assert r == [s[0]] + rest;
      assert r[1..] == rest;
      RemoveRunLeavesNone(s[1..], c, n);
      // the output cannot start with the run, since the input does not
      RemoveRunKeepsLeadingRun(s, c, n, n);
    }
  }

  // ---------------------------------------------------------------------
  // str.strip
  // ---------------------------------------------------------------------

  /**
    The characters `str.strip()` removes: CPython's whitespace table, i.e.
    U+0009..U+000D, U+001C..U+0020, U+0085, U+00A0, U+1680,
    U+2000..U+200A, U+2028, U+2029, U+202F, U+205F and U+3000.
   */
  predicate IsSpace(c: char)
  {
    var n := c as int;
    || 0x09 <= n <= 0x0D
    || 0x1C <= n <= 0x20
    || n == 0x85 || n == 0xA0 || n == 0x1680
    || 0x2000 <= n <= 0x200A
    || n == 0x2028 || n == 0x2029 || n == 0x202F || n == 0x205F || n == 0x3000
  }

  /** Neither the first nor the last character is whitespace. */
  predicate Trimmed(s: string)
  {
    s == [] || (!IsSpace(s[0]) && !IsSpace(s[|s| - 1]))
  }

  /** Drops the leading whitespace: what `lstrip()` does. */
  function LStrip(s: string): (r: string)
    ensures |r| <= |s| && r == s[|s| - |r|..]
    ensures r == [] || !IsSpace(r[0])
    ensures forall i :: 0 <= i < |s| - |r| ==> IsSpace(s[i])
    decreases |s|
  {
    if s != [] && IsSpace(s[0]) then
      var r := LStrip(s[1..]);
      assert s[1..][|s| - 1 - |r|..] == s[|s| - |r|..];
      assert forall i :: 1 <= i < |s| - |r| ==> s[i] == s[1..][i - 1];
      r
    else s
  }

  /** Drops the trailing whitespace: what `rstrip()` does. */
  function RStrip(s: string): (r: string)
    ensures |r| <= |s| && r == s[..|r|]
    ensures r == [] || !IsSpace(r[|r| - 1])
    ensures forall i :: |r| <= i < |s| ==> IsSpace(s[i])
    decreases |s|
  {
    if s != [] && IsSpace(s[|s| - 1]) then
      var r := RStrip(s[..|s| - 1]);
      assert s[..|s| - 1][..|r|] == s[..|r|];
      r
    else s
  }

  /**
    `strip()`: the longest slice of `s` that neither starts nor ends with
    whitespace, everything before and after it being whitespace.
   */
  function Strip(s: string): (r: string)
    ensures Trimmed(r)
    ensures exists i :: 0 <= i <= |s| - |r| && StripsTo(s, i, r)
  {
    var l := LStrip(s);
    var r := RStrip(l);
    assert r == s[|s| - |l|..][..|r|];
    assert StripsTo(s, |s| - |l|, r);
    r
  }

  /**
    `r` is the slice of `s` at offset `i`, and every character of `s` outside
    that slice is whitespace.
   */
  predicate StripsTo(s: string, i: nat, r: string)
  {
    && i + |r| <= |s|
    && r == s[i..i + |r|]
    && (forall k :: 0 <= k < i ==> IsSpace(s[k]))
    && (forall k :: i + |r| <= k < |s| ==> IsSpace(s[k]))
  }

  /** Stripping a string that is already trimmed returns it unchanged. */
  lemma StripTrimmed(s: string)
    requires Trimmed(s)
    ensures Strip(s) == s
  {
  }

  /** What `strip()` returns holds no pattern the input did not hold. */
  lemma StripKeepsAbsent(s: string, pat: string)
    requires !Contains(s, pat)
    ensures !Contains(Strip(s), pat)
  {
    var r := Strip(s);
    var i :| 0 <= i <= |s| - |r| && StripsTo(s, i, r);
    if Contains(r, pat) {
      ContainsInSlice(s, pat, i, i + |r|);
    }
  }
}
