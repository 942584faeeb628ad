/**
 Character and string helpers standing in for the Python `str` methods the
 outline extractor uses: `strip`, `split`, `lower`, `isupper`, `isdigit`,
 substring search with `in`, and `os.path.basename`.  Characters are
 classified over ASCII only.
 */
module Strings {

  /** Whitespace as `str.strip()` and `str.split()` see it (ASCII part). */
  predicate IsSpace(c: char) {
    c == ' ' || c == '\t' || c == '\n' || c == '\r' || c == '\U{B}' || c == '\U{C}'
  }

  predicate IsUpperChar(c: char) { 'A' <= c <= 'Z' }

  predicate IsLowerChar(c: char) { 'a' <= c <= 'z' }

  predicate IsDigitChar(c: char) { '0' <= c <= '9' }

  function LowerChar(c: char): char {
    if IsUpperChar(c) then (c as int - 'A' as int + 'a' as int) as char else c
  }

  /** `s.lower()` */
  function Lower(s: string): string {
    seq(|s|, i requires 0 <= i < |s| => LowerChar(s[i]))
  }

  /** Lower-casing keeps the length, leaves no upper-case letter, turns each
      upper-case letter into its lower-case partner and leaves every other
      character alone. */
  lemma LowerSpec(s: string)
    ensures |Lower(s)| == |s|
    ensures forall i :: 0 <= i < |s| ==> !IsUpperChar(Lower(s)[i])
    ensures forall i :: 0 <= i < |s| && IsUpperChar(s[i]) ==>
              IsLowerChar(Lower(s)[i]) && Lower(s)[i] as int - s[i] as int == 'a' as int - 'A' as int
    ensures forall i :: 0 <= i < |s| && !IsUpperChar(s[i]) ==> Lower(s)[i] == s[i]
  {
  }

  predicate AllSpace(s: string) {
    forall i :: 0 <= i < |s| ==> IsSpace(s[i])
  }

  // ---------------------------------------------------------------------
  // strip

  /** Drops leading whitespace. */
  function TrimStart(s: string): (r: string)
    ensures |r| <= |s|
  {
    if |s| > 0 && IsSpace(s[0]) then TrimStart(s[1..]) else s
  }

  /** What `TrimStart` removes is all whitespace, and what it keeps is a
      suffix of `s` that does not start with whitespace. */
  lemma {:induction false} TrimStartSpec(s: string)
    ensures TrimStart(s) == s[|s| - |TrimStart(s)|..]
    ensures AllSpace(s[..|s| - |TrimStart(s)|])
    ensures |TrimStart(s)| > 0 ==> !IsSpace(TrimStart(s)[0])
  {
    if |s| > 0 && IsSpace(s[0]) {
      TrimStartSpec(s[1..]);
      var k := |s| - |TrimStart(s)|;
      assert s[1..][..k - 1] == s[1..k];
      assert s[..k] == [s[0]] + s[1..k];
    }
  }

  /** Drops trailing whitespace. */
  function TrimEnd(s: string): (r: string)
    ensures |r| <= |s|
  {
    if |s| > 0 && IsSpace(s[|s| - 1]) then TrimEnd(s[..|s| - 1]) else s
  }

  /** What `TrimEnd` removes is all whitespace, and what it keeps is a
      prefix of `s` that does not end with whitespace. */
  lemma {:induction false} TrimEndSpec(s: string)
    ensures TrimEnd(s) == s[..|TrimEnd(s)|]
    ensures AllSpace(s[|TrimEnd(s)|..])
    ensures |TrimEnd(s)| > 0 ==> !IsSpace(TrimEnd(s)[|TrimEnd(s)| - 1])
  {
    if |s| > 0 && IsSpace(s[|s| - 1]) {
      var init := s[..|s| - 1];
      TrimEndSpec(init);
      var k := |TrimEnd(s)|;
      assert init[..k] == s[..k];
      assert s[k..] == init[k..] + [s[|s| - 1]];
    }
  }

  /** Number of whitespace characters `s.strip()` removes at the front. */
  function LeadingSpaces(s: string): nat {
    |s| - |TrimStart(s)|
  }

  /** `s.strip()`: whitespace removed at both ends. */
  function Strip(s: string): (r: string)
    ensures |r| <= |s|
    ensures |r| > 0 ==> !IsSpace(r[0]) && !IsSpace(r[|r| - 1])
  {
    TrimStartSpec(s);
    TrimEndSpec(TrimStart(s));
    TrimEnd(TrimStart(s))
  }

  /** The stripped text is the slice of `s` left after removing only
      whitespace at both ends. */
  lemma StripSlice(s: string)
    ensures LeadingSpaces(s) + |Strip(s)| <= |s|
    ensures Strip(s) == s[LeadingSpaces(s)..LeadingSpaces(s) + |Strip(s)|]
    ensures AllSpace(s[..LeadingSpaces(s)]) && AllSpace(s[LeadingSpaces(s) + |Strip(s)|..])
  {
    var t := TrimStart(s);
    var r := TrimEnd(t);
    var k := LeadingSpaces(s);
    TrimStartSpec(s);
    TrimEndSpec(t);
    assert Strip(s) == r;
    assert t == s[k..];
    assert r == s[k..][..|r|] == s[k..k + |r|];
    assert t[|r|..] == s[k + |r|..];
  }

  /** Stripping a stripped string changes nothing. */
  lemma StripIdempotent(s: string)
    ensures Strip(Strip(s)) == Strip(s)
  {
    var r := Strip(s);
    if |r| > 0 {
      assert TrimStart(r) == r;
      assert TrimEnd(r) == r;
    }
  }

  /** `s.strip()` is empty exactly when `s` is all whitespace. */
  lemma StripEmptyIff(s: string)
    ensures |Strip(s)| == 0 <==> AllSpace(s)
  {
    var r := Strip(s);
    var k := LeadingSpaces(s);
    StripSlice(s);
    if |r| == 0 {
      forall i | 0 <= i < |s|
        ensures IsSpace(s[i])
      {
        if i < k {
          assert s[i] == s[..k][i];
        } else {
          assert s[i] == s[k..][i - k];
        }
      }
    } else {
      assert s[k] == r[0];
    }
  }

  // ---------------------------------------------------------------------
  // substring search

  /** `p in s` for strings, computed by trying every start position. */
  function Contains(s: string, p: string): bool
    decreases |s|
  {
    p <= s || (|s| > 0 && Contains(s[1..], p))
  }

  /** Reference meaning of `p in s`: `p` occurs in `s` at some offset. */
  ghost predicate OccursAt(s: string, p: string, i: int) {
    0 <= i && i + |p| <= |s| && s[i..i + |p|] == p
  }

  /** A successful search has found an occurrence. */
  lemma {:induction false} ContainsSound(s: string, p: string) returns (i: int)
    requires Contains(s, p)
    ensures OccursAt(s, p, i)
    decreases |s|
  {
    if p <= s {
      i := 0;
      assert s[..|p|] == p;
    } else {
      var j := ContainsSound(s[1..], p);
      i := j + 1;
      assert s[i..i + |p|] == s[1..][j..j + |p|];
    }
  }

  /** Every occurrence is found. */
  lemma {:induction false} ContainsComplete(s: string, p: string, i: int)
    requires OccursAt(s, p, i)
    ensures Contains(s, p)
    decreases i
  {
    if i == 0 {
      assert p <= s;
    } else {
      assert s[1..][i - 1..i - 1 + |p|] == s[i..i + |p|];
      ContainsComplete(s[1..], p, i - 1);
    }
  }

  /** `p in s` holds exactly when `p` occurs in `s` at some offset. */
  lemma ContainsIff(s: string, p: string)
    ensures Contains(s, p) <==> exists i :: OccursAt(s, p, i)
  {
    if Contains(s, p) {
      var i := ContainsSound(s, p);
    }
    if exists i :: OccursAt(s, p, i) {
      var i :| OccursAt(s, p, i);
      ContainsComplete(s, p, i);
    }
  }

  // ---------------------------------------------------------------------
  // character classes over a whole string

  /** `sum(1 for c in s if c.isupper())` */
  function CountUpper(s: string): nat {
    if |s| == 0 then 0
    else (if IsUpperChar(s[0]) then 1 else 0) + CountUpper(s[1..])
  }

  predicate HasUpper(s: string) {
    exists i :: 0 <= i < |s| && IsUpperChar(s[i])
  }

  predicate HasLower(s: string) {
    exists i :: 0 <= i < |s| && IsLowerChar(s[i])
  }

  /** `any(c.isdigit() for c in s)` */
  predicate HasDigit(s: string) {
    exists i :: 0 <= i < |s| && IsDigitChar(s[i])
  }

  /** `s.isupper()`: at least one cased character and no lower-case one. */
  predicate IsUpperText(s: string) {
    HasUpper(s) && !HasLower(s)
  }

  /** The upper-case count never exceeds the length and is positive exactly
      when some character is upper case. */
  lemma {:induction false} CountUpperBounds(s: string)
    ensures CountUpper(s) <= |s|
    ensures CountUpper(s) > 0 <==> HasUpper(s)
  {
    if |s| > 0 {
      CountUpperBounds(s[1..]);
      if HasUpper(s[1..]) {
        var i :| 0 <= i < |s[1..]| && IsUpperChar(s[1..][i]);
        assert IsUpperChar(s[i + 1]);
      }
      if HasUpper(s) && !IsUpperChar(s[0]) {
        var i :| 0 <= i < |s| && IsUpperChar(s[i]);
        assert IsUpperChar(s[1..][i - 1]);
      }
    }
  }

  /** Counting upper-case characters is additive over concatenation, and a
      single character counts once exactly when it is upper case; together
      these fix the count of every string. */
  lemma {:induction false} CountUpperAppend(a: string, b: string)
    ensures CountUpper(a + b) == CountUpper(a) + CountUpper(b)
    ensures |a| == 1 ==> CountUpper(a) == (if IsUpperChar(a[0]) then 1 else 0)
  {
    if |a| > 0 {
      assert (a + b)[1..] == a[1..] + b;
      CountUpperAppend(a[1..], b);
    } else {
      assert a + b == b;
    }
  }

  // ---------------------------------------------------------------------
  // split

  /** Whether a word (maximal run of non-whitespace) starts at index `i`. */
  predicate WordStart(s: string, i: int)
    requires 0 <= i < |s|
  {
    !IsSpace(s[i]) && (i == 0 || IsSpace(s[i - 1]))
  }

  /** `len(s.split())`: the number of words, counted by their first characters. */
  function WordCount(s: string): nat {
    if |s| == 0 then 0
    else WordCount(s[..|s| - 1]) + (if WordStart(s, |s| - 1) then 1 else 0)
  }

  /** `s.split()` is empty exactly when `s` is all whitespace. */
  lemma {:induction false} WordCountZeroIff(s: string)
    ensures WordCount(s) == 0 <==> AllSpace(s)
  {
    if |s| > 0 {
      var init := s[..|s| - 1];
      WordCountZeroIff(init);
      assert AllSpace(s) <==> AllSpace(init) && IsSpace(s[|s| - 1]);
      if AllSpace(init) && |s| >= 2 {
        assert s[|s| - 2] == init[|s| - 2];
      }
    }
  }

  /** Words are separated by whitespace, so there are at most (|s| + 1) / 2. */
  lemma {:induction false} WordCountBound(s: string)
    ensures 2 * WordCount(s) <= |s| + 1
    ensures |s| > 0 && IsSpace(s[|s| - 1]) ==> 2 * WordCount(s) <= |s|
  {
    if |s| > 0 {
      var init := s[..|s| - 1];
      WordCountBound(init);
      if |s| >= 2 {
        assert init[|init| - 1] == s[|s| - 2];
      }
    }
  }

  /** Text after whitespace (or after nothing) starts afresh: its words are
      counted on their own and added to those before it. */
  lemma {:induction false} WordCountAfterSpace(p: string, q: string)
    requires |p| > 0 ==> IsSpace(p[|p| - 1])
    ensures WordCount(p + q) == WordCount(p) + WordCount(q)
  {
    if |q| == 0 {
      assert p + q == p;
    } else {
      var s := p + q;
      var init := q[..|q| - 1];
      assert s[..|s| - 1] == p + init;
      WordCountAfterSpace(p, init);
      assert s[|s| - 1] == q[|q| - 1];
      if |q| >= 2 {
        assert s[|s| - 2] == q[|q| - 2];
      } else if |p| > 0 {
        assert s[|s| - 2] == p[|p| - 1];
      }
    }
  }

  /** A whitespace character separates words: the words of `a + [c] + b` are
      the words of `a` followed by the words of `b`. */
  lemma {:induction false} WordCountSplit(a: string, c: char, b: string)
    requires IsSpace(c)
    ensures WordCount(a + [c] + b) == WordCount(a) + WordCount(b)
  {
    var p := a + [c];
    assert p[..|p| - 1] == a;
    WordCountAfterSpace(p, b);
  }

  /** A non-empty run without whitespace is exactly one word.  With
      `WordCountSplit` and `WordCountZeroIff` this fixes the count of every
      string. */
  lemma {:induction false} WordCountOneWord(w: string)
    requires |w| > 0
    requires forall i :: 0 <= i < |w| ==> !IsSpace(w[i])
    ensures WordCount(w) == 1
  {
    var init := w[..|w| - 1];
    if |init| > 0 {
      assert forall i :: 0 <= i < |init| ==> init[i] == w[i];
      WordCountOneWord(init);
      assert w[|w| - 2] == init[|init| - 1];
    }
  }

  // ---------------------------------------------------------------------
  // os.path.basename

  /** `os.path.basename(path)`: the part after the last '/', extension kept.
      The result is a '/'-free suffix of `path`, preceded by '/' unless it is
      the whole path. */
  function Basename(path: string): (r: string)
    ensures |r| <= |path| && r == path[|path| - |r|..]
    ensures forall i :: 0 <= i < |r| ==> r[i] != '/'
    ensures |r| < |path| ==> path[|path| - |r| - 1] == '/'
  {
    if |path| == 0 then ""
    else if path[|path| - 1] == '/' then ""
    else Basename(path[..|path| - 1]) + [path[|path| - 1]]
  }
}
