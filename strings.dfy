/**
 * The three operations on Python `str` values that the core relies on:
 * the `<` comparison used by `list.sort` on string keys, the substring
 * test `pat in text`, and `str.strip()` with no argument.
 */
module Strings {

  /**
   * Python's `a < b` on strings: code point by code point, and a proper
   * prefix is smaller than the longer string.
   */
  predicate StrLess(a: string, b: string) {
    if a == [] then b != []
    else b != [] && (a[0] < b[0] || (a[0] == b[0] && StrLess(a[1..], b[1..])))
  }

  lemma {:induction false} StrLessIrreflexive(a: string)
    ensures !StrLess(a, a)
  {
    if a != [] {
      StrLessIrreflexive(a[1..]);
    }
  }

  lemma {:induction false} StrLessTransitive(a: string, b: string, c: string)
    requires StrLess(a, b) && StrLess(b, c)
    ensures StrLess(a, c)
  {
    if a != [] && a[0] == b[0] && b[0] == c[0] {
      StrLessTransitive(a[1..], b[1..], c[1..]);
    }
  }

  lemma StrLessAsymmetric(a: string, b: string)
    requires StrLess(a, b)
    ensures !StrLess(b, a)
  {
    if StrLess(b, a) {
      StrLessTransitive(a, b, a);
      StrLessIrreflexive(a);
    }
  }

  /** Any two different strings are ordered one way or the other. */
  lemma {:induction false} StrLessTotal(a: string, b: string)
    ensures a == b || StrLess(a, b) || StrLess(b, a)
  {
    if a != [] && b != [] && a[0] == b[0] {
      StrLessTotal(a[1..], b[1..]);
      assert a == [a[0]] + a[1..];
      assert b == [b[0]] + b[1..];
    }
  }

  /**
   * Comparing two concatenations whose first parts have the same length
   * compares the first parts, and the second parts on a tie.
   */
  lemma {:induction false} StrLessAppend(a: string, b: string, c: string, d: string)
    requires |a| == |c|
    ensures StrLess(a + b, c + d) <==> StrLess(a, c) || (a == c && StrLess(b, d))
  {
    if a == [] {
      assert a + b == b && c + d == d;
    } else {
      assert (a + b)[1..] == a[1..] + b;
      assert (c + d)[1..] == c[1..] + d;
      StrLessAppend(a[1..], b, c[1..], d);
      assert a == [a[0]] + a[1..];
      assert c == [c[0]] + c[1..];
    }
  }

  predicate IsPrefix(pat: string, text: string) {
    |pat| <= |text| && text[..|pat|] == pat
  }

  /** Python's `pat in text`: `pat` occurs in `text` as a contiguous block. */
  predicate Contains(text: string, pat: string) {
    IsPrefix(pat, text) || (text != [] && Contains(text[1..], pat))
  }

  /** `Contains` agrees with "some position of `text` starts a copy of `pat`". */
  lemma {:induction false} ContainsAt(text: string, pat: string)
    ensures Contains(text, pat) <==> exists i :: 0 <= i <= |text| && IsPrefix(pat, text[i..])
  {
    if text == [] {
      if IsPrefix(pat, text[0..]) {
        assert text[0..] == text;
      }
    } else {
      ContainsAt(text[1..], pat);
      if exists i :: 0 <= i <= |text| && IsPrefix(pat, text[i..]) {
        var i :| 0 <= i <= |text| && IsPrefix(pat, text[i..]);
        if i == 0 {
          assert text[0..] == text;
        } else {
          assert text[1..][i - 1..] == text[i..];
        }
      }
      if Contains(text[1..], pat) {
        var i :| 0 <= i <= |text[1..]| && IsPrefix(pat, text[1..][i..]);
        assert text[1..][i..] == text[i + 1..];
      }
      if IsPrefix(pat, text) {
        assert text[0..] == text;
      }
    }
  }

  /** A string contains every block it is built from. */
  lemma {:induction false} ContainsInfix(a: string, pat: string, b: string)
    ensures Contains(a + pat + b, pat)
  {
    if a == [] {
      assert a + pat + b == pat + b;
      assert (pat + b)[..|pat|] == pat;
    } else {
      assert (a + pat + b)[1..] == a[1..] + pat + b;
      ContainsInfix(a[1..], pat, b);
    }
  }

  /** Text added after a string keeps what the string contains. */
  lemma {:induction false} ContainsExtend(text: string, more: string, pat: string)
    requires Contains(text, pat)
    ensures Contains(text + more, pat)
  {
    if IsPrefix(pat, text) {
      assert (text + more)[..|pat|] == text[..|pat|];
    } else {
      assert (text + more)[1..] == text[1..] + more;
      ContainsExtend(text[1..], more, pat);
    }
  }

  /** A string that contains a block contains every prefix of that block. */
  lemma {:induction false} ContainsPrefixOf(text: string, pat: string, rest: string)
    requires Contains(text, pat + rest)
    ensures Contains(text, pat)
  {
    if IsPrefix(pat + rest, text) {
      assert text[..|pat|] == (pat + rest)[..|pat|];
    } else {
      ContainsPrefixOf(text[1..], pat, rest);
    }
  }

  /** The characters Python's `str.isspace()` accepts, as code points. */
  predicate IsSpace(c: char) {
    var n := c as int;
    n == 32 || 9 <= n <= 13 || 28 <= n <= 31 || n == 0x85 || n == 0xA0 ||
    n == 0x1680 || 0x2000 <= n <= 0x200A || n == 0x2028 || n == 0x2029 ||
    n == 0x202F || n == 0x205F || n == 0x3000
  }

  /** `s` with its leading white space removed. */
  function StripLeft(s: string): (r: string)
    ensures |r| <= |s| && r == s[|s| - |r|..]
    ensures forall i :: 0 <= i < |s| - |r| ==> IsSpace(s[i])
    ensures r != [] ==> !IsSpace(r[0])
  {
    if s != [] && IsSpace(s[0]) then StripLeft(s[1..]) else s
  }

  /** `s` with its trailing white space removed. */
  function StripRight(s: string): (r: string)
    ensures |r| <= |s| && r == s[..|r|]
    ensures forall i :: |r| <= i < |s| ==> IsSpace(s[i])
    ensures r != [] ==> !IsSpace(r[|r| - 1])
  {
    if s != [] && IsSpace(s[|s| - 1]) then StripRight(s[..|s| - 1]) else s
  }

  /**
   * Python's `s.strip()`: the result is a block of `s`, it is empty exactly
   * when `s` is all white space, and otherwise it neither starts nor ends
   * with white space.
   */
  function Strip(s: string): (r: string)
    ensures |r| <= |s|
    ensures r == [] <==> forall i :: 0 <= i < |s| ==> IsSpace(s[i])
    ensures r != [] ==> !IsSpace(r[0]) && !IsSpace(r[|r| - 1])
    ensures Contains(s, r)
  {
    StripIsBlock(s, StripLeft(s));
    StripRight(StripLeft(s))
  }

  lemma {:induction false} StripIsBlock(s: string, left: string)
    requires left == StripLeft(s)
    ensures Contains(s, StripRight(left))
    ensures StripRight(left) == [] ==> forall i :: 0 <= i < |s| ==> IsSpace(s[i])
  {
    var r := StripRight(left);
    PrefixOfSuffix(s, left, r);
    if r == [] {
      assert left == [];
    }
  }

  /** A prefix of a suffix of `s` is a block of `s`. */
  lemma PrefixOfSuffix(s: string, suffix: string, block: string)
    requires |suffix| <= |s| && suffix == s[|s| - |suffix|..]
    requires |block| <= |suffix| && block == suffix[..|block|]
    ensures Contains(s, block)
  {
    var k := |s| - |suffix|;
    var rest := suffix[|block|..];
    assert suffix == block + rest;
    assert s == s[..k] + suffix;
    assert s == s[..k] + block + rest;
    ContainsInfix(s[..k], block, rest);
  }
}
