/**
 * The few pieces of java.lang.String and java.util.regex behaviour the
 * core relies on, over strings as sequences of Unicode scalar values
 * (Java's surrogate pairs, two UTF-16 code units per character outside
 * the Basic Multilingual Plane, are not modelled).
 */
module JavaString {

  /** String.trim treats every character up to U+0020 as removable. */
  predicate IsTrimmed(c: char) { c <= ' ' }

  predicate AllTrimmed(s: string) {
    forall k :: 0 <= k < |s| ==> IsTrimmed(s[k])
  }

  /**
   * String.trim: drop removable characters from the front, then from the
   * back, until neither end is removable; a string of removable characters
   * trims to the empty string.
   */
  function Trim(s: string): (r: string)
    ensures |r| <= |s|
    ensures r == [] || (!IsTrimmed(r[0]) && !IsTrimmed(r[|r| - 1]))
  {
    if s != [] && IsTrimmed(s[0]) then Trim(s[1..])
    else if s != [] && IsTrimmed(s[|s| - 1]) then Trim(s[..|s| - 1])
    else s
  }

  /**
   * Trimming is determined by its characterization: if s is a removable
   * prefix, then r, then a removable suffix, and r neither starts nor ends
   * with a removable character, then r is the trim of s.
   */
  lemma {:induction false} TrimUnique(s: string, a: string, r: string, b: string)
    requires s == a + r + b
    requires AllTrimmed(a) && AllTrimmed(b)
    requires r == [] || (!IsTrimmed(r[0]) && !IsTrimmed(r[|r| - 1]))
    ensures Trim(s) == r
  {
    if r == [] {
      assert s == a + b;
      AllTrimmedConcat(a, b);
      TrimAllBlank(s);
    } else {
      assert s == a + (r + b);
      TrimFront(a, r + b);
      TrimBack(r, b);
    }
  }

  /** A string of removable characters trims to the empty string. */
  lemma {:induction false} TrimAllBlank(s: string)
    requires AllTrimmed(s)
    ensures Trim(s) == []
    decreases |s|
  {
    if s != [] {
      assert Trim(s) == Trim(s[1..]);
      TrimAllBlank(s[1..]);
    }
  }

  /** A removable prefix in front of a non-removable character is dropped. */
  lemma {:induction false} TrimFront(a: string, t: string)
    requires AllTrimmed(a)
    requires t != [] && !IsTrimmed(t[0])
    ensures Trim(a + t) == Trim(t)
    decreases |a|
  {
    if a == [] {
      assert a + t == t;
    } else {
      assert (a + t)[0] == a[0];
      assert (a + t)[1..] == a[1..] + t;
      assert Trim(a + t) == Trim((a + t)[1..]);
      TrimFront(a[1..], t);
    }
  }

  /** A removable suffix behind a string with non-removable ends is dropped. */
  lemma {:induction false} TrimBack(r: string, b: string)
    requires r != [] && !IsTrimmed(r[0]) && !IsTrimmed(r[|r| - 1])
    requires AllTrimmed(b)
    ensures Trim(r + b) == r
    decreases |b|
  {
    if b == [] {
      assert r + b == r;
    } else {
      var s := r + b;
      assert s[0] == r[0];
      assert s[|s| - 1] == b[|b| - 1];
      assert s[..|s| - 1] == r + b[..|b| - 1];
      assert Trim(s) == Trim(s[..|s| - 1]);
      TrimBack(r, b[..|b| - 1]);
    }
  }

  lemma {:induction false} AllTrimmedConcat(x: string, y: string)
    requires AllTrimmed(x) && AllTrimmed(y)
    ensures AllTrimmed(x + y)
  {
    forall k | 0 <= k < |x + y| ensures IsTrimmed((x + y)[k]) {
      if k >= |x| { assert (x + y)[k] == y[k - |x|]; }
    }
  }

  /** Every string is its trim with a removable prefix and suffix around it. */
  lemma {:induction false} TrimParts(s: string) returns (front: string, back: string)
    ensures s == front + Trim(s) + back
    ensures AllTrimmed(front) && AllTrimmed(back)
    decreases |s|
  {
    if s != [] && IsTrimmed(s[0]) {
      var f, b := TrimParts(s[1..]);
      front, back := [s[0]] + f, b;
      AllTrimmedConcat([s[0]], f);
      assert Trim(s) == Trim(s[1..]);
      ConsRegroup(s[0], f, Trim(s), b);
      assert s == [s[0]] + s[1..];
    } else if s != [] && IsTrimmed(s[|s| - 1]) {
      var f, b := TrimParts(s[..|s| - 1]);
      front, back := f, b + [s[|s| - 1]];
      AllTrimmedConcat(b, [s[|s| - 1]]);
      assert Trim(s) == Trim(s[..|s| - 1]);
      SnocRegroup(f, Trim(s), b, s[|s| - 1]);
      assert s == s[..|s| - 1] + [s[|s| - 1]];
    } else {
      front, back := [], [];
    }
  }

  /** Padding a string with removable characters does not change its trim. */
  lemma {:induction false} TrimIgnoresPadding(pre: string, s: string, post: string)
    requires AllTrimmed(pre) && AllTrimmed(post)
    ensures Trim(pre + s + post) == Trim(s)
  {
    var r := Trim(s);
    var front, back := TrimParts(s);
    AllTrimmedConcat(pre, front);
    AllTrimmedConcat(back, post);
    Regroup(pre, front, r, back, post);
    TrimUnique(pre + s + post, pre + front, r, back + post);
  }

  lemma ConsRegroup(c: char, f: string, r: string, b: string)
    ensures [c] + (f + r + b) == ([c] + f) + r + b
  {
  }

  lemma SnocRegroup(f: string, r: string, b: string, c: char)
    ensures (f + r + b) + [c] == f + r + (b + [c])
  {
  }

  lemma Regroup(p: string, f: string, r: string, b: string, q: string)
    ensures p + (f + r + b) + q == (p + f) + r + (b + q)
  {
  }

  /** Trimming twice is trimming once. */
  lemma {:induction false} TrimIdempotent(s: string)
    ensures Trim(Trim(s)) == Trim(s)
  {
    TrimUnique(Trim(s), [], Trim(s), []);
  }

  /** The characters Java's regex engine treats as line terminators. */
  predicate IsLineTerminator(c: char) {
    c == '\n' || c == '\r' || c == '\U{0085}' || c == '\U{2028}' || c == '\U{2029}'
  }

  /** \d without the UNICODE_CHARACTER_CLASS flag: ASCII 0-9 only. */
  predicate IsAsciiDigit(c: char) { '0' <= c <= '9' }

  /**
   * String.matches(".*\\d{4}$"): the whole string must match, so everything
   * before the final four ASCII digits is consumed by ".", which matches any
   * character except a line terminator.
   */
  predicate MatchesFourDigitSuffix(s: string) {
    && |s| >= 4
    && (forall k :: |s| - 4 <= k < |s| ==> IsAsciiDigit(s[k]))
    && (forall k :: 0 <= k < |s| - 4 ==> !IsLineTerminator(s[k]))
  }

  /**
   * The regular expression read as a language: some prefix of characters
   * that '.' matches, then four ASCII digits, then the end of the input.
   */
  ghost predicate MatchesPattern(s: string) {
    exists p, d :: s == p + d && |d| == 4
      && (forall k :: 0 <= k < |d| ==> IsAsciiDigit(d[k]))
      && (forall k :: 0 <= k < |p| ==> !IsLineTerminator(p[k]))
  }

  /** The direct check accepts exactly the strings the pattern matches. */
  lemma FourDigitSuffixIsPattern(s: string)
    ensures MatchesFourDigitSuffix(s) <==> MatchesPattern(s)
  {
    if MatchesFourDigitSuffix(s) {
      SuffixGivesPattern(s);
    }
    if MatchesPattern(s) {
      var p, d :| s == p + d && |d| == 4
        && (forall k :: 0 <= k < |d| ==> IsAsciiDigit(d[k]))
        && (forall k :: 0 <= k < |p| ==> !IsLineTerminator(p[k]));
      PatternGivesSuffix(s, p, d);
    }
  }

  lemma SuffixGivesPattern(s: string)
    requires MatchesFourDigitSuffix(s)
    ensures MatchesPattern(s)
  {
    var p, d := s[..|s| - 4], s[|s| - 4..];
    assert s == p + d;
    assert forall k :: 0 <= k < |d| ==> d[k] == s[|s| - 4 + k];
    assert forall k :: 0 <= k < |p| ==> p[k] == s[k];
  }

  lemma PatternGivesSuffix(s: string, p: string, d: string)
    requires s == p + d && |d| == 4
    requires forall k :: 0 <= k < |d| ==> IsAsciiDigit(d[k])
    requires forall k :: 0 <= k < |p| ==> !IsLineTerminator(p[k])
    ensures MatchesFourDigitSuffix(s)
  {
    assert forall k :: |s| - 4 <= k < |s| ==> s[k] == d[k - |p|];
    assert forall k :: 0 <= k < |p| ==> s[k] == p[k];
  }

  /** Number of occurrences of c in s, as chars().filter(ch -> ch == c).count(). */
  function CountChar(s: string, c: char): (n: nat)
    ensures n == multiset(s)[c]
    ensures n <= |s|
    ensures n == 0 <==> c !in s
  {
    if s == [] then 0
    else
      assert s == [s[0]] + s[1..];
      (if s[0] == c then 1 else 0) + CountChar(s[1..], c)
  }
}
