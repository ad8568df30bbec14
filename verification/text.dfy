/** The part of JavaScript's `String.prototype.trim` the playlist dialog relies on. */
module Text {

  /** ECMAScript WhiteSpace and LineTerminator code points, the set `trim` strips. */
  const Whitespace: set<char> := {
    '\t', '\n', '\U{000B}', '\U{000C}', '\r', ' ', '\U{00A0}', '\U{1680}',
    '\U{2000}', '\U{2001}', '\U{2002}', '\U{2003}', '\U{2004}', '\U{2005}',
    '\U{2006}', '\U{2007}', '\U{2008}', '\U{2009}', '\U{200A}',
    '\U{2028}', '\U{2029}', '\U{202F}', '\U{205F}', '\U{3000}', '\U{FEFF}'
  }

  predicate IsWhitespace(c: char)
  {
    c in Whitespace
  }

  predicate AllWhitespace(s: string)
  {
    forall i :: 0 <= i < |s| ==> IsWhitespace(s[i])
  }

  /** No whitespace at either end (the empty string qualifies). */
  predicate Trimmed(s: string)
  {
    s == [] || (!IsWhitespace(s[0]) && !IsWhitespace(s[|s| - 1]))
  }

  /** The first position at or after `i` that does not hold whitespace, or `|s|`. */
  function SkipForward(s: string, i: nat): (n: nat)
    requires i <= |s|
    ensures i <= n <= |s|
    ensures forall j :: i <= j < n ==> IsWhitespace(s[j])
    ensures n == |s| || !IsWhitespace(s[n])
    decreases |s| - i
  {
    if i < |s| && IsWhitespace(s[i]) then SkipForward(s, i + 1) else i
  }

  /** The end of the text before position `j`: the smallest `n` with only whitespace in `s[n..j]`. */
  function SkipBackward(s: string, j: nat): (n: nat)
    requires j <= |s|
    ensures n <= j
    ensures forall k :: n <= k < j ==> IsWhitespace(s[k])
    ensures n == 0 || !IsWhitespace(s[n - 1])
  {
    if j > 0 && IsWhitespace(s[j - 1]) then SkipBackward(s, j - 1) else j
  }

  /** Any position with only whitespace before it and none at it is where SkipForward stops. */
  lemma SkipForwardUnique(s: string, m: nat)
    requires m <= |s|
    requires forall j :: 0 <= j < m ==> IsWhitespace(s[j])
    requires m == |s| || !IsWhitespace(s[m])
    ensures SkipForward(s, 0) == m
  {
  }

  lemma SkipBackwardUnique(s: string, m: nat)
    requires m <= |s|
    requires forall k :: m <= k < |s| ==> IsWhitespace(s[k])
    requires m == 0 || !IsWhitespace(s[m - 1])
    ensures SkipBackward(s, |s|) == m
  {
  }

  /** `s.trimStart()`: the dropped prefix is all whitespace and what is left does not start with any. */
  function TrimStart(s: string): (r: string)
    ensures |r| <= |s| && r == s[|s| - |r|..]
    ensures AllWhitespace(s[..|s| - |r|])
    ensures r == [] || !IsWhitespace(r[0])
  {
    s[SkipForward(s, 0)..]
  }

  /** `s.trimEnd()`: the dropped suffix is all whitespace and what is left does not end with any. */
  function TrimEnd(s: string): (r: string)
    ensures |r| <= |s| && r == s[..|r|]
    ensures AllWhitespace(s[|r|..])
    ensures r == [] || !IsWhitespace(r[|r| - 1])
  {
    s[..SkipBackward(s, |s|)]
  }

  /** `s.trim()`: the result is empty exactly when `s` is all whitespace, and is trimmed. */
  function Trim(s: string): (r: string)
    ensures Trimmed(r)
    ensures r == [] <==> AllWhitespace(s)
    ensures |r| <= |s|
  {
    TrimStartEndFacts(s);
    TrimEnd(TrimStart(s))
  }

  lemma TrimStartEndFacts(s: string)
    ensures var r := TrimEnd(TrimStart(s)); (r == [] <==> AllWhitespace(s)) && Trimmed(r)
  {
    TrimEmptyIff(s);
    var t := TrimStart(s);
    var r := TrimEnd(t);
    if r != [] {
      assert r[0] == t[..|r|][0] == t[0];
    }
  }

  lemma TrimEmptyIff(s: string)
    ensures TrimEnd(TrimStart(s)) == [] <==> AllWhitespace(s)
  {
    var t := TrimStart(s);
    var r := TrimEnd(t);
    var k := |s| - |t|;
    assert s == s[..k] + t;
    if r == [] {
      assert t[|r|..] == t;
      WhitespaceConcat(s[..k], t);
    } else {
      assert t[..|r|][0] == t[0];
      assert !IsWhitespace(s[k]);
    }
  }

  lemma WhitespaceConcat(a: string, b: string)
    requires AllWhitespace(a) && AllWhitespace(b)
    ensures AllWhitespace(a + b)
  {
    forall i | 0 <= i < |a + b| ensures IsWhitespace((a + b)[i]) {
      if i >= |a| {
        assert (a + b)[i] == b[i - |a|];
      }
    }
  }

  /** Leading whitespace never survives TrimStart: it returns the unique non-whitespace-led suffix. */
  lemma TrimStartOfPadded(a: string, t: string)
    requires AllWhitespace(a)
    requires t == [] || !IsWhitespace(t[0])
    ensures TrimStart(a + t) == t
  {
    var s := a + t;
    forall j | 0 <= j < |a| ensures IsWhitespace(s[j]) {
      assert s[j] == a[j];
    }
    if t != [] {
      assert s[|a|] == t[0];
    }
    SkipForwardUnique(s, |a|);
    assert s[|a|..] == t;
  }

  lemma TrimEndOfPadded(t: string, b: string)
    requires AllWhitespace(b)
    requires t == [] || !IsWhitespace(t[|t| - 1])
    ensures TrimEnd(t + b) == t
  {
    var s := t + b;
    forall k | |t| <= k < |s| ensures IsWhitespace(s[k]) {
      assert s[k] == b[k - |t|];
    }
    if t != [] {
      assert s[|t| - 1] == t[|t| - 1];
    }
    SkipBackwardUnique(s, |t|);
    assert s[..|t|] == t;
  }

  /** Reference characterisation: a trimmed core between two runs of whitespace is exactly what `trim` returns. */
  lemma TrimOfPadded(a: string, t: string, b: string)
    requires AllWhitespace(a) && AllWhitespace(b) && Trimmed(t)
    ensures Trim(a + t + b) == t
  {
    assert a + t + b == a + (t + b);
    if t == [] {
      assert t + b == b;
      WhitespaceConcat(a, b);
    } else {
      assert (t + b)[0] == t[0];
      TrimStartOfPadded(a, t + b);
      TrimEndOfPadded(t, b);
    }
  }

  /** Conversely, every string is its trim padded by whitespace on both sides. */
  lemma TrimSplits(s: string)
    ensures exists i, j {:trigger s[i..j]} ::
              && 0 <= i <= j <= |s|
              && s[i..j] == Trim(s)
              && AllWhitespace(s[..i])
              && AllWhitespace(s[j..])
  {
    var t := TrimStart(s);
    var r := TrimEnd(t);
    var i := |s| - |t|;
    var j := i + |r|;
    assert s[i..j] == t[..|r|];
    assert s[j..] == t[|r|..];
  }

  /** Trimming twice changes nothing. */
  lemma TrimIdempotent(s: string)
    ensures Trim(Trim(s)) == Trim(s)
  {
    var t := Trim(s);
    assert [] + t + [] == t;
    TrimOfPadded([], t, []);
  }
}
