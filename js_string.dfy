/** The part of JavaScript's string library the contact form relies on:
    `String.prototype.trim`, as ECMA-262, 15th edition (2024), defines it
    (section 22.1.3.32, "String.prototype.trim", which strips WhiteSpace
    and LineTerminator code points from both ends). The program only calls `trim`; this
    module is the model of that library call. */
module JsString {

  /** WhiteSpace (section 12.2 of the same edition: TAB, VT, FF, ZWNBSP
      and every code point of general category Zs) and LineTerminator (section 12.3:
      LF, CR, LS, PS). */
  predicate IsWhiteSpace(c: char) {
    || c == '\U{0009}' || c == '\U{000B}' || c == '\U{000C}' || c == '\U{FEFF}'
    || c == '\U{0020}' || c == '\U{00A0}' || c == '\U{1680}'
    || ('\U{2000}' <= c <= '\U{200A}')
    || c == '\U{202F}' || c == '\U{205F}' || c == '\U{3000}'
    || c == '\U{000A}' || c == '\U{000D}' || c == '\U{2028}' || c == '\U{2029}'
  }

  /** Every character of `s` is white space (the empty string vacuously). */
  predicate AllWhiteSpace(s: string) {
    forall i :: 0 <= i < |s| ==> IsWhiteSpace(s[i])
  }

  /** `s` has no white space at either end. */
  predicate Trimmed(s: string) {
    s == [] || (!IsWhiteSpace(s[0]) && !IsWhiteSpace(s[|s| - 1]))
  }

  /** Drops the leading white space. */
  function TrimStart(s: string): (r: string)
    ensures |r| <= |s|
    ensures r != [] ==> !IsWhiteSpace(r[0])
  {
    if s != [] && IsWhiteSpace(s[0]) then TrimStart(s[1..]) else s
  }

  /** Drops the trailing white space. */
  function TrimEnd(s: string): (r: string)
    ensures |r| <= |s|
    ensures r != [] ==> !IsWhiteSpace(r[|r| - 1])
  {
    if s != [] && IsWhiteSpace(s[|s| - 1]) then TrimEnd(s[..|s| - 1]) else s
  }

  /** `String.prototype.trim`. */
  function Trim(s: string): (r: string)
    ensures |r| <= |s| && Trimmed(r)
  {
    TrimEndSpec(TrimStart(s));
    TrimEnd(TrimStart(s))
  }

  /** TrimStart returns the longest suffix of `s` that does not start with
      white space: what it drops is all white space. */
  lemma {:induction false} TrimStartSpec(s: string)
    ensures |TrimStart(s)| <= |s| && TrimStart(s) == s[|s| - |TrimStart(s)|..]
    ensures AllWhiteSpace(s[..|s| - |TrimStart(s)|])
    ensures TrimStart(s) != [] ==> !IsWhiteSpace(TrimStart(s)[0])
  {
    if s != [] && IsWhiteSpace(s[0]) {
      TrimStartSpec(s[1..]);
      var k := |s[1..]| - |TrimStart(s[1..])|;
      assert s[..k + 1] == [s[0]] + s[1..][..k];
    }
  }

  /** TrimEnd returns the longest prefix of `s` that does not end with
      white space: what it drops is all white space. */
  lemma {:induction false} TrimEndSpec(s: string)
    ensures |TrimEnd(s)| <= |s| && TrimEnd(s) == s[..|TrimEnd(s)|]
    ensures AllWhiteSpace(s[|TrimEnd(s)|..])
    ensures TrimEnd(s) != [] ==> !IsWhiteSpace(TrimEnd(s)[|TrimEnd(s)| - 1])
  {
    if s != [] && IsWhiteSpace(s[|s| - 1]) {
      var p := s[..|s| - 1];
      TrimEndSpec(p);
      var k := |TrimEnd(p)|;
      assert s[k..] == p[k..] + [s[|s| - 1]];
    }
  }

  /** Splits a string into the white space Trim drops before and after
      what it keeps. */
  lemma TrimSplit(s: string) returns (a: string, b: string)
    ensures AllWhiteSpace(a) && AllWhiteSpace(b)
    ensures s == a + Trim(s) + b
    ensures Trimmed(Trim(s))
  {
    TrimStartSpec(s);
    var t := TrimStart(s);
    TrimEndSpec(t);
    var k := |s| - |t|;
    a := s[..k];
    assert s == a + t;
    var u := TrimEnd(t);
    b := t[|u|..];
    assert t == u + b;
    if u != [] {
      assert u[0] == t[0];
    }
  }

  /** A string with no white space at its ends is its own trim. */
  lemma TrimOfTrimmed(s: string)
    requires Trimmed(s)
    ensures Trim(s) == s
  {
    assert s == [] + s + [];
    TrimUnique([], s, []);
  }

  /** The characterisation that pins Trim down: whenever `s` is white space,
      then `m`, then white space, and `m` has no white space at its ends,
      Trim returns exactly `m`. */
  lemma TrimUnique(a: string, m: string, b: string)
    requires AllWhiteSpace(a) && AllWhiteSpace(b) && Trimmed(m)
    ensures Trim(a + m + b) == m
  {
    if m == [] {
      assert AllWhiteSpace(a + b) by {
        forall k | 0 <= k < |a + b| ensures IsWhiteSpace((a + b)[k]) {
          if k >= |a| { assert (a + b)[k] == b[k - |a|]; }
        }
      }
      assert a + m + b == (a + b) + [];
      TrimStartOfPadded(a + b, []);
    } else {
      TrimStartOfPadded(a, m + b);
      assert a + m + b == a + (m + b);
      TrimEndOfPadded(m, b);
    }
  }

  lemma {:induction false} TrimStartOfPadded(a: string, t: string)
    requires AllWhiteSpace(a)
    requires t == [] || !IsWhiteSpace(t[0])
    ensures TrimStart(a + t) == t
  {
    if a != [] {
      assert (a + t)[1..] == a[1..] + t;
      TrimStartOfPadded(a[1..], t);
    }
  }

  lemma {:induction false} TrimEndOfPadded(t: string, b: string)
    requires AllWhiteSpace(b)
    requires t == [] || !IsWhiteSpace(t[|t| - 1])
    ensures TrimEnd(t + b) == t
  {
    if b != [] {
      assert (t + b)[..|t + b| - 1] == t + b[..|b| - 1];
      TrimEndOfPadded(t, b[..|b| - 1]);
    }
  }

  /** Trimming twice is trimming once. */
  lemma TrimIdempotent(s: string)
    ensures Trim(Trim(s)) == Trim(s)
  {
    var a, b := TrimSplit(s);
    TrimOfTrimmed(Trim(s));
  }

  /** The trimmed string is empty exactly when the input is all white space. */
  lemma TrimEmptyIff(s: string)
    ensures Trim(s) == [] <==> AllWhiteSpace(s)
  {
    if AllWhiteSpace(s) {
      assert s == s + [] + [];
      TrimUnique(s, [], []);
    }
    if Trim(s) == [] {
      var a, b := TrimSplit(s);
      forall k | 0 <= k < |s| ensures IsWhiteSpace(s[k]) {
        if k < |a| {
          assert s[k] == a[k];
        } else {
          assert s[k] == b[k - |a|];
        }
      }
    }
  }
}
