/**
 * The two JavaScript string operations the message check relies on:
 * `String.prototype.trim` and the `length` of a string, which counts
 * UTF-16 code units rather than characters.
 */
module JsText {

  /** ECMAScript WhiteSpace and LineTerminator code points: what `trim` strips. */
  const WhiteSpace: set<char> := {
    '\t', '\n', '\U{000B}', '\U{000C}', '\r', ' ', '\U{00A0}', '\U{1680}',
    '\U{2000}', '\U{2001}', '\U{2002}', '\U{2003}', '\U{2004}', '\U{2005}',
    '\U{2006}', '\U{2007}', '\U{2008}', '\U{2009}', '\U{200A}',
    '\U{2028}', '\U{2029}', '\U{202F}', '\U{205F}', '\U{3000}', '\U{FEFF}'
  }

  predicate IsWhiteSpace(c: char)
  {
    c in WhiteSpace
  }

  /** True when `s[lo..hi]` is all white space. */
  predicate BlankBetween(s: string, lo: nat, hi: nat)
    requires lo <= hi <= |s|
  {
    forall i :: lo <= i < hi ==> IsWhiteSpace(s[i])
  }

  /** True when every character of `s` is white space (so is the empty string). */
  predicate IsBlank(s: string)
  {
    BlankBetween(s, 0, |s|)
  }

  /** `s` without its leading white space. */
  function TrimStart(s: string): (r: string)
    ensures |r| <= |s| && r == s[|s| - |r|..]
    ensures BlankBetween(s, 0, |s| - |r|)
    ensures r == [] || !IsWhiteSpace(r[0])
  {
    if s != [] && IsWhiteSpace(s[0]) then
      var r := TrimStart(s[1..]);
      assert forall i :: 1 <= i < |s| ==> s[i] == s[1..][i - 1];
      assert s[1..][|s| - 1 - |r|..] == s[|s| - |r|..];
      r
    else
      s
  }

  /** `s` without its trailing white space. */
  function TrimEnd(s: string): (r: string)
    ensures |r| <= |s| && r == s[..|r|]
    ensures BlankBetween(s, |r|, |s|)
    ensures r == [] || !IsWhiteSpace(r[|r| - 1])
  {
    if s != [] && IsWhiteSpace(s[|s| - 1]) then
      var r := TrimEnd(s[..|s| - 1]);
      assert forall i :: 0 <= i < |s| - 1 ==> s[i] == s[..|s| - 1][i];
      assert s[..|s| - 1][..|r|] == s[..|r|];
      r
    else
      s
  }

  /** `String.prototype.trim`: strip white space at both ends. */
  function Trim(s: string): string
  {
    TrimEnd(TrimStart(s))
  }

  /** What `trim` leaves is a contiguous piece of `s` with only white space before and after it. */
  lemma TrimIsInnerSlice(s: string)
    ensures
      var i := |s| - |TrimStart(s)|;
      && i + |Trim(s)| <= |s|
      && Trim(s) == s[i..i + |Trim(s)|]
      && BlankBetween(s, 0, i) && BlankBetween(s, i + |Trim(s)|, |s|)
  {
    InnerSlice(s, TrimStart(s), Trim(s));
  }

  /**
   * When `t` is `s` without a blank prefix and `r` is `t` without a blank
   * suffix, `r` is a slice of `s` with blank text on both sides.
   */
  lemma InnerSlice(s: string, t: string, r: string)
    requires |t| <= |s| && t == s[|s| - |t|..] && BlankBetween(s, 0, |s| - |t|)
    requires |r| <= |t| && r == t[..|r|] && BlankBetween(t, |r|, |t|)
    ensures
      var i := |s| - |t|;
      && r == s[i..i + |r|]
      && BlankBetween(s, 0, i) && BlankBetween(s, i + |r|, |s|)
  {
    var i := |s| - |t|;
    forall k | i + |r| <= k < |s|
      ensures IsWhiteSpace(s[k])
    {
      assert s[k] == t[k - i];
    }
  }

  /** What `trim` leaves starts and ends with a character that is not white space. */
  lemma TrimEndsAreNotSpace(s: string)
    ensures Trim(s) == [] || (!IsWhiteSpace(Trim(s)[0]) && !IsWhiteSpace(Trim(s)[|Trim(s)| - 1]))
  {
    var t := TrimStart(s);
    var r := TrimEnd(t);
    if r != [] {
      assert r[0] == t[0];
    }
  }

  /** `message.trim().length === 0` holds exactly when the message is all white space. */
  lemma TrimEmptyIffBlank(s: string)
    ensures Trim(s) == [] <==> IsBlank(s)
  {
    var t := TrimStart(s);
    if Trim(s) == [] {
      assert t == [] by {
        assert BlankBetween(t, 0, |t|);
      }
    }
  }

  /** Number of UTF-16 code units of `s`: characters outside the Basic Multilingual Plane take two. */
  function Utf16Length(s: string): (n: nat)
    ensures |s| <= n <= 2 * |s|
    ensures n == |s| <==> forall i :: 0 <= i < |s| ==> s[i] as int <= 0xFFFF
  {
    if s == [] then 0
    else
      var rest := Utf16Length(s[1..]);
      assert forall i :: 1 <= i < |s| ==> s[i] == s[1..][i - 1];
      (if s[0] as int <= 0xFFFF then 1 else 2) + rest
  }
}
