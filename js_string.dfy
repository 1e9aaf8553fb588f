/**
 * String.prototype.trim as the task list uses it: TrimString with "start+end",
 * section 22.1.3.32 of ECMA-262 (ECMAScript 2024). Strings are sequences of
 * Unicode code points; trimming removes the longest prefix and the longest
 * suffix made of WhiteSpace and LineTerminator code points.
 */
module JsString {

  /**
   * WhiteSpace (section 12.2: TAB, VT, FF, ZWNBSP and every code point of
   * general category Zs) or LineTerminator (section 12.3: LF, CR, LS, PS).
   * The Zs members are those of Unicode 15.1.
   */
  predicate IsWhiteSpace(c: char) {
    // WhiteSpace other than USP
    c == '\t' || c == '\U{B}' || c == '\U{C}' || c == '\U{FEFF}' ||
    // USP: general category Zs
    c == ' ' || c == '\U{A0}' || c == '\U{1680}' || ('\U{2000}' <= c <= '\U{200A}') ||
    c == '\U{202F}' || c == '\U{205F}' || c == '\U{3000}' ||
    // LineTerminator
    c == '\n' || c == '\r' || c == '\U{2028}' || c == '\U{2029}'
  }

  /** Every code point of s is white space; the empty string is blank. */
  predicate IsBlank(s: string) {
    forall k :: 0 <= k < |s| ==> IsWhiteSpace(s[k])
  }

  /** s neither begins nor ends with white space. */
  predicate IsTrimmed(s: string) {
    s == [] || (!IsWhiteSpace(s[0]) && !IsWhiteSpace(s[|s| - 1]))
  }

  /** s without its leading white space: a suffix of s after a blank prefix. */
  function TrimStart(s: string): (r: string)
    ensures |r| <= |s| && r == s[|s| - |r|..]
    ensures IsBlank(s[..|s| - |r|])
    ensures r == [] || !IsWhiteSpace(r[0])
  {
    if s != [] && IsWhiteSpace(s[0]) then TrimStart(s[1..]) else s
  }

  /** s without its trailing white space: a prefix of s before a blank suffix. */
  function TrimEnd(s: string): (r: string)
    ensures |r| <= |s| && r == s[..|r|]
    ensures IsBlank(s[|r|..])
    ensures r == [] || !IsWhiteSpace(r[|r| - 1])
  {
    if s != [] && IsWhiteSpace(s[|s| - 1]) then TrimEnd(s[..|s| - 1]) else s
  }

  /**
   * TrimString(s, start+end): the trimmed result is a piece of s that is cut
   * out between a blank prefix and a blank suffix.
   */
  function Trim(s: string): (r: string)
    ensures IsTrimmed(r)
    ensures exists i, j :: 0 <= i <= j <= |s| && r == s[i..j] && IsBlank(s[..i]) && IsBlank(s[j..])
  {
    var t := TrimStart(s);
    var r := TrimEnd(t);
    var i, j := |s| - |t|, |s| - |t| + |r|;
    assert s[i..j] == r && s[j..] == t[|r|..];
    assert 0 <= i <= j <= |s| && r == s[i..j] && IsBlank(s[..i]) && IsBlank(s[j..]);
    r
  }

  /** Removing a blank prefix in front of a string that does not start with white space. */
  lemma {:induction false} TrimStartBlankPrefix(p: string, u: string)
    requires IsBlank(p)
    requires u == [] || !IsWhiteSpace(u[0])
    ensures TrimStart(p + u) == u
  {
    if p != [] {
      assert (p + u)[1..] == p[1..] + u;
      TrimStartBlankPrefix(p[1..], u);
    }
  }

  /** Removing a blank suffix behind a string that does not end with white space. */
  lemma {:induction false} TrimEndBlankSuffix(u: string, q: string)
    requires IsBlank(q)
    requires u == [] || !IsWhiteSpace(u[|u| - 1])
    ensures TrimEnd(u + q) == u
  {
    if q != [] {
      assert (u + q)[..|u + q| - 1] == u + q[..|q| - 1];
      TrimEndBlankSuffix(u, q[..|q| - 1]);
    }
  }

  /**
   * The reference characterisation of TrimString: whenever s is a trimmed
   * string t between a blank prefix and a blank suffix, Trim(s) is t.
   * Together with Trim's postcondition this determines Trim uniquely.
   */
  lemma TrimOfPadded(p: string, t: string, q: string)
    requires IsBlank(p) && IsBlank(q) && IsTrimmed(t)
    ensures Trim(p + t + q) == t
  {
    if t == [] {
      assert p + t + q == p + q;
      assert IsBlank(p + q);
      TrimStartBlankPrefix(p + q, []);
      assert p + q + [] == p + q;
    } else {
      assert p + t + q == p + (t + q);
      TrimStartBlankPrefix(p, t + q);
      TrimEndBlankSuffix(t, q);
    }
  }

  /** A trimmed string is its own trim, and only a trimmed string is. */
  lemma TrimFixedPoint(s: string)
    ensures Trim(s) == s <==> IsTrimmed(s)
  {
  }

  /** Trimming twice is trimming once. */
  lemma TrimIdempotent(s: string)
    ensures Trim(Trim(s)) == Trim(s)
  {
  }

  /** The trim is empty exactly when the whole string is white space. */
  lemma TrimEmptyIffBlank(s: string)
    ensures Trim(s) == [] <==> IsBlank(s)
  {
  }
}
