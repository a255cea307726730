/** The part of JavaScript's string library the chat session relies on:
    `String.prototype.trim`, which removes leading and trailing white space
    and line terminators (ECMA-262, sections 12.2 and 12.3). */
module JsText {

  /** True for the characters `trim` strips: the WhiteSpace production
      (tab, vertical tab, form feed, the byte-order mark and every Unicode
      space separator) and the LineTerminator production. */
  predicate IsTrimmable(c: char) {
    // WhiteSpace
    c == '\U{0009}' || c == '\U{000B}' || c == '\U{000C}' || c == '\U{FEFF}'
    // Unicode category Zs
    || c == '\U{0020}' || c == '\U{00A0}' || c == '\U{1680}'
    || ('\U{2000}' <= c <= '\U{200A}')
    || c == '\U{202F}' || c == '\U{205F}' || c == '\U{3000}'
    // LineTerminator
    || c == '\U{000A}' || c == '\U{000D}' || c == '\U{2028}' || c == '\U{2029}'
  }

  /** Every character of `s` is one that `trim` strips. */
  predicate AllTrimmable(s: string) {
    forall i :: 0 <= i < |s| ==> IsTrimmable(s[i])
  }

  /** `s` without its leading trimmable characters. */
  function TrimStart(s: string): (r: string)
    ensures |r| <= |s| && r == s[|s| - |r|..]
    ensures AllTrimmable(s[..|s| - |r|])
    ensures r == [] || !IsTrimmable(r[0])
  {
    if |s| > 0 && IsTrimmable(s[0]) then
      var r := TrimStart(s[1..]);
      assert s[..|s| - |r|] == [s[0]] + s[1..][..|s| - 1 - |r|];
      r
    else
      s
  }

  /** `s` without its trailing trimmable characters. */
  function TrimEnd(s: string): (r: string)
    ensures |r| <= |s| && r == s[..|r|]
    ensures AllTrimmable(s[|r|..])
    ensures r == [] || !IsTrimmable(r[|r| - 1])
  {
    if |s| > 0 && IsTrimmable(s[|s| - 1]) then
      var r := TrimEnd(s[..|s| - 1]);
      assert s[|r|..] == s[..|s| - 1][|r|..] + [s[|s| - 1]];
      r
    else
      s
  }

  /** `s.trim()`: `s` without trimmable characters at either end. It is
      empty exactly when `s` holds nothing else, and otherwise starts and
      ends with a character `trim` keeps. */
  function Trim(s: string): (r: string)
    ensures r == [] <==> AllTrimmable(s)
    ensures r != [] ==> !IsTrimmable(r[0]) && !IsTrimmable(r[|r| - 1])
  {
    TrimEmptyIff(s);
    TrimEnd(TrimStart(s))
  }

  /** `Trim(s)` is a contiguous slice of `s`, and everything before and
      after that slice is trimmable. */
  lemma TrimIsSlice(s: string)
    ensures var lo := |s| - |TrimStart(s)|; var r := Trim(s);
      && lo + |r| <= |s| && r == s[lo..lo + |r|]
      && AllTrimmable(s[..lo]) && AllTrimmable(s[lo + |r|..])
  {
    var t := TrimStart(s);
    var r := TrimEnd(t);
    var lo := |s| - |t|;
    assert s[lo..][..|r|] == s[lo..lo + |r|];
    assert s[lo..][|r|..] == s[lo + |r|..];
  }

  /** `Trim` leaves nothing exactly when every character is trimmable. */
  lemma TrimEmptyIff(s: string)
    ensures TrimEnd(TrimStart(s)) == [] <==> AllTrimmable(s)
  {
    var t := TrimStart(s);
    var lo := |s| - |t|;
    if TrimEnd(t) == [] {
      assert t[0..] == t;
      forall i | 0 <= i < |s|
        ensures IsTrimmable(s[i])
      {
        if i < lo {
          assert s[i] == s[..lo][i];
        } else {
          assert s[i] == t[i - lo];
        }
      }
    }
  }
}
