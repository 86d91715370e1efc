/**
 * The small part of ECMAScript's string library that the screens rely on:
 * the WhiteSpace and LineTerminator character classes (sections 12.2 and
 * 12.3 of ECMA-262), String.prototype.trim (section 22.1.3.32), and the
 * decimal rendering of a non-negative integer in a template literal.
 */
module JsText {

  import opened Wrappers

  /** `if (v)` on a string that may be missing: null, undefined and "" are falsy. */
  predicate Truthy(v: Option<string>) {
    v.Some? && v.value != ""
  }

  /** LineTerminator: LF, CR, LINE SEPARATOR, PARAGRAPH SEPARATOR. */
  predicate IsLineTerminator(c: char) {
    c == '\n' || c == '\r' || c == '\U{2028}' || c == '\U{2029}'
  }

  /** WhiteSpace: TAB, VT, FF, ZWNBSP and the Unicode "Space_Separator" (Zs) characters. */
  predicate IsWhiteSpace(c: char) {
    c == '\t' || c == '\U{000B}' || c == '\U{000C}' || c == '\U{FEFF}' ||
    c == ' ' || c == '\U{00A0}' || c == '\U{1680}' ||
    ('\U{2000}' <= c <= '\U{200A}') ||
    c == '\U{202F}' || c == '\U{205F}' || c == '\U{3000}'
  }

  /** The characters String.prototype.trim strips from both ends. */
  predicate IsTrimmable(c: char) {
    IsWhiteSpace(c) || IsLineTerminator(c)
  }

  predicate AllTrimmable(s: string) {
    forall i :: 0 <= i < |s| ==> IsTrimmable(s[i])
  }

  /** The first position at or after i that holds a non-trimmable character, or |s|. */
  function SkipForward(s: string, i: nat): (r: nat)
    requires i <= |s|
    ensures i <= r <= |s|
    ensures forall k :: i <= k < r ==> IsTrimmable(s[k])
    ensures r < |s| ==> !IsTrimmable(s[r])
    decreases |s| - i
  {
    if i == |s| || !IsTrimmable(s[i]) then i else SkipForward(s, i + 1)
  }

  /** The end of the last non-trimmable character before position j, or 0. */
  function SkipBackward(s: string, j: nat): (r: nat)
    requires j <= |s|
    ensures r <= j
    ensures forall k :: r <= k < j ==> IsTrimmable(s[k])
    ensures r > 0 ==> !IsTrimmable(s[r - 1])
  {
    if j == 0 || !IsTrimmable(s[j - 1]) then j else SkipBackward(s, j - 1)
  }

  /**
   * String.prototype.trim: the longest middle slice of s that neither starts
   * nor ends with a trimmable character.
   */
  function Trim(s: string): (r: string)
    ensures |r| <= |s|
    ensures exists i ::
              0 <= i <= |s| - |r| && r == s[i..i + |r|] &&
              AllTrimmable(s[..i]) && AllTrimmable(s[i + |r|..])
    ensures r != [] ==> !IsTrimmable(r[0]) && !IsTrimmable(r[|r| - 1])
  {
    var b := SkipForward(s, 0);
    if b == |s| then
      assert AllTrimmable(s[..b]) && AllTrimmable(s[b..]);
      []
    else
      var e := SkipBackward(s, |s|);
      assert b < e by {
        assert !IsTrimmable(s[b]);
      }
      var r := s[b..e];
      assert r == s[b..b + |r|];
      assert AllTrimmable(s[..b]) && AllTrimmable(s[e..]);
      r
  }

  /** A string trims to "" exactly when every character in it is trimmable. */
  lemma TrimEmptyIff(s: string)
    ensures Trim(s) == [] <==> AllTrimmable(s)
  {
    var b := SkipForward(s, 0);
    if b < |s| {
      assert !IsTrimmable(s[b]);
      assert SkipBackward(s, |s|) > b;
    }
  }

  /** Trimming is idempotent. */
  lemma TrimIdempotent(s: string)
    ensures Trim(Trim(s)) == Trim(s)
  {
    var r := Trim(s);
    if r != [] {
      assert SkipForward(r, 0) == 0;
      assert SkipBackward(r, |r|) == |r|;
      assert r[0..|r|] == r;
    }
  }

  function DigitChar(d: nat): (c: char)
    requires d < 10
    ensures '0' <= c <= '9'
  {
    ['0', '1', '2', '3', '4', '5', '6', '7', '8', '9'][d]
  }

  /** Decimal value of a string of ASCII digits. */
  function DigitsValue(s: string): nat
    requires forall i :: 0 <= i < |s| ==> '0' <= s[i] <= '9'
  {
    if s == [] then 0 else 10 * DigitsValue(s[..|s| - 1]) + ((s[|s| - 1] as int) - ('0' as int))
  }

  /** The decimal rendering of n that a template literal `${n}` produces. */
  function NatToString(n: nat): (r: string)
    ensures r != []
    ensures forall i :: 0 <= i < |r| ==> '0' <= r[i] <= '9'
    ensures |r| > 1 ==> r[0] != '0'
  {
    if n < 10 then [DigitChar(n)] else NatToString(n / 10) + [DigitChar(n % 10)]
  }

  /** Rendering and reading back the digits gives the same number. */
  lemma {:induction false} NatToStringRoundTrip(n: nat)
    ensures DigitsValue(NatToString(n)) == n
  {
    var r := NatToString(n);
    if n < 10 {
      assert r[..0] == [];
      assert DigitChar(n) as int - '0' as int == n;
    } else {
      NatToStringRoundTrip(n / 10);
      assert r[..|r| - 1] == NatToString(n / 10);
      assert DigitChar(n % 10) as int - '0' as int == n % 10;
    }
  }
}
