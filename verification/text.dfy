/**
 The JavaScript string primitives the application relies on, stated over
 `seq<char>`: the `\s` character class (which is also the set `trim()`
 removes), ASCII lower-casing, `includes`, `startsWith`/`endsWith`,
 `trim()`, and the decimal rendering of a non-negative integer.
 */
module Text {

  /** The JavaScript `\s` class: ECMAScript WhiteSpace plus LineTerminator. */
  predicate IsSpace(c: char) {
    || c == ' ' || c == '\t' || c == '\n' || c == '\r'
    || c == '\U{000B}' || c == '\U{000C}'
    || c == '\U{00A0}' || c == '\U{1680}'
    || ('\U{2000}' <= c <= '\U{200A}')
    || c == '\U{2028}' || c == '\U{2029}'
    || c == '\U{202F}' || c == '\U{205F}' || c == '\U{3000}' || c == '\U{FEFF}'
  }

  predicate IsUpperAscii(c: char) {
    'A' <= c <= 'Z'
  }

  /** `toLowerCase` on one character, for the ASCII letters. */
  function LowerChar(c: char): (r: char)
    ensures !IsUpperAscii(r)
    ensures !IsUpperAscii(c) ==> r == c
    ensures IsSpace(r) <==> IsSpace(c)
  {
    if IsUpperAscii(c) then (c as int + 32) as char else c
  }

  /** `toLowerCase` on a string, character by character. */
  function Lower(s: string): (r: string)
    ensures |r| == |s|
    ensures forall i :: 0 <= i < |s| ==> r[i] == LowerChar(s[i])
  {
    seq(|s|, i requires 0 <= i < |s| => LowerChar(s[i]))
  }

  /** `replace(/\s+/g, '')`: every whitespace character deleted, order kept. */
  function DropSpaces(s: string): (r: string)
    ensures |r| <= |s|
    ensures forall i :: 0 <= i < |r| ==> !IsSpace(r[i])
  {
    if |s| == 0 then ""
    else if IsSpace(s[0]) then DropSpaces(s[1..])
    else [s[0]] + DropSpaces(s[1..])
  }

  /** `hay.startsWith(p)`. */
  predicate StartsWith(hay: string, p: string) {
    |p| <= |hay| && hay[..|p|] == p
  }

  /** `hay.endsWith(p)`. */
  predicate EndsWith(hay: string, p: string) {
    |p| <= |hay| && hay[|hay| - |p|..] == p
  }

  /** `needle` occurs in `hay` starting at offset `i`. */
  predicate OccursAt(hay: string, needle: string, i: int) {
    0 <= i <= |hay| - |needle| && hay[i..i + |needle|] == needle
  }

  /** `hay.includes(needle)`: `needle` occurs at some offset of `hay`. */
  predicate Contains(hay: string, needle: string) {
    exists i :: 0 <= i <= |hay| && OccursAt(hay, needle, i)
  }

  /** `p + e + s` starts with `p`, ends with `s` and holds `e` in between. */
  lemma Framed(p: string, e: string, s: string)
    ensures var r := p + e + s;
      StartsWith(r, p) && EndsWith(r, s) && r[|p|..|r| - |s|] == e
  {
    var r := p + e + s;
    assert r[..|p|] == p && r[|r| - |s|..] == s;
  }

  /** A string whose first two characters never appear side by side in `hay`
      does not occur in it. */
  lemma AbsentBigram(hay: string, needle: string)
    requires |needle| >= 2
    requires forall i :: 0 <= i < |hay| - 1 ==> !(hay[i] == needle[0] && hay[i + 1] == needle[1])
    ensures !Contains(hay, needle)
  {
    forall i | 0 <= i <= |hay| ensures !OccursAt(hay, needle, i) {
      if i <= |hay| - |needle| {
        var w := hay[i..i + |needle|];
        assert w[0] == hay[i] && w[1] == hay[i + 1];
      }
    }
  }

  /** A string whose first character never appears in `hay` does not occur in it. */
  lemma AbsentLead(hay: string, needle: string)
    requires |needle| >= 1 && needle[0] !in hay
    ensures !Contains(hay, needle)
  {
    forall i | 0 <= i <= |hay| ensures !OccursAt(hay, needle, i) {
      if i <= |hay| - |needle| {
        assert hay[i..i + |needle|][0] == hay[i];
      }
    }
  }

  /** Occurrence is kept when text is added on either side. */
  lemma ContainsExtended(pre: string, hay: string, post: string, needle: string)
    requires Contains(hay, needle)
    ensures Contains(pre + hay + post, needle)
  {
    var i :| 0 <= i <= |hay| && OccursAt(hay, needle, i);
    var big := pre + hay + post;
    assert big[|pre| + i..|pre| + i + |needle|] == hay[i..i + |needle|];
    assert OccursAt(big, needle, |pre| + i);
  }

  /** Wherever a string occurs, so does each of its prefixes. */
  lemma ContainsPrefix(hay: string, needle: string, p: string)
    requires Contains(hay, needle) && StartsWith(needle, p)
    ensures Contains(hay, p)
  {
    var i :| 0 <= i <= |hay| && OccursAt(hay, needle, i);
    assert hay[i..i + |p|] == needle[..|p|];
    assert OccursAt(hay, p, i);
  }

  /** Drops leading whitespace. */
  function TrimStart(s: string): (r: string)
    ensures |r| <= |s| && r == s[|s| - |r|..]
    ensures |r| > 0 ==> !IsSpace(r[0])
    ensures forall i :: 0 <= i < |s| - |r| ==> IsSpace(s[i])
  {
    if |s| > 0 && IsSpace(s[0]) then TrimStart(s[1..]) else s
  }

  /** Drops trailing whitespace. */
  function TrimEnd(s: string): (r: string)
    ensures |r| <= |s| && r == s[..|r|]
    ensures |r| > 0 ==> !IsSpace(r[|r| - 1])
    ensures forall i :: |r| <= i < |s| ==> IsSpace(s[i])
  {
    if |s| > 0 && IsSpace(s[|s| - 1]) then TrimEnd(s[..|s| - 1]) else s
  }

  /** `trim()`: whitespace removed from both ends, the middle untouched. */
  function Trim(s: string): (r: string)
  {
    TrimEnd(TrimStart(s))
  }

  /** `r` sits at offset `k` of `s` with nothing but whitespace on either side. */
  predicate PaddedAt(s: string, r: string, k: int) {
    && 0 <= k <= |s| - |r| && s[k..k + |r|] == r
    && (forall i :: 0 <= i < k ==> IsSpace(s[i]))
    && (forall i :: k + |r| <= i < |s| ==> IsSpace(s[i]))
  }

  /** The trimmed string is a contiguous piece of the input with no whitespace at
      either end, and everything cut away was whitespace. */
  lemma TrimSpec(s: string)
    ensures var r := Trim(s);
      && Contains(s, r)
      && (|r| > 0 ==> !IsSpace(r[0]) && !IsSpace(r[|r| - 1]))
      && (r == "" <==> forall i :: 0 <= i < |s| ==> IsSpace(s[i]))
      && exists k :: PaddedAt(s, r, k)
  {
    var t := TrimStart(s);
    var r := TrimEnd(t);
    var k := |s| - |t|;
    assert OccursAt(s, r, k);
    assert Trim(s) == r;
    assert s[k..k + |r|] == r;
    assert forall i :: k + |r| <= i < |s| ==> s[i] == t[i - k];
    assert PaddedAt(s, r, k);
    if |r| > 0 {
      assert r[0] == t[0];
    }
  }

  /** Trimming a trimmed string changes nothing. */
  lemma {:induction false} TrimIdempotent(s: string)
    ensures Trim(Trim(s)) == Trim(s)
  {
    var r := Trim(s);
    TrimSpec(s);
    if |r| > 0 {
      assert TrimStart(r) == r;
      assert TrimEnd(r) == r;
    }
  }

  /** A text that starts and ends with non-whitespace is its own trim. */
  lemma TrimClean(s: string)
    requires |s| > 0 && !IsSpace(s[0]) && !IsSpace(s[|s| - 1])
    ensures Trim(s) == s
  {
  }

  /** A suffix that starts and ends with non-whitespace survives trimming. */
  lemma TrimKeepsSuffix(s: string, w: string)
    requires |w| > 0 && !IsSpace(w[0]) && !IsSpace(w[|w| - 1])
    requires EndsWith(s, w)
    ensures EndsWith(Trim(s), w)
  {
    var t := TrimStart(s);
    assert s[|s| - |w|] == w[0];
    assert |t| >= |w|;
    assert t[|t| - |w|..] == s[|s| - |w|..];
    assert t[|t| - 1] == w[|w| - 1];
  }

  /** The decimal digit for `d`. */
  function DigitChar(d: nat): (c: char)
    requires d < 10
    ensures '0' <= c <= '9'
  {
    "0123456789"[d]
  }

  /** `n.toString()` for a non-negative integer: its decimal digits, no leading zero. */
  function NatToString(n: nat): (r: string)
    ensures |r| >= 1
    ensures forall i :: 0 <= i < |r| ==> '0' <= r[i] <= '9'
    ensures |r| > 1 ==> r[0] != '0'
    decreases n
  {
    if n < 10 then [DigitChar(n)] else NatToString(n / 10) + [DigitChar(n % 10)]
  }

  /** Distinct integers render as distinct strings. */
  lemma {:induction false} NatToStringInjective(a: nat, b: nat)
    requires NatToString(a) == NatToString(b)
    ensures a == b
    decreases a
  {
    var sa, sb := NatToString(a), NatToString(b);
    if a >= 10 && b >= 10 {
      assert DigitChar(a % 10) == sa[|sa| - 1] == sb[|sb| - 1] == DigitChar(b % 10);
      assert a % 10 == b % 10;
      assert sa[..|sa| - 1] == NatToString(a / 10);
      assert sb[..|sb| - 1] == NatToString(b / 10);
      NatToStringInjective(a / 10, b / 10);
    } else if a < 10 && b < 10 {
      assert DigitChar(a) == DigitChar(b);
    }
  }
}
