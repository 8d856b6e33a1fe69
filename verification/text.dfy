/**
 * String primitives of the JavaScript runtime that the contact form relies on:
 * the whitespace class shared by `String.prototype.trim` and the regular
 * expression escape `\s`, `trim` itself, and `length` counted in UTF-16 code
 * units.
 */
module Text {

  /** The ECMAScript WhiteSpace and LineTerminator code points: exactly the set
      that `trim` strips and that `\s` matches. */
  predicate IsWs(c: char)
  {
    || c == '\t' || c == '\n' || c == '\U{000B}' || c == '\U{000C}' || c == '\r'
    || c == ' ' || c == '\U{00A0}' || c == '\U{1680}'
    || ('\U{2000}' <= c <= '\U{200A}')
    || c == '\U{2028}' || c == '\U{2029}' || c == '\U{202F}' || c == '\U{205F}'
    || c == '\U{3000}' || c == '\U{FEFF}'
  }

  predicate AllWs(s: string)
  {
    forall i | 0 <= i < |s| :: IsWs(s[i])
  }

  predicate NoWs(s: string)
  {
    forall i | 0 <= i < |s| :: !IsWs(s[i])
  }

  /** Number of whitespace characters at the start of `s`. */
  function LeadingWs(s: string): (n: nat)
    ensures n <= |s|
    ensures AllWs(s[..n])
    ensures n < |s| ==> !IsWs(s[n])
  {
    if |s| == 0 || !IsWs(s[0]) then 0 else 1 + LeadingWs(s[1..])
  }

  /** Number of whitespace characters at the end of `s`. */
  function TrailingWs(s: string): (n: nat)
    ensures n <= |s|
    ensures AllWs(s[|s| - n..])
    ensures n < |s| ==> !IsWs(s[|s| - n - 1])
  {
    if |s| == 0 || !IsWs(s[|s| - 1]) then 0
    else
      var t := s[..|s| - 1];
      var m := TrailingWs(t);
      assert s[|s| - 1 - m..] == t[|t| - m..] + [s[|s| - 1]];
      assert AllWs(t[|t| - m..]) && IsWs(s[|s| - 1]);
      1 + m
  }

  /** `s.trim()`: the slice of `s` left after removing leading and trailing
      whitespace. */
  function Trim(s: string): (r: string)
    ensures |r| <= |s|
    ensures |r| == 0 <==> AllWs(s)
    ensures |r| > 0 ==> !IsWs(r[0]) && !IsWs(r[|r| - 1])
    ensures exists i | 0 <= i <= |s| - |r| :: s[i..i + |r|] == r && AllWs(s[..i]) && AllWs(s[i + |r|..])
  {
    var a := LeadingWs(s);
    var t := s[a..];
    var r := t[..|t| - TrailingWs(t)];
    TrimIsSlice(s, a, |r|);
    r
  }

  /** Splitting `s` into a whitespace prefix of length `a`, a middle of length
      `m` and a whitespace suffix; the middle is empty only if all of `s` is
      whitespace. */
  lemma TrimIsSlice(s: string, a: nat, m: nat)
    requires a + m <= |s|
    requires AllWs(s[..a]) && AllWs(s[a + m..])
    requires a < |s| ==> !IsWs(s[a])
    ensures s[a..a + m] == s[a..][..m]
    ensures m == 0 <==> AllWs(s)
  {
    if m == 0 {
      if a < |s| {
        assert false;
      }
      assert s[..a] == s;
    }
  }

  /** `!s.trim()`: the trimmed string is empty, hence falsy. */
  predicate IsBlank(s: string)
    ensures IsBlank(s) <==> AllWs(s)
  {
    |Trim(s)| == 0
  }

  /** `s.length`: JavaScript strings are UTF-16, so a code point outside the
      Basic Multilingual Plane counts as two. */
  function Utf16Length(s: string): (n: nat)
    ensures |s| <= n <= 2 * |s|
    ensures (forall i | 0 <= i < |s| :: (s[i] as int) < 0x1_0000) ==> n == |s|
    ensures (exists i | 0 <= i < |s| :: (s[i] as int) >= 0x1_0000) ==> n > |s|
  {
    if |s| == 0 then 0
    else
      var rest := Utf16Length(s[1..]);
      assert forall i | 1 <= i < |s| :: s[i] == s[1..][i - 1];
      (if (s[0] as int) >= 0x1_0000 then 2 else 1) + rest
  }

  /** One code point is one code unit in the Basic Multilingual Plane and a
      surrogate pair, two code units, above it. */
  lemma Utf16LengthOfChar(c: char)
    ensures Utf16Length([c]) == if (c as int) >= 0x1_0000 then 2 else 1
  {
  }

  /** The length of a concatenation is the sum of the lengths: together with
      `Utf16LengthOfChar` this fixes `length` on every string. */
  lemma {:induction false} Utf16LengthAppend(a: string, b: string)
    ensures Utf16Length(a + b) == Utf16Length(a) + Utf16Length(b)
    decreases |a|
  {
    if |a| > 0 {
      assert (a + b)[1..] == a[1..] + b;
      assert (a + b)[0] == a[0];
      Utf16LengthAppend(a[1..], b);
    } else {
      assert a + b == b;
    }
  }
}
