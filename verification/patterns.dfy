/**
 * The two fixed regular expressions of the contact form.
 *
 * Each is given twice: once as the language the regular expression denotes,
 * read piece by piece as a concatenation (`EmailPattern`, `PhonePattern`), and
 * once as the deterministic test the validator runs (`TestEmail`,
 * `TestPhone`). The lemmas `TestEmailIsPattern` and `TestPhoneIsPattern`
 * connect the two for every input.
 *
 * Both expressions are anchored (`^…$`) and carry no flags, so a match is a
 * match of the whole string.
 */
module Patterns {
  import opened Text
  import opened Options

  // ---------------------------------------------------------------------------
  // Email: ^[^\s@]+@[^\s@]+\.[^\s@]+$
  // ---------------------------------------------------------------------------

  /** `[^\s@]` */
  predicate IsAtomChar(c: char)
  {
    !IsWs(c) && c != '@'
  }

  /** `[^\s@]+` */
  predicate IsAtomRun(s: string)
  {
    |s| > 0 && forall i | 0 <= i < |s| :: IsAtomChar(s[i])
  }

  /** `s` is `[^\s@]+` `@` `[^\s@]+` `\.` `[^\s@]+`, with the '@' at index
      `at` and the literal dot at index `dot`. */
  predicate EmailSplitsAt(s: string, at: int, dot: int)
  {
    && 0 <= at < dot < |s|
    && s[at] == '@' && s[dot] == '.'
    && IsAtomRun(s[..at]) && IsAtomRun(s[at + 1..dot]) && IsAtomRun(s[dot + 1..])
  }

  /** The language of the email expression. */
  ghost predicate EmailPattern(s: string)
  {
    exists at, dot :: EmailSplitsAt(s, at, dot)
  }

  /** Index of the first occurrence of `c` in `s`. */
  function IndexOf(s: string, c: char): (r: Option<nat>)
    ensures r.None? <==> c !in s
    ensures r.Some? ==> r.value < |s| && s[r.value] == c && c !in s[..r.value]
  {
    if |s| == 0 then None
    else if s[0] == c then Some(0)
    else
      match IndexOf(s[1..], c)
      case None => None
      case Some(k) =>
        assert s[..k + 1] == [s[0]] + s[1..][..k];
        Some(k + 1)
  }

  /** A '.' strictly inside `d`: neither its first nor its last character. */
  predicate HasInnerDot(d: string)
  {
    exists k | 0 < k < |d| - 1 :: d[k] == '.'
  }

  /** The email test as the validator runs it: no whitespace anywhere, a
      non-empty part before the first '@', and after it a part with no
      further '@' and a dot that is neither its first nor its last
      character. */
  predicate TestEmail(s: string)
  {
    && NoWs(s)
    && match IndexOf(s, '@')
       case None => false
       case Some(at) => at > 0 && '@' !in s[at + 1..] && HasInnerDot(s[at + 1..])
  }

  /** The validator's email test accepts exactly the language of the email
      expression. */
  lemma TestEmailIsPattern(s: string)
    ensures TestEmail(s) <==> EmailPattern(s)
  {
    if TestEmail(s) {
      var at := IndexOf(s, '@').value;
      var d := s[at + 1..];
      var k :| 0 < k < |d| - 1 && d[k] == '.';
      var dot := at + 1 + k;
      assert s[at + 1..dot] == d[..k];
      assert s[dot + 1..] == d[k + 1..];
      assert forall i | 0 <= i < at :: s[..at][i] == s[i] && s[i] != '@';
      assert EmailSplitsAt(s, at, dot);
    }
    if EmailPattern(s) {
      var at, dot :| EmailSplitsAt(s, at, dot);
      EmailSplitIsTest(s, at, dot);
    }
  }

  lemma EmailSplitIsTest(s: string, at: int, dot: int)
    requires EmailSplitsAt(s, at, dot)
    ensures TestEmail(s)
  {
    assert s == s[..at] + [s[at]] + s[at + 1..dot] + [s[dot]] + s[dot + 1..];
    forall i | 0 <= i < |s|
      ensures !IsWs(s[i])
      ensures i != at ==> s[i] != '@'
    {
      if i < at {
        assert s[i] == s[..at][i];
      } else if at < i < dot {
        assert s[i] == s[at + 1..dot][i - at - 1];
      } else if dot < i {
        assert s[i] == s[dot + 1..][i - dot - 1];
      }
    }
    assert '@' !in s[..at];
    assert IndexOf(s, '@') == Some(at);
    var d := s[at + 1..];
    assert '@' !in d by {
      forall j | 0 <= j < |d| ensures d[j] != '@' {
        assert d[j] == s[at + 1 + j];
      }
    }
    assert d[dot - at - 1] == '.';
    assert HasInnerDot(d);
  }

  /** The email language is a concatenation: any three atom runs joined by
      '@' and '.' form an address the test accepts. */
  lemma EmailOfParts(local: string, domain: string, tld: string)
    requires IsAtomRun(local) && IsAtomRun(domain) && IsAtomRun(tld)
    ensures TestEmail(local + "@" + domain + "." + tld)
  {
    var s := local + "@" + domain + "." + tld;
    var at := |local|;
    var dot := at + 1 + |domain|;
    assert s[..at] == local;
    assert s[at + 1..dot] == domain;
    assert s[dot + 1..] == tld;
    EmailSplitIsTest(s, at, dot);
  }

  /** A string in the email language holds exactly one '@', and no
      whitespace at all. */
  lemma EmailHasOneAt(s: string)
    requires EmailPattern(s)
    ensures NoWs(s)
    ensures exists at | 0 < at && at + 3 < |s| :: s[at] == '@' && forall j | 0 <= j < |s| && j != at :: s[j] != '@'
  {
    TestEmailIsPattern(s);
    var at := IndexOf(s, '@').value;
    var d := s[at + 1..];
    forall j | 0 <= j < |s| && j != at
      ensures s[j] != '@'
    {
      if j < at {
        assert s[j] == s[..at][j];
      } else {
        assert s[j] == d[j - at - 1];
      }
    }
  }

  // ---------------------------------------------------------------------------
  // Phone: ^\(?([0-9]{3})\)?[-. ]?([0-9]{3})[-. ]?([0-9]{4})$
  // ---------------------------------------------------------------------------

  /** `[0-9]` */
  predicate IsDigit(c: char)
  {
    '0' <= c <= '9'
  }

  /** `[-. ]` */
  predicate IsSep(c: char)
  {
    c == '-' || c == '.' || c == ' '
  }

  predicate AllDigits(s: string)
  {
    forall i | 0 <= i < |s| :: IsDigit(s[i])
  }

  /** No digit among `s[i..j]`. */
  predicate NoDigitIn(s: string, i: int, j: int)
    requires 0 <= i <= j <= |s|
  {
    forall k | i <= k < j :: !IsDigit(s[k])
  }

  /** Which of the four optional pieces `\(?`, `\)?`, `[-. ]?`, `[-. ]?` a
      match uses. */
  datatype PhoneLayout = PhoneLayout(open: bool, close: bool, sep1: bool, sep2: bool)
  {
    function Open(): nat { if open then 1 else 0 }
    function Close(): nat { if close then 1 else 0 }
    function Sep1(): nat { if sep1 then 1 else 0 }
    function Sep2(): nat { if sep2 then 1 else 0 }

    /** Start of the first, second and third digit group. */
    function Group1(): nat { Open() }
    function Group2(): nat { Open() + 3 + Close() + Sep1() }
    function Group3(): nat { Group2() + 3 + Sep2() }
  }

  /** `s` matches the phone expression using the optional pieces `l`. */
  predicate PhoneFits(s: string, l: PhoneLayout)
  {
    && |s| == l.Group3() + 4
    && (l.open ==> s[0] == '(')
    && AllDigits(s[l.Group1()..l.Group1() + 3])
    && (l.close ==> s[l.Group1() + 3] == ')')
    && (l.sep1 ==> IsSep(s[l.Group1() + 3 + l.Close()]))
    && AllDigits(s[l.Group2()..l.Group2() + 3])
    && (l.sep2 ==> IsSep(s[l.Group2() + 3]))
    && AllDigits(s[l.Group3()..])
  }

  /** The language of the phone expression. */
  ghost predicate PhonePattern(s: string)
  {
    exists l: PhoneLayout :: PhoneFits(s, l)
  }

  /** Reads the optional pieces left to right, taking each one exactly when
      the next character is that piece. */
  function ScanPhoneLayout(s: string): PhoneLayout
  {
    var open := |s| > 0 && s[0] == '(';
    var o := if open then 1 else 0;
    var close := o + 3 < |s| && s[o + 3] == ')';
    var c := if close then 1 else 0;
    var sep1 := o + 3 + c < |s| && IsSep(s[o + 3 + c]);
    var p := if sep1 then 1 else 0;
    var sep2 := o + 6 + c + p < |s| && IsSep(s[o + 6 + c + p]);
    PhoneLayout(open, close, sep1, sep2)
  }

  /** The phone test as the validator runs it. */
  predicate TestPhone(s: string)
  {
    PhoneFits(s, ScanPhoneLayout(s))
  }

  /** The expression is unambiguous: a string matches with at most one
      choice of the optional pieces, and the left-to-right scan finds it. */
  lemma PhoneLayoutIsScanned(s: string, l: PhoneLayout)
    requires PhoneFits(s, l)
    ensures ScanPhoneLayout(s) == l
  {
    var g1, g2, g3 := l.Group1(), l.Group2(), l.Group3();
    assert g1 + 3 <= g2 && g2 + 3 <= g3 && g3 + 4 == |s|;
    assert IsDigit(s[g1]) by { assert s[g1] == s[g1..g1 + 3][0]; }
    assert IsDigit(s[g2]) by { assert s[g2] == s[g2..g2 + 3][0]; }
    assert IsDigit(s[g3]) by { assert s[g3] == s[g3..][0]; }
    assert IsDigit(s[g2 + 2]) by { assert s[g2 + 2] == s[g2..g2 + 3][2]; }
  }

  /** The validator's phone test accepts exactly the language of the phone
      expression. */
  lemma TestPhoneIsPattern(s: string)
    ensures TestPhone(s) <==> PhonePattern(s)
  {
    if PhonePattern(s) {
      var l :| PhoneFits(s, l);
      PhoneLayoutIsScanned(s, l);
    }
  }

  /** How many characters of `s` are `[0-9]`. */
  function DigitCount(s: string): (n: nat)
    ensures n <= |s|
  {
    if |s| == 0 then 0
    else (if IsDigit(s[0]) then 1 else 0) + DigitCount(s[1..])
  }

  /** Skipping a stretch `s[i..j]` without digits does not change the count. */
  lemma {:induction false} DigitCountSkip(s: string, i: nat, j: nat)
    requires i <= j <= |s|
    requires NoDigitIn(s, i, j)
    ensures DigitCount(s[i..]) == DigitCount(s[j..])
    decreases j - i
  {
    if i < j {
      assert s[i..][1..] == s[i + 1..];
      DigitCountSkip(s, i + 1, j);
    }
  }

  /** A stretch `s[i..j]` of digits adds its length to the count. */
  lemma {:induction false} DigitCountTake(s: string, i: nat, j: nat)
    requires i <= j <= |s|
    requires forall k | i <= k < j :: IsDigit(s[k])
    ensures DigitCount(s[i..]) == (j - i) + DigitCount(s[j..])
    decreases j - i
  {
    if i < j {
      assert s[i..][1..] == s[i + 1..];
      DigitCountTake(s, i + 1, j);
    }
  }

  lemma PhoneGroupsAreDigits(s: string, l: PhoneLayout)
    requires PhoneFits(s, l)
    ensures forall k | l.Group1() <= k < l.Group1() + 3 :: IsDigit(s[k])
    ensures forall k | l.Group2() <= k < l.Group2() + 3 :: IsDigit(s[k])
    ensures forall k | l.Group3() <= k < l.Group3() + 4 :: IsDigit(s[k])
  {
    var g1, g2, g3 := l.Group1(), l.Group2(), l.Group3();
    assert forall k | g1 <= k < g1 + 3 :: s[k] == s[g1..g1 + 3][k - g1];
    assert forall k | g2 <= k < g2 + 3 :: s[k] == s[g2..g2 + 3][k - g2];
    assert forall k | g3 <= k < g3 + 4 :: s[k] == s[g3..][k - g3];
  }

  /** Outside its three digit groups, a phone match holds no digit. */
  lemma PhoneSeparatorsAreNotDigits(s: string, l: PhoneLayout)
    requires PhoneFits(s, l)
    ensures NoDigitIn(s, 0, l.Group1())
    ensures NoDigitIn(s, l.Group1() + 3, l.Group2())
    ensures NoDigitIn(s, l.Group2() + 3, l.Group3())
  {
  }

  /** A string made of digit groups of three, three and four characters,
      with no digit anywhere else, holds ten digits. */
  lemma DigitCountOfGroups(s: string, g1: nat, g2: nat, g3: nat)
    requires g1 + 3 <= g2 && g2 + 3 <= g3 && g3 + 4 == |s|
    requires forall k | g1 <= k < g1 + 3 :: IsDigit(s[k])
    requires forall k | g2 <= k < g2 + 3 :: IsDigit(s[k])
    requires forall k | g3 <= k < g3 + 4 :: IsDigit(s[k])
    requires NoDigitIn(s, 0, g1) && NoDigitIn(s, g1 + 3, g2) && NoDigitIn(s, g2 + 3, g3)
    ensures DigitCount(s) == 10
  {
    assert s[0..] == s;
    assert s[|s|..] == [];
    DigitCountSkip(s, 0, g1);
    DigitCountTake(s, g1, g1 + 3);
    DigitCountSkip(s, g1 + 3, g2);
    DigitCountTake(s, g2, g2 + 3);
    DigitCountSkip(s, g2 + 3, g3);
    DigitCountTake(s, g3, |s|);
  }

  /** A string in the phone language holds exactly ten digits (three, three
      and four in its three groups) and besides them at most four other
      characters: an optional '(' before the first group, an optional ')'
      after it, and at most one separator from "-. " after each of the first
      two groups. */
  lemma PhoneHasTenDigits(s: string)
    requires PhonePattern(s)
    ensures 10 <= |s| <= 14
    ensures DigitCount(s) == 10
  {
    var l :| PhoneFits(s, l);
    PhoneSeparatorsAreNotDigits(s, l);
    PhoneGroupsAreDigits(s, l);
    DigitCountOfGroups(s, l.Group1(), l.Group2(), l.Group3());
  }
}
