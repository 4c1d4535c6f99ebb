/**
 * The handful of Python `str` operations the statistics explorer relies on:
 * `lower`, `title`, `strip`, `replace` of one character, `rjust`, `ljust`
 * and `str` of an integer. Letter case is modelled for ASCII letters only.
 */
module Text {

  predicate IsUpper(c: char) { 'A' <= c <= 'Z' }

  predicate IsLowerLetter(c: char) { 'a' <= c <= 'z' }

  /** A character that has case (Python's "cased" characters, restricted to ASCII). */
  predicate IsCased(c: char) { IsUpper(c) || IsLowerLetter(c) }

  /** Python's `str.isspace` for one character: every code point Python treats as whitespace. */
  predicate IsSpace(c: char) {
    || ('\t' <= c <= '\r')
    || ('\U{1C}' <= c <= ' ')
    || c == '\U{85}' || c == '\U{A0}' || c == '\U{1680}'
    || ('\U{2000}' <= c <= '\U{200A}')
    || c == '\U{2028}' || c == '\U{2029}' || c == '\U{202F}' || c == '\U{205F}' || c == '\U{3000}'
  }

  function LowerChar(c: char): char {
    if IsUpper(c) then (c as int + 32) as char else c
  }

  function UpperChar(c: char): char {
    if IsLowerLetter(c) then (c as int - 32) as char else c
  }

  /** Python's `s.lower()`. */
  function Lower(s: string): string {
    seq(|s|, i requires 0 <= i < |s| => LowerChar(s[i]))
  }

  /**
   * Python's `s.title()`, scanning from a state in which the previous character
   * was (or was not) cased: a cased character is upper-cased when it starts a
   * word and lower-cased otherwise; any other character ends the word.
   */
  function TitleFrom(s: string, prevCased: bool): string {
    if s == [] then []
    else if IsCased(s[0]) then
      [if prevCased then LowerChar(s[0]) else UpperChar(s[0])] + TitleFrom(s[1..], true)
    else
      [s[0]] + TitleFrom(s[1..], false)
  }

  function Title(s: string): string {
    TitleFrom(s, false)
  }

  /** Python's `s.lstrip()`. */
  function StripLeft(s: string): string {
    if s != [] && IsSpace(s[0]) then StripLeft(s[1..]) else s
  }

  /** Python's `s.rstrip()`. */
  function StripRight(s: string): string {
    if s != [] && IsSpace(s[|s| - 1]) then StripRight(s[..|s| - 1]) else s
  }

  /** Python's `s.strip()`: whitespace removed from both ends, nothing else touched. */
  function Strip(s: string): string {
    StripRight(StripLeft(s))
  }

  /** Python's `s.replace(from, to)` for single characters. */
  function ReplaceChar(s: string, from: char, to: char): string {
    seq(|s|, i requires 0 <= i < |s| => if s[i] == from then to else s[i])
  }

  function Repeat(c: char, n: nat): (r: string) {
    seq(n, _ => c)
  }

  /** Python's `s.rjust(width, fill)`: pad on the left up to `width`. */
  function RJust(s: string, width: nat, fill: char): string {
    if |s| >= width then s else Repeat(fill, width - |s|) + s
  }

  /** Python's `s.ljust(width, fill)`: pad on the right up to `width`. */
  function LJust(s: string, width: nat, fill: char): string {
    if |s| >= width then s else s + Repeat(fill, width - |s|)
  }

  function DigitChar(d: nat): char
    requires d < 10
  {
    ('0' as int + d) as char
  }

  /** The number a string of decimal digits spells, most significant digit first. */
  function DigitsValue(s: string): int {
    if s == [] then 0 else 10 * DigitsValue(s[..|s| - 1]) + (s[|s| - 1] as int - '0' as int)
  }

  /** The number a decimal string with an optional leading minus sign spells. */
  function IntValue(s: string): int {
    if |s| > 0 && s[0] == '-' then -DigitsValue(s[1..]) else DigitsValue(s)
  }

  /** Python's `str(n)` for a non-negative integer: decimal digits, no leading zero. */
  function NatToString(n: nat): (r: string)
    ensures |r| >= 1
    ensures n < 10 <==> |r| == 1
    ensures forall k :: 0 <= k < |r| ==> '0' <= r[k] <= '9'
    ensures |r| > 1 ==> r[0] != '0'
  {
    if n < 10 then [DigitChar(n)] else NatToString(n / 10) + [DigitChar(n % 10)]
  }

  /** `str(n)` reads back as `n`. */
  lemma {:induction false} NatToStringValue(n: nat)
    ensures DigitsValue(NatToString(n)) == n
  {
    var r := NatToString(n);
    if n < 10 {
      assert r[..0] == [];
    } else {
      NatToStringValue(n / 10);
      assert r[..|r| - 1] == NatToString(n / 10);
    }
  }

  /** Python's `str(i)` for any integer. */
  function IntToString(i: int): (r: string)
    ensures |r| >= 1
    ensures (r[0] == '-') <==> i < 0
    ensures |r| > (if i < 0 then 1 else 0)
    ensures forall k :: (if i < 0 then 1 else 0) <= k < |r| ==> '0' <= r[k] <= '9'
    ensures |r| > (if i < 0 then 1 else 0) + 1 ==> r[if i < 0 then 1 else 0] != '0'
    ensures IntValue(r) == i
  {
    NatToStringValue(if i < 0 then -i else i);
    if i < 0 then
      var digits := NatToString(-i);
      assert ("-" + digits)[1..] == digits;
      "-" + digits
    else NatToString(i)
  }

  // ---------------------------------------------------------------------------
  // Properties

  /** `rjust` pads with `fill` on the left up to the width, and never cuts `s`. */
  lemma RJustFacts(s: string, width: nat, fill: char)
    ensures var r := RJust(s, width, fill);
      && |r| == (if |s| >= width then |s| else width)
      && r[|r| - |s|..] == s
      && forall k :: 0 <= k < |r| - |s| ==> r[k] == fill
  {
    if |s| < width {
      var pad := Repeat(fill, width - |s|);
      assert (pad + s)[|pad|..] == s;
    }
  }

  /** `ljust` pads with `fill` on the right up to the width, and never cuts `s`. */
  lemma LJustFacts(s: string, width: nat, fill: char)
    ensures var r := LJust(s, width, fill);
      && |r| == (if |s| >= width then |s| else width)
      && r[..|s|] == s
      && forall k :: |s| <= k < |r| ==> r[k] == fill
  {
    if |s| < width {
      var pad := Repeat(fill, width - |s|);
      assert (s + pad)[..|s|] == s;
    }
  }

  /** A number with more digits is larger: the digit count of `str(n)` grows with `n`. */
  lemma {:induction false} DigitsMonotone(a: nat, b: nat)
    requires a <= b
    ensures |NatToString(a)| <= |NatToString(b)|
  {
    if a >= 10 {
      DigitsMonotone(a / 10, b / 10);
    }
  }

  /**
   * `title()` keeps the length and every uncased character, changes only the
   * case of letters, and upper-cases exactly the letters that start a word.
   */
  lemma {:induction false} TitleFromFacts(s: string, prevCased: bool)
    ensures |TitleFrom(s, prevCased)| == |s|
    ensures forall k :: 0 <= k < |s| ==> LowerChar(TitleFrom(s, prevCased)[k]) == LowerChar(s[k])
    ensures forall k :: 0 <= k < |s| && !IsCased(s[k]) ==> TitleFrom(s, prevCased)[k] == s[k]
    ensures forall k :: 0 <= k < |s| && IsCased(s[k]) ==>
      (IsUpper(TitleFrom(s, prevCased)[k]) <==> (if k == 0 then !prevCased else !IsCased(s[k - 1])))
  {
    if s != [] {
      TitleFromFacts(s[1..], IsCased(s[0]));
      var r := TitleFrom(s, prevCased);
      assert r[1..] == TitleFrom(s[1..], IsCased(s[0]));
      forall k | 1 <= k < |s| ensures r[k] == TitleFrom(s[1..], IsCased(s[0]))[k - 1] && s[k] == s[1..][k - 1] {
      }
    }
  }

  /** `lstrip()` removes a prefix of whitespace and leaves no leading whitespace. */
  lemma {:induction false} StripLeftFacts(s: string)
    ensures |StripLeft(s)| <= |s| && StripLeft(s) == s[|s| - |StripLeft(s)|..]
    ensures StripLeft(s) == [] || !IsSpace(StripLeft(s)[0])
    ensures forall k :: 0 <= k < |s| - |StripLeft(s)| ==> IsSpace(s[k])
  {
    if s != [] && IsSpace(s[0]) {
      var rest := s[1..];
      StripLeftFacts(rest);
      var r := StripLeft(rest);
      assert StripLeft(s) == r;
      assert rest[|rest| - |r|..] == s[|s| - |r|..];
      forall k | 0 <= k < |s| - |r| ensures IsSpace(s[k]) {
        if k > 0 {
          assert s[k] == rest[k - 1];
        }
      }
    }
  }

  /** `rstrip()` removes a suffix of whitespace and leaves no trailing whitespace. */
  lemma {:induction false} StripRightFacts(s: string)
    ensures |StripRight(s)| <= |s| && StripRight(s) == s[..|StripRight(s)|]
    ensures StripRight(s) == [] || !IsSpace(StripRight(s)[|StripRight(s)| - 1])
    ensures forall k :: |StripRight(s)| <= k < |s| ==> IsSpace(s[k])
  {
    if s != [] && IsSpace(s[|s| - 1]) {
      var init := s[..|s| - 1];
      StripRightFacts(init);
      var r := StripRight(init);
      assert StripRight(s) == r;
      assert init[..|r|] == s[..|r|];
      forall k | |r| <= k < |s| ensures IsSpace(s[k]) {
        if k < |s| - 1 {
          assert s[k] == init[k];
        }
      }
    }
  }

  lemma LowerOfLetterNotSpace(c: char)
    ensures IsSpace(LowerChar(c)) <==> IsSpace(c)
  {
  }

  /** `title()` changes letter case only, so lower-casing forgets it. */
  lemma TitleThenLower(s: string)
    ensures Lower(Title(s)) == Lower(s)
  {
    var t := Title(s);
    TitleFromFacts(s, false);
    assert |Lower(t)| == |Lower(s)|;
    forall k | 0 <= k < |s| ensures Lower(t)[k] == Lower(s)[k] {
    }
  }

  /** `lstrip` looks only at whitespace, which `lower` never changes. */
  lemma {:induction false} StripLeftLower(s: string, t: string)
    requires Lower(s) == Lower(t)
    ensures Lower(StripLeft(s)) == Lower(StripLeft(t))
  {
    assert |s| == |Lower(s)| == |t|;
    if s != [] {
      assert Lower(s)[0] == LowerChar(s[0]) && Lower(t)[0] == LowerChar(t[0]);
      LowerOfLetterNotSpace(s[0]);
      LowerOfLetterNotSpace(t[0]);
      if IsSpace(s[0]) {
        assert Lower(s[1..]) == Lower(s)[1..];
        assert Lower(t[1..]) == Lower(t)[1..];
        StripLeftLower(s[1..], t[1..]);
      }
    }
  }

  /** `rstrip` looks only at whitespace, which `lower` never changes. */
  lemma {:induction false} StripRightLower(s: string, t: string)
    requires Lower(s) == Lower(t)
    ensures Lower(StripRight(s)) == Lower(StripRight(t))
  {
    assert |s| == |Lower(s)| == |t|;
    if s != [] {
      var n := |s| - 1;
      assert Lower(s)[n] == LowerChar(s[n]) && Lower(t)[n] == LowerChar(t[n]);
      LowerOfLetterNotSpace(s[n]);
      LowerOfLetterNotSpace(t[n]);
      if IsSpace(s[n]) {
        assert Lower(s[..n]) == Lower(s)[..n];
        assert Lower(t[..n]) == Lower(t)[..n];
        StripRightLower(s[..n], t[..n]);
      }
    }
  }

  /** Two strings equal up to case stay equal up to case once stripped. */
  lemma StripLower(s: string, t: string)
    requires Lower(s) == Lower(t)
    ensures Lower(Strip(s)) == Lower(Strip(t))
  {
    StripLeftLower(s, t);
    StripRightLower(StripLeft(s), StripLeft(t));
  }
}
