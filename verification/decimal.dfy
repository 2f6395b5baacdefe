/** Decimal rendering of node indices, as Python's `f"{i}"` writes a
    non-negative int, and the parse that undoes it.  Router names (`r{i}`)
    and the string node ids of a re-read edge list are built from it. */
module Decimal {

  import opened Options

  predicate IsDigit(c: char) {
    '0' <= c <= '9'
  }

  function DigitChar(d: nat): (c: char)
    requires d < 10
    ensures IsDigit(c)
  {
    (48 + d) as char
  }

  function DigitValue(c: char): (d: nat)
    requires IsDigit(c)
    ensures d < 10
  {
    c as int - 48
  }

  /** The shortest decimal numeral of `i`: no sign, no leading zero. */
  function Format(i: nat): (s: string)
    ensures 1 <= |s|
    ensures forall k :: 0 <= k < |s| ==> IsDigit(s[k])
    ensures (|s| == 1) == (i < 10)
    ensures s[0] == '0' ==> i == 0
  {
    if i < 10 then [DigitChar(i)] else Format(i / 10) + [DigitChar(i % 10)]
  }

  /** Reads a numeral as `Format` writes it: a non-empty string of decimal
      digits with no leading zero; anything else is None. */
  function Parse(s: string): (r: Option<nat>)
    ensures r.Some? ==> |s| >= 1 && (|s| > 1 ==> s[0] != '0')
  {
    if |s| == 0 || !IsDigit(s[|s| - 1]) || (|s| > 1 && s[0] == '0') then None
    else if |s| == 1 then Some(DigitValue(s[0]))
    else
      match Parse(s[..|s| - 1])
      case None => None
      case Some(p) => Some(10 * p + DigitValue(s[|s| - 1]))
  }

  /** Parsing a rendered index gives the index back. */
  lemma {:induction false} ParseFormat(i: nat)
    ensures Parse(Format(i)) == Some(i)
  {
    if i >= 10 {
      ParseFormat(i / 10);
      var s := Format(i);
      assert s[..|s| - 1] == Format(i / 10);
    }
  }

  /** A string that parses is the numeral of its value: no other spelling
      of a number (such as a leading zero) is read. */
  lemma {:induction false} FormatParse(s: string)
    requires Parse(s).Some?
    ensures Format(Parse(s).value) == s
  {
    var i := Parse(s).value;
    if |s| == 1 {
      assert Format(i) == [DigitChar(DigitValue(s[0]))];
    } else {
      var init := s[..|s| - 1];
      var d := DigitValue(s[|s| - 1]);
      var p := Parse(init).value;
      FormatParse(init);
      assert init[0] == s[0] != '0';
      assert i == 10 * p + d && i / 10 == p && i % 10 == d;
      assert s == init + [s[|s| - 1]];
    }
  }

  /** `Parse` reads exactly the numerals `Format` writes. */
  lemma ParseIffFormat(s: string, i: nat)
    ensures Parse(s) == Some(i) <==> s == Format(i)
  {
    if Parse(s) == Some(i) {
      FormatParse(s);
    }
    if s == Format(i) {
      ParseFormat(i);
    }
  }

  /** Distinct indices render to distinct numerals. */
  lemma FormatInjective(a: nat, b: nat)
    ensures Format(a) == Format(b) <==> a == b
  {
    if Format(a) == Format(b) {
      ParseFormat(a);
      ParseFormat(b);
    }
  }

}
