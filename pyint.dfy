/**
 * Python's `int(s)` on a string, as applied to the `page` query parameter:
 * surrounding whitespace is stripped, an optional sign is accepted, and the
 * digits may be separated by single underscores; anything else is a ValueError
 * (here `None`).
 */
module PyInt {
  import opened Wrappers

  /**
   * The characters `int()` strips from both ends. Below U+007F only the C
   * locale's blanks count (tab, line feed, vertical tab, form feed, carriage
   * return and space): the separators U+001C..U+001F, which `str.isspace()`
   * accepts, are not stripped. Above it, every `str.isspace()` character is
   * first mapped to a space and so is stripped too.
   */
  predicate IsSpace(c: char) {
    ('\t' <= c <= '\r') || c == ' ' || c == '\U{85}' || c == '\U{A0}'
    || c == '\U{1680}' || ('\U{2000}' <= c <= '\U{200A}') || c == '\U{2028}' || c == '\U{2029}'
    || c == '\U{202F}' || c == '\U{205F}' || c == '\U{3000}'
  }

  predicate IsDigit(c: char) {
    '0' <= c <= '9'
  }

  function DigitValue(c: char): (d: nat)
    requires IsDigit(c)
    ensures d < 10
  {
    c as int - '0' as int
  }

  function Last(s: string): char
    requires |s| > 0
  {
    s[|s| - 1]
  }

  /** `s` without its leading whitespace: the longest suffix that does not start with whitespace. */
  function StripLeft(s: string): (r: string)
    ensures |r| <= |s| && r == s[|s| - |r|..]
    ensures forall i :: 0 <= i < |s| - |r| ==> IsSpace(s[i])
    ensures |r| > 0 ==> !IsSpace(r[0])
  {
    if |s| > 0 && IsSpace(s[0]) then StripLeft(s[1..]) else s
  }

  /** `s` without its trailing whitespace: the longest prefix that does not end with whitespace. */
  function StripRight(s: string): (r: string)
    ensures |r| <= |s| && r == s[..|r|]
    ensures forall i :: |r| <= i < |s| ==> IsSpace(s[i])
    ensures |r| > 0 ==> !IsSpace(Last(r))
  {
    if |s| > 0 && IsSpace(Last(s)) then StripRight(s[..|s| - 1]) else s
  }

  function Strip(s: string): string {
    StripRight(StripLeft(s))
  }

  /** A run of decimal digits in which single underscores may separate two digits. */
  predicate IsDigitRun(t: string) {
    && |t| > 0 && IsDigit(t[0]) && IsDigit(Last(t))
    && (forall i :: 0 <= i < |t| ==> IsDigit(t[i]) || t[i] == '_')
    && (forall i :: 0 < i < |t| && t[i] == '_' ==> t[i - 1] != '_')
  }

  /** The value of a run of digits and underscores, ignoring the underscores. */
  function RunValue(t: string): nat
    requires forall i :: 0 <= i < |t| ==> IsDigit(t[i]) || t[i] == '_'
  {
    if |t| == 0 then 0
    else if Last(t) == '_' then RunValue(t[..|t| - 1])
    else RunValue(t[..|t| - 1]) * 10 + DigitValue(Last(t))
  }

  /** `int(s)` in base 10: `Some` of the value, or `None` where Python raises ValueError. */
  function ParseInt(s: string): Option<int> {
    var t := Strip(s);
    if |t| > 0 && (t[0] == '+' || t[0] == '-') then
      if IsDigitRun(t[1..]) then
        var n: int := RunValue(t[1..]);
        Some(if t[0] == '-' then -n else n)
      else None
    else if IsDigitRun(t) then Some(RunValue(t))
    else None
  }

  /** The decimal text of a natural number, as `str(k)` writes it. */
  function NatToString(k: nat): (s: string)
    ensures |s| > 0
    ensures forall i :: 0 <= i < |s| ==> IsDigit(s[i])
  {
    var d := ['0' + (k % 10) as char];
    if k < 10 then d else NatToString(k / 10) + d
  }

  /** The decimal text of an integer, as `str(k)` writes it. */
  function IntToString(k: int): string {
    if k < 0 then "-" + NatToString(-k) else NatToString(k)
  }

  lemma {:induction false} NatToStringIsRun(k: nat)
    ensures IsDigitRun(NatToString(k)) && RunValue(NatToString(k)) == k
    decreases k
  {
    var s := NatToString(k);
    if k >= 10 {
      NatToStringIsRun(k / 10);
      assert s[..|s| - 1] == NatToString(k / 10);
    } else {
      assert s[..0] == [];
    }
  }

  /** `Strip` leaves a string alone whose two ends are not whitespace. */
  lemma StripNoSpace(s: string)
    requires |s| > 0 && !IsSpace(s[0]) && !IsSpace(Last(s))
    ensures Strip(s) == s
  {
    assert StripLeft(s) == s;
  }

  lemma ParseNatToString(n: nat)
    ensures ParseInt(NatToString(n)) == Some(n)
  {
    var digits := NatToString(n);
    NatToStringIsRun(n);
    StripNoSpace(digits);
  }

  lemma ParseNegNatToString(n: nat)
    ensures ParseInt("-" + NatToString(n)) == Some(-(n as int))
  {
    var digits := NatToString(n);
    var s := "-" + digits;
    NatToStringIsRun(n);
    assert Last(s) == Last(digits);
    StripNoSpace(s);
    assert s[1..] == digits;
  }

  /** `int(str(k)) == k` for every integer. */
  lemma ParseIntToString(k: int)
    ensures ParseInt(IntToString(k)) == Some(k)
  {
    if k < 0 {
      var n: nat := -k;
      assert IntToString(k) == "-" + NatToString(n);
      ParseNegNatToString(n);
    } else {
      assert IntToString(k) == NatToString(k);
      ParseNatToString(k);
    }
  }

  /** Every character of the stripped text comes from the input. */
  lemma StripFrom(s: string, c: char)
    requires c in Strip(s)
    ensures c in s
  {
    var l := StripLeft(s);
    var t := StripRight(l);
    var i :| 0 <= i < |t| && t[i] == c;
    assert l[i] == c;
    assert s[|s| - |l| + i] == c;
  }

  /** A string without a decimal digit is never an integer: `int()` raises on it. */
  lemma NoDigitNoInt(s: string)
    requires forall i :: 0 <= i < |s| ==> !IsDigit(s[i])
    ensures ParseInt(s) == None
  {
    var t := Strip(s);
    if |t| > 0 {
      forall i | 0 <= i < |t| ensures !IsDigit(t[i]) {
        StripFrom(s, t[i]);
      }
      assert !IsDigit(Last(t));
      assert !IsDigitRun(t);
      if t[0] == '+' || t[0] == '-' {
        assert |t[1..]| > 0 ==> Last(t[1..]) == Last(t);
      }
    }
  }
}
