/**
 * The two Python string builtins the scraper relies on: `str.strip()`, applied
 * to every cell it reads, and `int(str)`, applied to every effectiveness text
 * when ranking.  Strings are sequences of Unicode code points, as in Python 3.
 */
module Text {
  import opened Wrappers

  /** Python's `str.isspace()` for one code point: the set `str.strip()` discards. */
  predicate IsSpace(c: char) {
    var n := c as int;
    (0x09 <= n <= 0x0D) || (0x1C <= n <= 0x20) || n == 0x85 || n == 0xA0 || n == 0x1680
    || (0x2000 <= n <= 0x200A) || n == 0x2028 || n == 0x2029 || n == 0x202F
    || n == 0x205F || n == 0x3000
  }

  /**
   * The whitespace `int()` skips around a literal.  CPython first maps every
   * non-ASCII whitespace code point to a space and then skips only ASCII
   * whitespace, so the ASCII separators U+001C to U+001F, which `str.isspace()`
   * accepts, are not skipped.
   */
  predicate IsIntSpace(c: char) {
    IsSpace(c) && !(0x1C <= c as int <= 0x1F)
  }

  /** Every character of `s` is in the set `ws`. */
  predicate AllIn(s: string, ws: char -> bool) {
    forall i :: 0 <= i < |s| ==> ws(s[i])
  }

  predicate AllSpace(s: string) {
    AllIn(s, IsSpace)
  }

  /** `s.lstrip()` for the whitespace set `ws`. */
  function TrimLeft(s: string, ws: char -> bool): string {
    if |s| > 0 && ws(s[0]) then TrimLeft(s[1..], ws) else s
  }

  /** `s.rstrip()` for the whitespace set `ws`. */
  function TrimRight(s: string, ws: char -> bool): string {
    if |s| > 0 && ws(s[|s| - 1]) then TrimRight(s[..|s| - 1], ws) else s
  }

  /** Strips the whitespace set `ws` from both ends of `s`. */
  function Strip(s: string, ws: char -> bool): string {
    TrimRight(TrimLeft(s, ws), ws)
  }

  /** `s.strip()`. */
  function Trim(s: string): string {
    Strip(s, IsSpace)
  }

  /** `lstrip()` removes the longest prefix made of `ws`. */
  lemma {:induction false} TrimLeftSpec(s: string, ws: char -> bool)
    ensures var r := TrimLeft(s, ws);
      |r| <= |s| && r == s[|s| - |r|..] && AllIn(s[..|s| - |r|], ws) && (r == [] || !ws(r[0]))
  {
    if |s| > 0 && ws(s[0]) {
      TrimLeftSpec(s[1..], ws);
      var r := TrimLeft(s[1..], ws);
      assert s[..|s| - |r|] == [s[0]] + s[1..][..|s| - 1 - |r|];
    }
  }

  /** `rstrip()` removes the longest suffix made of `ws`. */
  lemma {:induction false} TrimRightSpec(s: string, ws: char -> bool)
    ensures var r := TrimRight(s, ws);
      |r| <= |s| && r == s[..|r|] && AllIn(s[|r|..], ws) && (r == [] || !ws(r[|r| - 1]))
  {
    if |s| > 0 && ws(s[|s| - 1]) {
      TrimRightSpec(s[..|s| - 1], ws);
      var r := TrimRight(s[..|s| - 1], ws);
      assert s[|r|..] == s[..|s| - 1][|r|..] + [s[|s| - 1]];
    }
  }

  /**
   * `strip()` removes whitespace, and only whitespace, from both ends: `s` is
   * the result surrounded by whitespace, and the result neither starts nor
   * ends with whitespace.
   */
  lemma TrimSpec(s: string)
    ensures Trim(s) == [] || (!IsSpace(Trim(s)[0]) && !IsSpace(Trim(s)[|Trim(s)| - 1]))
    ensures exists lead, trail :: s == lead + Trim(s) + trail && AllSpace(lead) && AllSpace(trail)
  {
    var left := TrimLeft(s, IsSpace);
    TrimLeftSpec(s, IsSpace);
    TrimRightSpec(left, IsSpace);
    var r := TrimRight(left, IsSpace);
    var lead, trail := s[..|s| - |left|], left[|r|..];
    assert r == Trim(s);
    assert AllSpace(lead) && AllSpace(trail);
    assert s == lead + r + trail;
  }

  lemma {:induction false} TrimLeftSkips(lead: string, t: string, ws: char -> bool)
    requires AllIn(lead, ws)
    requires t == [] || !ws(t[0])
    ensures TrimLeft(lead + t, ws) == t
    decreases |lead|
  {
    if lead != [] {
      assert (lead + t)[1..] == lead[1..] + t;
      TrimLeftSkips(lead[1..], t, ws);
    }
  }

  lemma {:induction false} TrimRightSkips(t: string, trail: string, ws: char -> bool)
    requires AllIn(trail, ws)
    requires t == [] || !ws(t[|t| - 1])
    ensures TrimRight(t + trail, ws) == t
    decreases |trail|
  {
    if trail != [] {
      var n := |trail| - 1;
      assert (t + trail)[..|t + trail| - 1] == t + trail[..n];
      TrimRightSkips(t, trail[..n], ws);
    }
  }

  /**
   * Stripping the set `ws` is determined by its contract: whatever is left
   * once all surrounding characters of `ws` are removed, and nothing else.
   */
  lemma TrimUnique(s: string, lead: string, r: string, trail: string, ws: char -> bool)
    requires s == lead + r + trail && AllIn(lead, ws) && AllIn(trail, ws)
    requires r == [] || (!ws(r[0]) && !ws(r[|r| - 1]))
    ensures Strip(s, ws) == r
  {
    if r == [] {
      assert s == lead + trail;
      assert AllIn(lead + trail, ws) by {
        forall i | 0 <= i < |lead + trail| ensures ws((lead + trail)[i]) {
          if i >= |lead| { assert (lead + trail)[i] == trail[i - |lead|]; }
        }
      }
      TrimLeftSkips(lead + trail, [], ws);
      assert lead + trail + [] == lead + trail;
    } else {
      assert s == lead + (r + trail);
      TrimLeftSkips(lead, r + trail, ws);
      TrimRightSkips(r, trail, ws);
    }
  }

  lemma AllSpaceConcat(a: string, b: string)
    requires AllSpace(a) && AllSpace(b)
    ensures AllSpace(a + b)
  {
    forall i | 0 <= i < |a + b| ensures IsSpace((a + b)[i]) {
      if i >= |a| { assert (a + b)[i] == b[i - |a|]; }
    }
  }

  lemma TrimPadded(lead: string, l: string, r: string, t: string, trail: string)
    requires AllSpace(lead) && AllSpace(l) && AllSpace(t) && AllSpace(trail)
    requires r == [] || (!IsSpace(r[0]) && !IsSpace(r[|r| - 1]))
    ensures Trim(lead + (l + r + t) + trail) == r
  {
    AllSpaceConcat(lead, l);
    AllSpaceConcat(t, trail);
    assert lead + (l + r + t) + trail == (lead + l) + r + (t + trail);
    TrimUnique(lead + (l + r + t) + trail, lead + l, r, t + trail, IsSpace);
  }

  /** Surrounding whitespace never changes what `strip()` returns. */
  lemma TrimIgnoresPadding(s: string, lead: string, trail: string)
    requires AllSpace(lead) && AllSpace(trail)
    ensures Trim(lead + s + trail) == Trim(s)
  {
    var r := Trim(s);
    TrimSpec(s);
    var l, t :| s == l + r + t && AllSpace(l) && AllSpace(t);
    TrimPadded(lead, l, r, t, trail);
  }

  predicate IsDigit(c: char) {
    '0' <= c <= '9'
  }

  function DigitValue(c: char): (d: nat)
    requires IsDigit(c)
    ensures d < 10
  {
    (c as int) - ('0' as int)
  }

  function DigitChar(d: nat): (c: char)
    requires d < 10
    ensures IsDigit(c) && DigitValue(c) == d
  {
    ('0' as int + d) as char
  }

  /**
   * The body of a base-10 literal that `int()` accepts: ASCII digits, with
   * single underscores allowed between two digits.
   */
  predicate IsDigitString(s: string) {
    && |s| > 0 && IsDigit(s[0]) && IsDigit(s[|s| - 1])
    && (forall i :: 0 <= i < |s| ==> IsDigit(s[i]) || s[i] == '_')
    && (forall i :: 0 < i < |s| ==> s[i] == '_' ==> s[i - 1] != '_')
  }

  /** The number written by digits and underscores, underscores ignored. */
  function DigitsValue(s: string): nat
    requires forall i :: 0 <= i < |s| ==> IsDigit(s[i]) || s[i] == '_'
  {
    if |s| == 0 then 0
    else
      var last := s[|s| - 1];
      if last == '_' then DigitsValue(s[..|s| - 1])
      else 10 * DigitsValue(s[..|s| - 1]) + DigitValue(last)
  }

  /**
   * CPython's default limit on the number of digits of a base-10 literal
   * that `int()` converts (`sys.get_int_max_str_digits()`).
   */
  const MaxStrDigits := 4300

  /** The number of digits in `s`, underscores not counted. */
  function DigitCount(s: string): nat {
    if |s| == 0 then 0
    else DigitCount(s[..|s| - 1]) + (if s[|s| - 1] == '_' then 0 else 1)
  }

  /**
   * Python's `int(s)` in base 10: surrounding `IsIntSpace` whitespace stripped, an optional
   * sign, then a digit string of at most `MaxStrDigits` digits; anything else
   * raises ValueError (None here).
   */
  function ParseInt(s: string): Option<int> {
    var t := Strip(s, IsIntSpace);
    var signed := |t| > 0 && (t[0] == '-' || t[0] == '+');
    var body := if signed then t[1..] else t;
    if IsDigitString(body) && DigitCount(body) <= MaxStrDigits then
      var n: int := DigitsValue(body);
      Some(if signed && t[0] == '-' then -n else n)
    else None
  }

  /** Python's `str(n)` for a natural number: decimal digits, no leading zero. */
  function ShowNat(n: nat): (r: string)
    ensures |r| > 0 && forall i :: 0 <= i < |r| ==> IsDigit(r[i])
  {
    if n < 10 then [DigitChar(n)] else ShowNat(n / 10) + [DigitChar(n % 10)]
  }

  /** Python's `str(n)` for an integer. */
  function Show(n: int): string {
    if n < 0 then "-" + ShowNat(-n) else ShowNat(n)
  }

  lemma {:induction false} ShowNatValue(n: nat)
    ensures IsDigitString(ShowNat(n))
    ensures DigitsValue(ShowNat(n)) == n
  {
    var s := ShowNat(n);
    if n >= 10 {
      ShowNatValue(n / 10);
      assert s[..|s| - 1] == ShowNat(n / 10);
    }
  }

  lemma ShowHasNoPadding(n: int)
    ensures !IsIntSpace(Show(n)[0]) && !IsIntSpace(Show(n)[|Show(n)| - 1])
  {
    var digits := ShowNat(if n < 0 then -n else n);
    assert IsDigit(digits[0]) && IsDigit(digits[|digits| - 1]);
  }

  /** A string of digits only counts one digit per character. */
  lemma {:induction false} DigitCountAllDigits(s: string)
    requires forall i :: 0 <= i < |s| ==> IsDigit(s[i])
    ensures DigitCount(s) == |s|
  {
    if |s| > 0 {
      DigitCountAllDigits(s[..|s| - 1]);
    }
  }

  /**
   * `int(str(n)) == n`, even with whitespace `int()` skips around the text,
   * as long as the number has at most `MaxStrDigits` digits.
   */
  lemma ParseShowRoundTrip(n: int, lead: string, trail: string)
    requires AllIn(lead, IsIntSpace) && AllIn(trail, IsIntSpace)
    requires |ShowNat(if n < 0 then -n else n)| <= MaxStrDigits
    ensures ParseInt(lead + Show(n) + trail) == Some(n)
  {
    var s := Show(n);
    ShowHasNoPadding(n);
    TrimUnique(lead + s + trail, lead, s, trail, IsIntSpace);
    var digits := ShowNat(if n < 0 then -n else n);
    ShowNatValue(if n < 0 then -n else n);
    DigitCountAllDigits(digits);
    if n < 0 {
      assert s[0] == '-' && s[1..] == digits;
    } else {
      assert s == digits && IsDigit(s[0]);
    }
  }

  /**
   * `int()` rejects the decimal text of a number with more than
   * `MaxStrDigits` digits, whatever its sign and padding.
   */
  lemma ParseRejectsTooManyDigits(n: int, lead: string, trail: string)
    requires AllIn(lead, IsIntSpace) && AllIn(trail, IsIntSpace)
    requires |ShowNat(if n < 0 then -n else n)| > MaxStrDigits
    ensures ParseInt(lead + Show(n) + trail) == None
  {
    var s := Show(n);
    ShowHasNoPadding(n);
    TrimUnique(lead + s + trail, lead, s, trail, IsIntSpace);
    var digits := ShowNat(if n < 0 then -n else n);
    DigitCountAllDigits(digits);
    if n < 0 {
      assert s[0] == '-' && s[1..] == digits;
    } else {
      assert s == digits && IsDigit(s[0]);
    }
  }

  /**
   * `strip()` removes a leading U+001C, but `int()` does not skip it: the
   * text "\x1c5" is a cell that strips to "5" and an `int()` argument that
   * raises ValueError.
   */
  lemma SeparatorNotSkippedByInt()
    ensures Trim("\U{1C}5") == "5"
    ensures ParseInt("\U{1C}5") == None
  {
    var s := "\U{1C}5";
    assert TrimLeft(s, IsSpace) == "5" by {
      assert IsSpace(s[0]) && s[1..] == "5";
      assert TrimLeft("5", IsSpace) == "5";
    }
    assert TrimRight("5", IsSpace) == "5";
    assert TrimLeft(s, IsIntSpace) == s;
    assert TrimRight(s, IsIntSpace) == s;
    assert !IsDigit(s[0]);
  }
}
