/**
 * Python's `int(s)` for a decimal string and `str(n)` for an integer, as the
 * scraper's `page` increment uses them.
 */
module Numbers {
  import opened Wrappers
  import opened Text

  predicate IsDigit(c: char) {
    '0' <= c <= '9'
  }

  predicate AllDigits(s: string) {
    forall i :: 0 <= i < |s| ==> IsDigit(s[i])
  }

  function DigitChar(d: nat): (c: char)
    requires d < 10
    ensures IsDigit(c) && c as int - '0' as int == d
  {
    ('0' as int + d) as char
  }

  /** The value of a string of decimal digits, most significant first. */
  function DigitsValue(s: string): nat
    requires AllDigits(s)
  {
    if |s| == 0 then 0 else DigitsValue(s[..|s| - 1]) * 10 + (s[|s| - 1] as int - '0' as int)
  }

  /** The shortest decimal spelling of `n`, as `str(n)` writes it for `n >= 0`. */
  function NatToDigits(n: nat): (s: string)
    ensures |s| > 0 && AllDigits(s)
    ensures DigitsValue(s) == n
    ensures |s| > 1 ==> s[0] != '0'
  {
    if n < 10 then [DigitChar(n)]
    else
      var init := NatToDigits(n / 10);
      var s := init + [DigitChar(n % 10)];
      assert s[..|s| - 1] == init;
      s
  }

  /** `str(n)`: a `-` exactly for a negative `n`, then the decimal digits of its absolute value. */
  function IntToString(n: int): (s: string)
    ensures |s| > 0 && (s[0] == '-' <==> n < 0)
    ensures AllDigits(if n < 0 then s[1..] else s)
  {
    if n < 0 then "-" + NatToDigits(-n) else NatToDigits(n)
  }

  /**
   * The digit part `int()` accepts: digits, with single underscores allowed
   * between two digits (`"1_000"`), none at either end.
   */
  predicate IsDigitGroup(s: string) {
    && |s| > 0 && IsDigit(s[0]) && IsDigit(s[|s| - 1])
    && (forall i :: 0 <= i < |s| ==> IsDigit(s[i]) || s[i] == '_')
    && (forall i :: 0 <= i < |s| - 1 ==> !(s[i] == '_' && s[i + 1] == '_'))
  }

  /** `s` without its underscores, the other characters kept in order. */
  function DropUnderscores(s: string): (r: string)
    ensures |r| <= |s| && '_' !in r
    ensures '_' !in s ==> r == s
  {
    if |s| == 0 then ""
    else (if s[0] == '_' then "" else [s[0]]) + DropUnderscores(s[1..])
  }

  /** Dropping underscores works piece by piece: with the clauses above, this determines `DropUnderscores`. */
  lemma {:induction false} DropUnderscoresConcat(a: string, b: string)
    ensures DropUnderscores(a + b) == DropUnderscores(a) + DropUnderscores(b)
  {
    if |a| > 0 {
      assert (a + b)[0] == a[0] && (a + b)[1..] == a[1..] + b;
      DropUnderscoresConcat(a[1..], b);
    } else {
      assert a + b == b;
    }
  }

  /** An underscore between two parts of a number is simply removed. */
  lemma DropUnderscoresAt(a: string, b: string)
    ensures DropUnderscores(a + "_" + b) == DropUnderscores(a) + DropUnderscores(b)
  {
    DropUnderscoresConcat(a + "_", b);
    DropUnderscoresConcat(a, "_");
    assert DropUnderscores("_") == "";
    assert DropUnderscores(a) + "" == DropUnderscores(a);
  }

  /** Digits and underscores lose the underscores and leave digits only. */
  lemma {:induction false} DropUnderscoresDigits(s: string)
    requires forall i :: 0 <= i < |s| ==> IsDigit(s[i]) || s[i] == '_'
    ensures AllDigits(DropUnderscores(s))
  {
    if |s| > 0 {
      DropUnderscoresDigits(s[1..]);
    }
  }

  /** The value of a digit group: its digits read without the underscores. */
  function GroupValue(s: string): nat
    requires IsDigitGroup(s)
  {
    DropUnderscoresDigits(s);
    DigitsValue(DropUnderscores(s))
  }

  /**
   * The characters `int()` skips around a number. CPython turns every
   * non-ASCII whitespace character into a space, keeps ASCII characters as
   * they are, and then skips only the space and `\t\n\v\f\r`; the ASCII
   * separators U+001C..U+001F, whitespace to `str.isspace()`, are not skipped.
   */
  predicate IsIntSpace(c: char) {
    IsSpace(c) && !('\U{1c}' <= c <= '\U{1f}')
  }

  /**
   * `int(s)`: the surrounding `IsIntSpace` characters are ignored and an
   * optional `+` or `-` sign precedes a digit group; anything else raises
   * `ValueError`, modelled as `None`.
   */
  function ParseInt(s: string): Option<int> {
    ParseSignedGroup(Strip(s, IsIntSpace))
  }

  /** The stripped text `int()` accepts: an optional sign and a digit group. */
  function ParseSignedGroup(t: string): Option<int> {
    if |t| > 0 && (t[0] == '-' || t[0] == '+') then
      var body := t[1..];
      if IsDigitGroup(body) then Some(if t[0] == '-' then 0 - GroupValue(body) else GroupValue(body))
      else None
    else if IsDigitGroup(t) then Some(GroupValue(t))
    else None
  }

  /**
   * The converse of the two lemmas above: `int()` succeeds exactly when the
   * text left after skipping the surrounding whitespace is a digit group,
   * optionally preceded by one sign, so `"1__0"`, `"_1"`, `"+"`, `"--1"` or
   * a blank string raise.
   */
  lemma ParseIntShape(s: string)
    ensures var t := Strip(s, IsIntSpace);
      && (ParseInt(s).Some? <==>
            IsDigitGroup(t) || (|t| > 0 && (t[0] == '+' || t[0] == '-') && IsDigitGroup(t[1..])))
      && exists i, j :: 0 <= i <= j <= |s| && t == s[i..j]
           && (forall k :: 0 <= k < i ==> IsIntSpace(s[k]))
           && (forall k :: j <= k < |s| ==> IsIntSpace(s[k]))
  {
    var l := TrimLeft(s, IsIntSpace);
    var t := Strip(s, IsIntSpace);
    var i := |s| - |l|;
    var j := i + |t|;
    assert l == s[i..];
    assert t == l[..|t|];
    assert t == s[i..j];
    forall k | j <= k < |s| ensures IsIntSpace(s[k]) {
      assert s[k] == l[k - i];
    }
    if |t| > 0 && (t[0] == '+' || t[0] == '-') {
      assert !IsDigitGroup(t);
    }
  }

  /** A string holding any character other than `int()` whitespace, digits, `_`, `+` and `-` never parses. */
  lemma ParseIntAlphabet(s: string, i: nat)
    requires i < |s| && !IsIntSpace(s[i]) && !IsDigit(s[i]) && s[i] !in "_+-"
    ensures ParseInt(s) == None
  {
    StripKeepsText(s, IsIntSpace, i);
    var t := Strip(s, IsIntSpace);
    var j :| 0 <= j < |t| && t[j] == s[i];
    if j > 0 {
      assert t[1..][j - 1] == t[j];
    }
  }

  /** An unsigned number `int()` accepts: a digit group between whitespace. */
  lemma ParseIntUnsigned(lead: string, g: string, trail: string)
    requires forall i :: 0 <= i < |lead| ==> IsIntSpace(lead[i])
    requires forall i :: 0 <= i < |trail| ==> IsIntSpace(trail[i])
    requires IsDigitGroup(g)
    ensures ParseInt(lead + g + trail) == Some(GroupValue(g))
  {
    StripPadded(lead, g, trail, IsIntSpace);
    assert g[0] != '-' && g[0] != '+';
  }

  /** A signed number `int()` accepts: `+` or `-` and a digit group between whitespace, the value negated for `-`. */
  lemma ParseIntSigned(lead: string, sign: char, g: string, trail: string)
    requires forall i :: 0 <= i < |lead| ==> IsIntSpace(lead[i])
    requires forall i :: 0 <= i < |trail| ==> IsIntSpace(trail[i])
    requires sign == '+' || sign == '-'
    requires IsDigitGroup(g)
    ensures ParseInt(lead + [sign] + g + trail) == Some(if sign == '-' then 0 - GroupValue(g) else GroupValue(g))
  {
    var w := [sign] + g;
    assert w[0] == sign && w[|w| - 1] == g[|g| - 1];
    assert lead + [sign] + g + trail == lead + w + trail;
    StripPadded(lead, w, trail, IsIntSpace);
    SignedGroup(sign, g);
  }

  lemma SignedGroup(sign: char, g: string)
    requires sign == '+' || sign == '-'
    requires IsDigitGroup(g)
    ensures ParseSignedGroup([sign] + g) == Some(if sign == '-' then 0 - GroupValue(g) else GroupValue(g))
  {
    var w := [sign] + g;
    assert w[0] == sign && w[1..] == g;
  }

  /** `int(str(n)) == n` for every integer. */
  lemma IntToStringRoundTrip(n: int)
    ensures ParseInt(IntToString(n)) == Some(n)
  {
    if n < 0 {
      NegativeRoundTrip(n);
    } else {
      NaturalRoundTrip(n);
    }
  }

  lemma NaturalRoundTrip(n: int)
    requires n >= 0
    ensures ParseInt(IntToString(n)) == Some(n)
  {
    var digits := NatToDigits(n);
    assert IntToString(n) == digits;
    GroupOfDigits(digits);
    UnsignedGroup(digits);
  }

  lemma NegativeRoundTrip(n: int)
    requires n < 0
    ensures ParseInt(IntToString(n)) == Some(n)
  {
    var digits := NatToDigits(-n);
    assert IntToString(n) == "-" + digits;
    GroupOfDigits(digits);
    NegativeGroup(digits);
  }

  lemma UnsignedGroup(g: string)
    requires IsDigitGroup(g)
    ensures ParseInt(g) == Some(GroupValue(g))
  {
    StripClean(g, IsIntSpace);
    assert g[0] != '-' && g[0] != '+';
  }

  lemma NegativeGroup(g: string)
    requires IsDigitGroup(g)
    ensures ParseInt("-" + g) == Some(0 - GroupValue(g))
  {
    var w := "-" + g;
    assert w[0] == '-' && w[|w| - 1] == g[|g| - 1];
    StripClean(w, IsIntSpace);
    SignedGroup('-', g);
    assert ['-'] + g == w;
  }

  /** A plain digit string is a digit group whose value is its own. */
  lemma GroupOfDigits(digits: string)
    requires |digits| > 0 && AllDigits(digits)
    ensures IsDigitGroup(digits) && GroupValue(digits) == DigitsValue(digits)
  {
    assert forall i :: 0 <= i < |digits| ==> digits[i] != '_';
  }

  /** An underscore between two runs of digits is a digit group worth the digits read together. */
  lemma GroupJoin(a: string, b: string)
    requires |a| > 0 && |b| > 0 && AllDigits(a) && AllDigits(b)
    ensures IsDigitGroup(a + "_" + b) && AllDigits(a + b)
    ensures GroupValue(a + "_" + b) == DigitsValue(a + b)
  {
    GroupJoinShape(a, b);
    DigitsJoin(a, b);
    DropUnderscoresAt(a, b);
    DigitsHaveNoUnderscore(a);
    DigitsHaveNoUnderscore(b);
  }

  lemma GroupJoinShape(a: string, b: string)
    requires |a| > 0 && |b| > 0 && AllDigits(a) && AllDigits(b)
    ensures IsDigitGroup(a + "_" + b)
  {
    var g := a + "_" + b;
    forall i | 0 <= i < |g| ensures IsDigit(g[i]) || g[i] == '_' {
      if i > |a| { assert g[i] == b[i - |a| - 1]; }
    }
    forall i | 0 <= i < |g| - 1 ensures !(g[i] == '_' && g[i + 1] == '_') {
      if i < |a| { assert g[i] == a[i]; }
      else { assert g[i + 1] == b[i - |a|]; }
    }
    assert g[|g| - 1] == b[|b| - 1];
  }

  lemma DigitsJoin(a: string, b: string)
    requires AllDigits(a) && AllDigits(b)
    ensures AllDigits(a + b)
  {
    forall i | 0 <= i < |a + b| ensures IsDigit((a + b)[i]) {
      if i >= |a| { assert (a + b)[i] == b[i - |a|]; }
    }
  }

  lemma DigitsHaveNoUnderscore(s: string)
    requires AllDigits(s)
    ensures '_' !in s
  {
    forall k | 0 <= k < |s| ensures s[k] != '_' {
      assert IsDigit(s[k]);
    }
  }

  /** `int("\x1c5")` raises: U+001C is whitespace to `str.strip()` but not to `int()`. */
  lemma SeparatorIsNotIntSpace(s: string)
    requires s == "\U{1c}5"
    ensures ParseInt(s) == None
  {
    ParseIntAlphabet(s, 0);
  }
}
