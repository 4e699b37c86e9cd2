/**
 * The string operations of Python's `str` that the scraper relies on:
 * `strip()`, `s.split(c)[0]` and `os.path.basename` (the POSIX variant,
 * which is the text after the last '/'). Stripping is parametrised by the
 * set of characters it removes: `str.strip()` removes `IsSpace`, and `int()`
 * skips a slightly smaller set.
 */
module Text {

  /** Python's `str.isspace()` for one character: the set that `str.strip()` removes. */
  predicate IsSpace(c: char) {
    || ('\t' <= c <= '\r')
    || ('\U{1c}' <= c <= '\U{1f}')
    || c == ' '
    || c == '\U{85}'
    || c == '\U{a0}'
    || c == '\U{1680}'
    || ('\U{2000}' <= c <= '\U{200a}')
    || c == '\U{2028}'
    || c == '\U{2029}'
    || c == '\U{202f}'
    || c == '\U{205f}'
    || c == '\U{3000}'
  }

  /** `s.lstrip()` for the whitespace `ws`: drops the leading whitespace and nothing else. */
  function TrimLeft(s: string, ws: char -> bool): (r: string)
    ensures |r| <= |s| && r == s[|s| - |r|..]
    ensures forall i :: 0 <= i < |s| - |r| ==> ws(s[i])
    ensures |r| > 0 ==> !ws(r[0])
  {
    if |s| > 0 && ws(s[0]) then TrimLeft(s[1..], ws) else s
  }

  /** `s.rstrip()` for the whitespace `ws`: drops the trailing whitespace and nothing else. */
  function TrimRight(s: string, ws: char -> bool): (r: string)
    ensures |r| <= |s| && r == s[..|r|]
    ensures forall i :: |r| <= i < |s| ==> ws(s[i])
    ensures |r| > 0 ==> !ws(r[|r| - 1])
  {
    if |s| > 0 && ws(s[|s| - 1]) then TrimRight(s[..|s| - 1], ws) else s
  }

  /** `s.strip()` for the whitespace `ws`: the result neither begins nor ends with whitespace. */
  function Strip(s: string, ws: char -> bool): (r: string)
    ensures |r| <= |s|
    ensures |r| > 0 ==> !ws(r[0]) && !ws(r[|r| - 1])
  {
    TrimRight(TrimLeft(s, ws), ws)
  }

  /** `strip` removes whitespace only: every other character of `s` is kept. */
  lemma StripKeepsText(s: string, ws: char -> bool, i: nat)
    requires i < |s| && !ws(s[i])
    ensures s[i] in Strip(s, ws)
  {
    var t := TrimLeft(s, ws);
    var j := i - (|s| - |t|);
    assert s[i] == t[j];
    assert t[j] == TrimRight(t, ws)[j];
  }

  /** `s.split(c)[0]`: the text before the first `c`, or all of `s` when there is none. */
  function TakeBefore(s: string, c: char): (r: string)
    ensures c !in r
    ensures |r| <= |s| && r == s[..|r|]
    ensures |r| < |s| ==> s[|r|] == c
  {
    if |s| == 0 then "" else if s[0] == c then "" else [s[0]] + TakeBefore(s[1..], c)
  }

  /** The text after the last `c`, or all of `s` when there is none (`posixpath.basename` for `c == '/'`). */
  function AfterLast(s: string, c: char): (r: string)
    ensures c !in r
    ensures |r| <= |s| && r == s[|s| - |r|..]
    ensures |r| < |s| ==> s[|s| - |r| - 1] == c
  {
    if |s| == 0 then "" else if s[|s| - 1] == c then "" else AfterLast(s[..|s| - 1], c) + [s[|s| - 1]]
  }

  /** Leading whitespace is invisible to `lstrip`. */
  lemma {:induction false} TrimLeftSkipsSpace(lead: string, s: string, ws: char -> bool)
    requires forall i :: 0 <= i < |lead| ==> ws(lead[i])
    requires |s| > 0 && !ws(s[0])
    ensures TrimLeft(lead + s, ws) == s
  {
    if |lead| > 0 {
      assert (lead + s)[1..] == lead[1..] + s;
      TrimLeftSkipsSpace(lead[1..], s, ws);
    } else {
      assert lead + s == s;
    }
  }

  /** `rstrip` never reaches past a character that is not whitespace. */
  lemma {:induction false} TrimRightStopsAt(a: string, b: string, ws: char -> bool)
    requires |a| > 0 && !ws(a[|a| - 1])
    ensures TrimRight(a + b, ws) == a + TrimRight(b, ws)
  {
    if |b| == 0 {
      assert a + b == a;
    } else if ws(b[|b| - 1]) {
      assert (a + b)[..|a + b| - 1] == a + b[..|b| - 1];
      TrimRightStopsAt(a, b[..|b| - 1], ws);
    }
  }

  /** A word that neither begins nor ends with whitespace is left alone by `strip`. */
  lemma StripClean(w: string, ws: char -> bool)
    requires |w| > 0 && !ws(w[0]) && !ws(w[|w| - 1])
    ensures Strip(w, ws) == w
  {
    assert TrimLeft(w, ws) == w;
  }

  /** Whitespace around a word that neither begins nor ends with whitespace is all that `strip` removes. */
  lemma StripPadded(lead: string, w: string, trail: string, ws: char -> bool)
    requires forall i :: 0 <= i < |lead| ==> ws(lead[i])
    requires forall i :: 0 <= i < |trail| ==> ws(trail[i])
    requires |w| > 0 && !ws(w[0]) && !ws(w[|w| - 1])
    ensures Strip(lead + w + trail, ws) == w
  {
    assert lead + w + trail == lead + (w + trail);
    TrimLeftSkipsSpace(lead, w + trail, ws);
    TrimRightStopsAt(w, trail, ws);
    assert TrimRight(trail, ws) == "";
    assert w + "" == w;
  }

  /** `(a + b).split(c)[0] == a` when `a` has no `c` and `b` is empty or begins with `c`. */
  lemma {:induction false} TakeBeforeAt(a: string, b: string, c: char)
    requires c !in a
    requires b == [] || b[0] == c
    ensures TakeBefore(a + b, c) == a
  {
    if |a| == 0 {
      assert a + b == b;
    } else {
      assert (a + b)[0] == a[0];
      assert (a + b)[1..] == a[1..] + b;
      TakeBeforeAt(a[1..], b, c);
    }
  }

  /** `basename(a + [c] + b) == b` when `b` has no `c`. */
  lemma {:induction false} AfterLastAt(a: string, b: string, c: char)
    requires c !in b
    ensures AfterLast(a + [c] + b, c) == b
  {
    if |b| == 0 {
      assert a + [c] + b == a + [c];
    } else {
      var s := a + [c] + b;
      assert s[..|s| - 1] == a + [c] + b[..|b| - 1];
      assert s[|s| - 1] == b[|b| - 1];
      AfterLastAt(a, b[..|b| - 1], c);
    }
  }

  /** A string with no `c` is its own text-after-the-last-`c`. */
  lemma {:induction false} AfterLastWhole(s: string, c: char)
    requires c !in s
    ensures AfterLast(s, c) == s
  {
    if |s| > 0 {
      AfterLastWhole(s[..|s| - 1], c);
    }
  }
}
