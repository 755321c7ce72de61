/**
 * Python's `int(s)` on decimal text and Python's list indexing `xs[i]`,
 * the two operations version selection is built from.
 */
module PyInt {
  import opened Wrappers
  import opened Text

  predicate IsDigit(ch: char) {
    '0' <= ch <= '9'
  }

  /**
   * The digit part `int()` accepts in base 10: digits, with single
   * underscores allowed between two digits (`1_000`).
   */
  predicate IsDigitRun(s: string) {
    && |s| > 0 && IsDigit(s[0]) && IsDigit(s[|s| - 1])
    && (forall k :: 0 <= k < |s| ==> IsDigit(s[k]) || s[k] == '_')
    && (forall k :: 0 <= k < |s| - 1 ==> s[k] == '_' ==> s[k + 1] != '_')
  }

  /** The value of a digit run, underscores skipped. */
  function DigitsValue(s: string): nat {
    if |s| == 0 then 0
    else if IsDigit(s[|s| - 1]) then DigitsValue(s[..|s| - 1]) * 10 + (s[|s| - 1] as int - '0' as int)
    else DigitsValue(s[..|s| - 1])
  }

  /**
   * Python's `int(s)`: surrounding whitespace is skipped, one optional sign,
   * then a digit run; anything else raises ValueError (here: None).
   */
  function ParseInt(s: string): (r: Option<int>)
    ensures r.Some? ==> |Strip(s)| > 0
  {
    var t := Strip(s);
    if |t| > 0 && (t[0] == '-' || t[0] == '+') then
      if IsDigitRun(t[1..]) then
        var v: int := DigitsValue(t[1..]);
        Some(if t[0] == '-' then -v else v)
      else None
    else if IsDigitRun(t) then Some(DigitsValue(t))
    else None
  }

  function DigitChar(d: nat): (ch: char)
    requires d < 10
    ensures IsDigit(ch) && ch as int - '0' as int == d
  {
    (d + '0' as int) as char
  }

  /** Python's `str(n)` for a natural number: digits only, with no leading zero unless `n` is 0. */
  function ShowNat(n: nat): (r: string)
    ensures |r| > 0 && forall k :: 0 <= k < |r| ==> IsDigit(r[k])
    ensures r[0] == '0' <==> n == 0
  {
    if n < 10 then [DigitChar(n)] else ShowNat(n / 10) + [DigitChar(n % 10)]
  }

  /** Python's `str(n)`: a '-' exactly for a negative number, then the digits of its magnitude. */
  function Show(n: int): (r: string)
    ensures |r| > 0 && (r[0] == '-' <==> n < 0)
    ensures n >= 0 ==> forall k :: 0 <= k < |r| ==> IsDigit(r[k])
    ensures n < 0 ==> |r| > 1 && forall k :: 1 <= k < |r| ==> IsDigit(r[k])
  {
    if n < 0 then "-" + ShowNat(-n) else ShowNat(n)
  }

  lemma {:induction false} DigitsValueShowNat(n: nat)
    ensures DigitsValue(ShowNat(n)) == n
  {
    var s := ShowNat(n);
    if n >= 10 {
      DigitsValueShowNat(n / 10);
      assert s[..|s| - 1] == ShowNat(n / 10);
    }
  }

  lemma DigitNotSpace(ch: char)
    requires IsDigit(ch) || ch == '-'
    ensures !IsSpace(ch)
  {
  }

  lemma ParseDigitRun(t: string)
    requires IsDigitRun(t)
    ensures ParseInt(t) == Some(DigitsValue(t))
  {
    DigitNotSpace(t[0]);
    DigitNotSpace(t[|t| - 1]);
    StripUntrimmed(t);
  }

  lemma ParseNegativeDigitRun(d: string)
    requires IsDigitRun(d)
    ensures ParseInt("-" + d) == Some(0 - DigitsValue(d) as int)
  {
    var t := "-" + d;
    StripSigned(d);
    assert t[1..] == d;
  }

  /** A minus sign and a digit run have no whitespace to strip. */
  lemma StripSigned(d: string)
    requires IsDigitRun(d)
    ensures Strip("-" + d) == "-" + d
  {
    var t := "-" + d;
    assert t[0] == '-' && t[|t| - 1] == d[|d| - 1];
    DigitNotSpace(t[0]);
    DigitNotSpace(t[|t| - 1]);
    StripUntrimmed(t);
  }

  /** `int(str(n)) == n`: parsing reads back what printing wrote. */
  lemma ParseShow(n: int)
    ensures ParseInt(Show(n)) == Some(n)
  {
    var m := if n < 0 then -n else n;
    DigitsValueShowNat(m);
    assert IsDigitRun(ShowNat(m));
    if n < 0 {
      ParseNegativeDigitRun(ShowNat(m));
    } else {
      ParseDigitRun(ShowNat(m));
    }
  }

  /** Leading whitespace is skipped up to the first other character. */
  lemma {:induction false} StripLeftSpaces(ws: string, x: string)
    requires forall k :: 0 <= k < |ws| ==> IsSpace(ws[k])
    requires |x| > 0 && !IsSpace(x[0])
    ensures StripLeft(ws + x) == x
  {
    if |ws| > 0 {
      assert (ws + x)[1..] == ws[1..] + x;
      StripLeftSpaces(ws[1..], x);
    } else {
      assert ws + x == x;
    }
  }

  /** Trailing whitespace is skipped back to the last other character. */
  lemma {:induction false} StripRightSpaces(x: string, ws: string)
    requires forall k :: 0 <= k < |ws| ==> IsSpace(ws[k])
    requires |x| > 0 && !IsSpace(x[|x| - 1])
    ensures StripRight(x + ws) == x
    decreases |ws|
  {
    if |ws| > 0 {
      assert (x + ws)[..|x + ws| - 1] == x + ws[..|ws| - 1];
      StripRightSpaces(x, ws[..|ws| - 1]);
    } else {
      assert x + ws == x;
    }
  }

  /** `int()` reads only what `strip()` leaves. */
  lemma ParseStripped(s: string)
    ensures ParseInt(s) == ParseInt(Strip(s))
  {
    StripStrip(s);
  }

  /** `int(ws1 + str(n) + ws2) == n` for any whitespace around the printed number. */
  lemma ParseShowPadded(ws1: string, n: int, ws2: string)
    requires forall k :: 0 <= k < |ws1| ==> IsSpace(ws1[k])
    requires forall k :: 0 <= k < |ws2| ==> IsSpace(ws2[k])
    ensures ParseInt(ws1 + Show(n) + ws2) == Some(n)
  {
    var t := Show(n);
    DigitNotSpace(t[0]);
    DigitNotSpace(t[|t| - 1]);
    assert ws1 + t + ws2 == ws1 + (t + ws2);
    StripLeftSpaces(ws1, t + ws2);
    StripRightSpaces(t, ws2);
    StripUntrimmed(t);
    ParseStripped(ws1 + t + ws2);
    ParseStripped(t);
    ParseShow(n);
  }

  /**
   * `int()` raises when the stripped text holds a character that is not a
   * digit or an underscore, other than a sign in front.
   */
  lemma ParseRejects(s: string, k: nat)
    requires k < |Strip(s)| && !IsDigit(Strip(s)[k]) && Strip(s)[k] != '_'
    requires k == 0 ==> Strip(s)[0] != '-' && Strip(s)[0] != '+'
    ensures ParseInt(s) == None
  {
    var t := Strip(s);
    if k > 0 && (t[0] == '-' || t[0] == '+') {
      assert t[1..][k - 1] == t[k];
    }
  }

  /** Python's `xs[i]`: a negative index counts from the end; outside [-len, len) it raises IndexError. */
  function PyIndex<T>(xs: seq<T>, i: int): (r: Option<T>)
    ensures r.Some? <==> -|xs| <= i < |xs|
  {
    if 0 <= i < |xs| then Some(xs[i])
    else if -|xs| <= i < 0 then Some(xs[|xs| + i])
    else None
  }
}
