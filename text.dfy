/**
 * The handful of Python string operations the scripts rely on: substring
 * search (`in`), `sep.join`, `s.split(c)`, `s.strip()`, `s.replace`, the
 * `{:Ns}` left-justified format and `os.path.join`.
 */
module Text {

  /** `needle` occurs in `hay` starting at index `k`. */
  predicate OccursAt(hay: string, needle: string, k: int) {
    0 <= k && k + |needle| <= |hay| && hay[k..k + |needle|] == needle
  }

  /** Python's `needle in hay` on strings. */
  predicate Contains(hay: string, needle: string) {
    exists k :: 0 <= k <= |hay| && OccursAt(hay, needle, k)
  }

  /** The total length of some pieces of text. */
  function TotalLength(parts: seq<string>): nat {
    if |parts| == 0 then 0 else |parts[0]| + TotalLength(parts[1..])
  }

  /**
   * Python's `sep.join(parts)`: the parts in order, one separator between
   * each two of them, the first part at the start.
   */
  function Join(sep: string, parts: seq<string>): (r: string)
    ensures |parts| == 0 ==> r == ""
    ensures |parts| > 0 ==> |r| == TotalLength(parts) + (|parts| - 1) * |sep|
    ensures |parts| > 0 ==> |parts[0]| <= |r| && r[..|parts[0]|] == parts[0]
  {
    if |parts| == 0 then ""
    else if |parts| == 1 then parts[0]
    else
      var rest := Join(sep, parts[1..]);
      parts[0] + sep + rest
  }

  /** Python's `s.split(c)` with a one-character separator: never empty, and no piece holds `c`. */
  function Split(s: string, c: char): (r: seq<string>)
    ensures |r| >= 1
    ensures forall i :: 0 <= i < |r| ==> c !in r[i]
  {
    if |s| == 0 then [""]
    else
      var rest := Split(s[1..], c);
      if s[0] == c then [""] + rest
      else [[s[0]] + rest[0]] + rest[1..]
  }

  /** The characters Python's `str.isspace` accepts (and so `strip()` and `int()` skip). */
  predicate IsSpace(ch: char) {
    || ('\U{9}' <= ch <= '\U{D}')
    || ('\U{1C}' <= ch <= '\U{20}')
    || ch == '\U{85}' || ch == '\U{A0}' || ch == '\U{1680}'
    || ('\U{2000}' <= ch <= '\U{200A}')
    || ch == '\U{2028}' || ch == '\U{2029}' || ch == '\U{202F}'
    || ch == '\U{205F}' || ch == '\U{3000}'
  }

  /** Python's `s.lstrip()`: a suffix of `s` that does not start with whitespace. */
  function StripLeft(s: string): (r: string)
    ensures |r| <= |s| && r == s[|s| - |r|..]
    ensures forall k :: 0 <= k < |s| - |r| ==> IsSpace(s[k])
    ensures |r| > 0 ==> !IsSpace(r[0])
  {
    if |s| > 0 && IsSpace(s[0]) then StripLeft(s[1..]) else s
  }

  /** Python's `s.rstrip()`: a prefix of `s` that does not end with whitespace. */
  function StripRight(s: string): (r: string)
    ensures |r| <= |s| && r == s[..|r|]
    ensures forall k :: |r| <= k < |s| ==> IsSpace(s[k])
    ensures |r| > 0 ==> !IsSpace(r[|r| - 1])
  {
    if |s| > 0 && IsSpace(s[|s| - 1]) then StripRight(s[..|s| - 1]) else s
  }

  /** Every character of `s` in [lo, hi) is whitespace. */
  predicate SpacesIn(s: string, lo: int, hi: int) {
    forall k :: lo <= k < hi && 0 <= k < |s| ==> IsSpace(s[k])
  }

  /** `r` is `s` from index `i` on, with only whitespace before and after it. */
  predicate TrimmedAt(s: string, r: string, i: int) {
    0 <= i <= |s| - |r| && r == s[i..i + |r|] && SpacesIn(s, 0, i) && SpacesIn(s, i + |r|, |s|)
  }

  /** Python's `s.strip()`. */
  function Strip(s: string): string {
    StripRight(StripLeft(s))
  }

  /**
   * What `strip()` leaves: the stretch of `s` bordered only by whitespace,
   * neither starting nor ending with whitespace itself.
   */
  lemma StripTrims(s: string)
    ensures exists i :: TrimmedAt(s, Strip(s), i)
    ensures |Strip(s)| > 0 ==> !IsSpace(Strip(s)[0]) && !IsSpace(Strip(s)[|Strip(s)| - 1])
  {
    var t := StripLeft(s);
    var r := StripRight(t);
    var i := |s| - |t|;
    assert r == s[i..i + |r|] by {
      assert t == s[i..] && r == t[..|r|];
    }
    assert SpacesIn(s, 0, i);
    assert SpacesIn(s, i + |r|, |s|) by {
      TrailingSpaces(s, t, r);
    }
    assert r == Strip(s);
    assert TrimmedAt(s, Strip(s), i);
    assert |r| > 0 ==> r[0] == t[0];
  }

  /** The whitespace `rstrip` cuts from a suffix of `s` is whitespace of `s`. */
  lemma TrailingSpaces(s: string, t: string, r: string)
    requires |t| <= |s| && t == s[|s| - |t|..]
    requires |r| <= |t| && forall k :: |r| <= k < |t| ==> IsSpace(t[k])
    ensures SpacesIn(s, |s| - |t| + |r|, |s|)
  {
    var i := |s| - |t|;
    forall k | i + |r| <= k < |s| ensures IsSpace(s[k]) {
      assert s[k] == t[k - i];
    }
  }

  /** Python's `s.replace(from, to)` for a one-character pattern. */
  function Replace(s: string, from: char, to: string): (r: string)
    ensures forall ch :: ch in r ==> (ch in s && ch != from) || ch in to
    ensures |s| == 0 ==> r == ""
  {
    if |s| == 0 then ""
    else (if s[0] == from then to else [s[0]]) + Replace(s[1..], from, to)
  }

  /** One character is replaced by `to` when it is the pattern and kept otherwise. */
  lemma ReplaceChar(c: char, from: char, to: string)
    ensures Replace([c], from, to) == if c == from then to else [c]
  {
    assert [c][1..] == [];
  }

  /** Replacing works character by character: it distributes over concatenation. */
  lemma {:induction false} ReplaceAppend(a: string, b: string, from: char, to: string)
    ensures Replace(a + b, from, to) == Replace(a, from, to) + Replace(b, from, to)
  {
    if |a| == 0 {
      assert a + b == b;
    } else {
      assert (a + b)[1..] == a[1..] + b;
      ReplaceAppend(a[1..], b, from, to);
    }
  }

  /** `n` spaces. */
  function Spaces(n: nat): (r: string)
    ensures |r| == n && forall k :: 0 <= k < n ==> r[k] == ' '
  {
    seq(n, _ => ' ')
  }

  /** Python's `f"{s:{width}s}"`: left-justified, padded with spaces, never truncated. */
  function PadRight(s: string, width: nat): (r: string)
    ensures |r| == if |s| < width then width else |s|
    ensures r[..|s|] == s
    ensures forall k :: |s| <= k < |r| ==> r[k] == ' '
  {
    if |s| < width then s + Spaces(width - |s|) else s
  }

  /**
   * `os.path.join(dir, name)` on POSIX: an absolute `name` replaces `dir`;
   * otherwise one '/' separates the two unless `dir` is empty or already
   * ends with one.
   */
  function PathJoin(dir: string, name: string): (r: string)
    ensures |name| > 0 && name[0] == '/' ==> r == name
    ensures !(|name| > 0 && name[0] == '/') && |dir| > 0 && dir[|dir| - 1] != '/' ==>
              |r| == |dir| + 1 + |name| && r[|dir|] == '/'
    ensures !(|name| > 0 && name[0] == '/') && (|dir| == 0 || dir[|dir| - 1] == '/') ==> |r| == |dir| + |name|
    ensures !(|name| > 0 && name[0] == '/') ==> r[..|dir|] == dir && r[|r| - |name|..] == name
  {
    if |name| > 0 && name[0] == '/' then name
    else if |dir| == 0 || dir[|dir| - 1] == '/' then dir + name
    else dir + "/" + name
  }

  // ---------------------------------------------------------------------
  // Substring search across a separator

  /** An occurrence that covers the position of `c` puts `c` into the needle. */
  lemma Straddle(a: string, c: char, b: string, needle: string, k: int)
    requires OccursAt(a + [c] + b, needle, k) && k <= |a| < k + |needle|
    ensures c in needle
  {
    var s := a + [c] + b;
    assert needle[|a| - k] == s[k..k + |needle|][|a| - k] == s[|a|];
  }

  /** An occurrence of a needle that does not contain `c` never straddles a `c`. */
  lemma ContainsAround(a: string, c: char, b: string, needle: string)
    requires |needle| > 0 && c !in needle
    ensures Contains(a + [c] + b, needle) <==> Contains(a, needle) || Contains(b, needle)
  {
    var s := a + [c] + b;
    var n := |needle|;
    if Contains(s, needle) {
      var k :| 0 <= k <= |s| && OccursAt(s, needle, k);
      if k + n <= |a| {
        assert s[k..k + n] == a[k..k + n];
        assert OccursAt(a, needle, k);
      } else if k > |a| {
        var j := k - |a| - 1;
        assert s[k..k + n] == b[j..j + n];
        assert OccursAt(b, needle, j);
      } else {
        Straddle(a, c, b, needle, k);
        assert false;
      }
    }
    if Contains(a, needle) {
      var k :| 0 <= k <= |a| && OccursAt(a, needle, k);
      assert s[k..k + n] == a[k..k + n];
      assert OccursAt(s, needle, k);
    }
    if Contains(b, needle) {
      var j :| 0 <= j <= |b| && OccursAt(b, needle, j);
      var k := j + |a| + 1;
      assert s[k..k + n] == b[j..j + n];
      assert OccursAt(s, needle, k);
    }
  }

  /**
   * A needle free of the separator occurs in the joined text exactly when it
   * occurs in one of the parts.
   */
  lemma {:induction false} ContainsJoin(sep: char, parts: seq<string>, needle: string)
    requires |needle| > 0 && sep !in needle
    ensures Contains(Join([sep], parts), needle) <==>
            exists i :: 0 <= i < |parts| && Contains(parts[i], needle)
  {
    if |parts| > 1 {
      var tail := parts[1..];
      ContainsJoin(sep, tail, needle);
      assert Join([sep], parts) == parts[0] + [sep] + Join([sep], tail);
      ContainsAround(parts[0], sep, Join([sep], tail), needle);
      if exists i :: 0 <= i < |tail| && Contains(tail[i], needle) {
        var i :| 0 <= i < |tail| && Contains(tail[i], needle);
        assert parts[i + 1] == tail[i];
      }
      if exists i :: 1 <= i < |parts| && Contains(parts[i], needle) {
        var i :| 1 <= i < |parts| && Contains(parts[i], needle);
        assert tail[i - 1] == parts[i];
      }
    }
  }

  // ---------------------------------------------------------------------
  // join and split are inverse

  lemma JoinConsHead(sep: string, p: string, parts: seq<string>)
    requires |parts| >= 1
    ensures Join(sep, [p + parts[0]] + parts[1..]) == p + Join(sep, parts)
  {
    var q := [p + parts[0]] + parts[1..];
    if |parts| > 1 {
      assert q[1..] == parts[1..];
    }
  }

  /** Splitting and re-joining with the same separator gives the text back. */
  lemma {:induction false} JoinSplit(s: string, c: char)
    ensures Join([c], Split(s, c)) == s
  {
    if |s| > 0 {
      var rest := Split(s[1..], c);
      JoinSplit(s[1..], c);
      if s[0] == c {
        assert ([""] + rest)[1..] == rest;
        assert s == [c] + s[1..];
      } else {
        JoinConsHead([c], [s[0]], rest);
        assert s == [s[0]] + s[1..];
      }
    }
  }

  lemma {:induction false} SplitWithout(p: string, c: char)
    requires c !in p
    ensures Split(p, c) == [p]
  {
    if |p| > 0 {
      SplitWithout(p[1..], c);
      assert [p[0]] + p[1..] == p;
    }
  }

  lemma {:induction false} SplitAfterFirst(p: string, c: char, t: string)
    requires c !in p
    ensures Split(p + [c] + t, c) == [p] + Split(t, c)
  {
    var s := p + [c] + t;
    if |p| == 0 {
      assert s[1..] == t;
    } else {
      assert s[1..] == p[1..] + [c] + t;
      SplitAfterFirst(p[1..], c, t);
      assert [p[0]] + p[1..] == p;
    }
  }

  /** Joining pieces free of the separator and splitting again gives the pieces back. */
  lemma {:induction false} SplitJoin(parts: seq<string>, c: char)
    requires |parts| >= 1
    requires forall i :: 0 <= i < |parts| ==> c !in parts[i]
    ensures Split(Join([c], parts), c) == parts
  {
    if |parts| == 1 {
      SplitWithout(parts[0], c);
    } else {
      SplitJoin(parts[1..], c);
      SplitAfterFirst(parts[0], c, Join([c], parts[1..]));
      assert [parts[0]] + parts[1..] == parts;
    }
  }

  /** A character in neither the separator nor any part is not in the joined text. */
  lemma {:induction false} JoinExcludes(sep: string, parts: seq<string>, ch: char)
    requires ch !in sep
    requires forall i :: 0 <= i < |parts| ==> ch !in parts[i]
    ensures ch !in Join(sep, parts)
  {
    if |parts| > 1 {
      JoinExcludes(sep, parts[1..], ch);
    }
  }

  // ---------------------------------------------------------------------
  // strip

  /** Text without surrounding whitespace is its own strip. */
  lemma StripUntrimmed(s: string)
    requires |s| == 0 || (!IsSpace(s[0]) && !IsSpace(s[|s| - 1]))
    ensures Strip(s) == s
  {
  }

  /** `strip()` is idempotent. */
  lemma StripStrip(s: string)
    ensures Strip(Strip(s)) == Strip(s)
  {
    var t := StripLeft(s);
    var r := StripRight(t);
    if |r| > 0 {
      assert r[0] == t[0];
      StripUntrimmed(r);
    }
  }

  /** Replacing a character that does not occur changes nothing. */
  lemma {:induction false} ReplaceAbsent(s: string, from: char, to: string)
    requires from !in s
    ensures Replace(s, from, to) == s
  {
    if |s| > 0 {
      ReplaceAbsent(s[1..], from, to);
      assert [s[0]] + s[1..] == s;
    }
  }
}
