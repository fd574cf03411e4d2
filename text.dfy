// String operations the font library borrows from JavaScript: the `\s`
// character class, `toLowerCase`, `replace` of a character run, `trim`,
// `Array.prototype.join`, `String.prototype.split`, `indexOf` and `includes`.

module Text {

  /** The characters of JavaScript's `\s` class, which are also the ones
      `String.prototype.trim` removes: ECMAScript WhiteSpace and LineTerminator. */
  predicate IsSpace(c: char) {
    || c == '\t' || c == '\n' || c == '\U{0B}' || c == '\U{0C}' || c == '\r'
    || c == ' ' || c == '\U{A0}' || c == '\U{1680}'
    || ('\U{2000}' <= c <= '\U{200A}')
    || c == '\U{2028}' || c == '\U{2029}' || c == '\U{202F}' || c == '\U{205F}'
    || c == '\U{3000}' || c == '\U{FEFF}'
  }

  /** The characters the regular-expression `.` does not match. */
  predicate IsLineTerminator(c: char) {
    c == '\n' || c == '\r' || c == '\U{2028}' || c == '\U{2029}'
  }

  predicate NoSpace(s: string) {
    forall k :: 0 <= k < |s| ==> !IsSpace(s[k])
  }

  /** `String.prototype.length`: the number of UTF-16 code units, two for
      a character outside the Basic Multilingual Plane. */
  function Utf16Length(s: string): (n: nat)
    ensures |s| <= n <= 2 * |s|
    ensures (forall k :: 0 <= k < |s| ==> s[k] as int < 0x1_0000) ==> n == |s|
    decreases |s|
  {
    if s == [] then 0
    else (if s[0] as int < 0x1_0000 then 1 else 2) + Utf16Length(s[1..])
  }

  /** Lower-casing of one character (ASCII letters only). */
  function Lower(c: char): (d: char)
    ensures IsSpace(d) == IsSpace(c)
    ensures !('A' <= d <= 'Z')
    ensures !('A' <= c <= 'Z') ==> d == c
  {
    if 'A' <= c <= 'Z' then (c as int + 32) as char else c
  }

  function ToLower(s: string): (r: string)
    ensures |r| == |s|
    ensures forall k :: 0 <= k < |s| ==> r[k] == Lower(s[k])
  {
    seq(|s|, k requires 0 <= k < |s| => Lower(s[k]))
  }

  lemma ToLowerIdempotent(s: string)
    ensures ToLower(ToLower(s)) == ToLower(s)
  {
  }

  lemma ToLowerAppend(a: string, b: string)
    ensures ToLower(a + b) == ToLower(a) + ToLower(b)
  {
  }

  /** The longest suffix of `s` that does not start with a `p`-character. */
  function DropWhile(s: string, p: char -> bool): (r: string)
    ensures |r| <= |s| && r == s[|s| - |r|..]
    ensures forall k :: 0 <= k < |s| - |r| ==> p(s[k])
    ensures r == [] || !p(r[0])
  {
    if s != [] && p(s[0]) then DropWhile(s[1..], p) else s
  }

  /** `s.replace(/x+/g, [c])` where `x` is the character class `p`: every
      maximal run of `p`-characters becomes the single character `c`. */
  function ReplaceRuns(s: string, p: char -> bool, c: char): (r: string)
    ensures |r| <= |s|
    ensures !p(c) ==> forall k :: 0 <= k < |r| ==> !p(r[k])
    decreases |s|
  {
    if s == [] then []
    else if p(s[0]) then [c] + ReplaceRuns(DropWhile(s, p), p, c)
    else [s[0]] + ReplaceRuns(s[1..], p, c)
  }

  /** A string without `p`-characters comes back unchanged. */
  lemma {:induction false} ReplaceRunsNoRun(s: string, p: char -> bool, c: char)
    requires forall k :: 0 <= k < |s| ==> !p(s[k])
    ensures ReplaceRuns(s, p, c) == s
    decreases |s|
  {
    if s != [] {
      ReplaceRunsNoRun(s[1..], p, c);
    }
  }

  /** Text without `p`-characters before a run is kept; the run becomes one `c`. */
  lemma {:induction false} ReplaceRunsBetween(a: string, run: string, b: string, p: char -> bool, c: char)
    requires forall k :: 0 <= k < |a| ==> !p(a[k])
    requires run != [] && forall k :: 0 <= k < |run| ==> p(run[k])
    requires forall k :: 0 <= k < |b| ==> !p(b[k])
    ensures ReplaceRuns(a + run + b, p, c) == a + [c] + b
    decreases |a|
  {
    if a == [] {
      assert a + run + b == run + b;
      ReplaceRunsOfRun(run, b, p, c);
      ReplaceRunsNoRun(b, p, c);
    } else {
      assert (a + run + b)[0] == a[0] && (a + run + b)[1..] == a[1..] + run + b;
      ReplaceRunsBetween(a[1..], run, b, p, c);
    }
  }

  /** A maximal run, however long, becomes one `c`. */
  lemma {:induction false} ReplaceRunsOfRun(run: string, rest: string, p: char -> bool, c: char)
    requires run != [] && forall k :: 0 <= k < |run| ==> p(run[k])
    requires rest == [] || !p(rest[0])
    ensures ReplaceRuns(run + rest, p, c) == [c] + ReplaceRuns(rest, p, c)
  {
    DropWhileRun(run, rest, p);
  }

  lemma {:induction false} DropWhileRun(run: string, rest: string, p: char -> bool)
    requires forall k :: 0 <= k < |run| ==> p(run[k])
    requires rest == [] || !p(rest[0])
    ensures DropWhile(run + rest, p) == rest
    decreases |run|
  {
    if run != [] {
      assert (run + rest)[1..] == run[1..] + rest;
      DropWhileRun(run[1..], rest, p);
    }
  }

  /** Lower-casing commutes with run replacement when the class ignores case
      and the replacement is already lower case. */
  lemma {:induction false} LowerReplaceRunsCommute(s: string, p: char -> bool, c: char)
    requires forall x :: p(Lower(x)) == p(x)
    requires Lower(c) == c
    ensures ToLower(ReplaceRuns(s, p, c)) == ReplaceRuns(ToLower(s), p, c)
    decreases |s|
  {
    if s == [] {
    } else if p(s[0]) {
      var d := DropWhile(s, p);
      var ls := ToLower(s);
      assert ls[0] == Lower(s[0]) && p(ls[0]);
      assert ReplaceRuns(ls, p, c) == [c] + ReplaceRuns(DropWhile(ls, p), p, c);
      LowerDropWhileCommute(s, p);
      LowerReplaceRunsCommute(d, p, c);
      ToLowerAppend([c], ReplaceRuns(d, p, c));
      assert ToLower([c]) == [c];
    } else {
      var ls := ToLower(s);
      assert ls[0] == Lower(s[0]) && !p(ls[0]);
      assert ls[1..] == ToLower(s[1..]);
      assert ReplaceRuns(ls, p, c) == [ls[0]] + ReplaceRuns(ls[1..], p, c);
      LowerReplaceRunsCommute(s[1..], p, c);
      ToLowerAppend([s[0]], ReplaceRuns(s[1..], p, c));
    }
  }

  lemma {:induction false} LowerDropWhileCommute(s: string, p: char -> bool)
    requires forall x :: p(Lower(x)) == p(x)
    ensures ToLower(DropWhile(s, p)) == DropWhile(ToLower(s), p)
    decreases |s|
  {
    if s != [] && p(s[0]) {
      assert ToLower(s)[1..] == ToLower(s[1..]);
      LowerDropWhileCommute(s[1..], p);
    }
  }

  /** The longest prefix of `s` that does not end with a space. */
  function TrimEnd(s: string): (r: string)
    ensures |r| <= |s| && r == s[..|r|]
    ensures forall k :: |r| <= k < |s| ==> IsSpace(s[k])
    ensures r == [] || !IsSpace(r[|r| - 1])
  {
    if s != [] && IsSpace(s[|s| - 1]) then TrimEnd(s[..|s| - 1]) else s
  }

  /** `String.prototype.trim`: what is left once the leading and the
      trailing whitespace are removed. */
  function Trim(s: string): (r: string)
    ensures |r| <= |s|
    ensures r == [] || (!IsSpace(r[0]) && !IsSpace(r[|r| - 1]))
    ensures exists i, j ::
      && 0 <= i <= j <= |s| && r == s[i..j]
      && (forall k :: 0 <= k < i ==> IsSpace(s[k]))
      && (forall k :: j <= k < |s| ==> IsSpace(s[k]))
    ensures exists i :: OccursAt(s, r, i)
  {
    var t := DropWhile(s, IsSpace);
    var r := TrimEnd(t);
    TrimPieces(s, t, r);
    r
  }

  /** A prefix `r` of a suffix `t` of `s`, with only spaces outside it, sits between two space runs. */
  lemma TrimPieces(s: string, t: string, r: string)
    requires |t| <= |s| && t == s[|s| - |t|..]
    requires forall k :: 0 <= k < |s| - |t| ==> IsSpace(s[k])
    requires |r| <= |t| && r == t[..|r|]
    requires forall k :: |r| <= k < |t| ==> IsSpace(t[k])
    requires t == [] || !IsSpace(t[0])
    requires r == [] || !IsSpace(r[|r| - 1])
    ensures r == [] || (!IsSpace(r[0]) && !IsSpace(r[|r| - 1]))
    ensures exists i, j ::
      && 0 <= i <= j <= |s| && r == s[i..j]
      && (forall k :: 0 <= k < i ==> IsSpace(s[k]))
      && (forall k :: j <= k < |s| ==> IsSpace(s[k]))
    ensures exists i :: OccursAt(s, r, i)
  {
    var i := |s| - |t|;
    var j := i + |r|;
    assert r == s[i..j];
    forall k | j <= k < |s| ensures IsSpace(s[k]) {
      assert s[k] == t[k - i];
    }
    assert OccursAt(s, r, i);
  }

  lemma TrimIdempotent(s: string)
    ensures Trim(Trim(s)) == Trim(s)
  {
  }

  /** Leading `p`-characters are dropped however many there are. */
  lemma {:induction false} DropWhileAppend(x: string, y: string, p: char -> bool)
    ensures DropWhile(x + y, p) == if DropWhile(x, p) == [] then DropWhile(y, p) else DropWhile(x, p) + y
    decreases |x|
  {
    if x == [] {
      assert x + y == y;
    } else {
      assert (x + y)[0] == x[0] && (x + y)[1..] == x[1..] + y;
      if p(x[0]) {
        DropWhileAppend(x[1..], y, p);
      }
    }
  }

  /** Trailing spaces are trimmed however many there are. */
  lemma {:induction false} TrimEndPad(x: string, pad: string)
    requires forall k :: 0 <= k < |pad| ==> IsSpace(pad[k])
    ensures TrimEnd(x + pad) == TrimEnd(x)
    decreases |pad|
  {
    if pad == [] {
      assert x + pad == x;
    } else {
      var init := pad[..|pad| - 1];
      assert (x + pad)[..|x + pad| - 1] == x + init;
      TrimEndPad(x, init);
    }
  }

  /** Leading whitespace, however much, is dropped. */
  lemma DropLeadingSpace(pad: string, x: string)
    requires forall k :: 0 <= k < |pad| ==> IsSpace(pad[k])
    ensures DropWhile(pad + x, IsSpace) == DropWhile(x, IsSpace)
  {
    DropWhileAppend(pad, x, IsSpace);
    DropWhileRunAll(pad, IsSpace);
  }

  /** Whitespace before and after a string, each of any length, does not change its trim. */
  lemma PaddedTrim(before: string, text: string, after: string)
    requires forall k :: 0 <= k < |before| ==> IsSpace(before[k])
    requires forall k :: 0 <= k < |after| ==> IsSpace(after[k])
    ensures Trim(before + text + after) == Trim(text)
  {
    assert before + text + after == before + (text + after);
    DropLeadingSpace(before, text + after);
    DropWhileAppend(text, after, IsSpace);
    DropWhileRunAll(after, IsSpace);
    var d := DropWhile(text, IsSpace);
    if d != [] {
      TrimEndPad(d, after);
    }
  }

  /** The trim of whitespace, a piece with non-space ends, and whitespace is that piece. */
  lemma TrimOfPadded(before: string, text: string, after: string)
    requires forall k :: 0 <= k < |before| ==> IsSpace(before[k])
    requires forall k :: 0 <= k < |after| ==> IsSpace(after[k])
    requires text == [] || (!IsSpace(text[0]) && !IsSpace(text[|text| - 1]))
    ensures Trim(before + text + after) == text
  {
    PaddedTrim(before, text, after);
  }

  lemma {:induction false} DropWhileRunAll(run: string, p: char -> bool)
    requires forall k :: 0 <= k < |run| ==> p(run[k])
    ensures DropWhile(run, p) == []
    decreases |run|
  {
    if run != [] {
      DropWhileRunAll(run[1..], p);
    }
  }

  /** `xs.join(sep)`. */
  function Join(xs: seq<string>, sep: char): (r: string)
    ensures |xs| == 1 ==> r == xs[0]
    decreases |xs|
  {
    if |xs| == 0 then ""
    else if |xs| == 1 then xs[0]
    else xs[0] + [sep] + Join(xs[1..], sep)
  }

  /** A character that is neither in `s` nor the replacement is not in the result. */
  lemma {:induction false} ReplaceRunsAvoids(s: string, p: char -> bool, c: char, x: char)
    requires x != c && x !in s
    ensures x !in ReplaceRuns(s, p, c)
    decreases |s|
  {
    if s != [] {
      if p(s[0]) {
        var d := DropWhile(s, p);
        assert forall k :: 0 <= k < |d| ==> d[k] == s[|s| - |d| + k];
        ReplaceRunsAvoids(d, p, c, x);
      } else {
        ReplaceRunsAvoids(s[1..], p, c, x);
      }
    }
  }

  /** A character that is neither in a piece nor the separator is not in the join. */
  lemma {:induction false} JoinAvoids(xs: seq<string>, sep: char, x: char)
    requires x != sep && forall i :: 0 <= i < |xs| ==> x !in xs[i]
    ensures x !in Join(xs, sep)
    decreases |xs|
  {
    if |xs| > 1 {
      JoinAvoids(xs[1..], sep, x);
    }
  }

  /** `s.split(sep)` for a one-character separator. */
  function Split(s: string, sep: char): (r: seq<string>)
    ensures |r| >= 1
    decreases |s|
  {
    if s == [] then [""]
    else if s[0] == sep then [""] + Split(s[1..], sep)
    else var t := Split(s[1..], sep); [[s[0]] + t[0]] + t[1..]
  }

  lemma {:induction false} SplitNoSeparator(s: string, sep: char)
    requires sep !in s
    ensures Split(s, sep) == [s]
    decreases |s|
  {
    if s != [] {
      assert sep !in s[1..] && s[0] != sep;
      SplitNoSeparator(s[1..], sep);
      assert s == [s[0]] + s[1..];
    }
  }

  lemma {:induction false} SplitAfterPiece(x: string, rest: string, sep: char)
    requires sep !in x
    ensures Split(x + [sep] + rest, sep) == [x] + Split(rest, sep)
    decreases |x|
  {
    if x != [] {
      assert (x + [sep] + rest)[1..] == x[1..] + [sep] + rest;
      assert sep !in x[1..] && x[0] != sep;
      SplitAfterPiece(x[1..], rest, sep);
      assert x == [x[0]] + x[1..];
    }
  }

  /** Splitting a joined list gives the list back when no piece holds the separator. */
  lemma {:induction false} SplitJoin(xs: seq<string>, sep: char)
    requires |xs| >= 1
    requires forall i :: 0 <= i < |xs| ==> sep !in xs[i]
    ensures Split(Join(xs, sep), sep) == xs
    decreases |xs|
  {
    if |xs| == 1 {
      SplitNoSeparator(xs[0], sep);
    } else {
      SplitJoin(xs[1..], sep);
      SplitAfterPiece(xs[0], Join(xs[1..], sep), sep);
    }
  }

  /** Joining the pieces of a split gives the string back. */
  lemma {:induction false} JoinSplit(s: string, sep: char)
    ensures Join(Split(s, sep), sep) == s
    decreases |s|
  {
    if s == [] {
    } else if s[0] == sep {
      var t := Split(s[1..], sep);
      JoinSplit(s[1..], sep);
      assert Split(s, sep) == [""] + t;
      assert s == [sep] + s[1..];
    } else {
      var t := Split(s[1..], sep);
      JoinSplit(s[1..], sep);
      var u := [[s[0]] + t[0]] + t[1..];
      assert Split(s, sep) == u;
      if |t| == 1 {
      } else {
        assert u[1..] == t[1..];
        assert Join(t, sep) == t[0] + [sep] + Join(t[1..], sep);
        assert s == [s[0]] + s[1..];
      }
    }
  }

  /** `t` occurs in `s` at index `j`. */
  predicate OccursAt(s: string, t: string, j: int) {
    0 <= j <= |s| && t <= s[j..]
  }

  /** `s.includes(t)`. */
  predicate Contains(s: string, t: string) {
    exists j :: 0 <= j <= |s| && OccursAt(s, t, j)
  }

  /** `s.indexOf(t)`: the first index at which `t` occurs, or -1. */
  function IndexOf(s: string, t: string): (r: int)
    ensures -1 <= r <= |s| - |t| || r == -1
    ensures r >= 0 ==> OccursAt(s, t, r) && forall j :: 0 <= j < r ==> !OccursAt(s, t, j)
    ensures r < 0 ==> forall j :: !OccursAt(s, t, j)
    decreases |s|
  {
    if t <= s then 0
    else if s == [] then -1
    else
      var k := IndexOf(s[1..], t);
      assert forall j :: 1 <= j ==> (OccursAt(s, t, j) <==> OccursAt(s[1..], t, j - 1)) by {
        forall j | 1 <= j ensures OccursAt(s, t, j) <==> OccursAt(s[1..], t, j - 1) {
          if j <= |s| {
            assert s[j..] == s[1..][j - 1..];
          }
        }
      }
      if k < 0 then -1 else k + 1
  }

  lemma ContainsIndexOf(s: string, t: string)
    ensures Contains(s, t) <==> IndexOf(s, t) >= 0
  {
  }

  /** Whatever occurs in `s` still occurs after text is appended. */
  lemma ContainsAppend(s: string, u: string, t: string)
    requires Contains(s, t)
    ensures Contains(s + u, t)
  {
    var j :| 0 <= j <= |s| && OccursAt(s, t, j);
    assert (s + u)[j..] == s[j..] + u;
    assert OccursAt(s + u, t, j);
  }

  lemma ContainsPrepend(s: string, u: string, t: string)
    requires Contains(u, t)
    ensures Contains(s + u, t)
  {
    var j :| 0 <= j <= |u| && OccursAt(u, t, j);
    assert (s + u)[|s| + j..] == u[j..];
    assert OccursAt(s + u, t, |s| + j);
  }

  lemma ContainsMiddle(a: string, t: string, b: string)
    ensures Contains(a + t + b, t)
  {
    assert (a + t + b)[|a|..] == t + b;
    assert OccursAt(a + t + b, t, |a|);
  }
}
