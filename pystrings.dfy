// The Python string and list operations the README sync script relies on:
// `str.splitlines` (with and without line ends), `"".join`, `sep.join`,
// `str.ljust`, `str.split(sep, 1)[0]` and `sorted` on strings, which
// compares code point by code point.
module PyStrings {
  import opened Wrappers
  import opened Text

  // -------------------------------------------------------------- lines

  /** The characters `str.splitlines` breaks at. */
  predicate IsLineBoundary(c: char)
  {
    c == '\n' || c == '\r' || c == '\U{B}' || c == '\U{C}' || ('\U{1C}' <= c <= '\U{1E}')
    || c == '\U{85}' || c == '\U{2028}' || c == '\U{2029}'
  }

  /** The first line boundary at or after `k`, or the end. */
  function BreakFrom(s: string, k: nat): (i: nat)
    requires k <= |s|
    ensures k <= i <= |s|
    ensures i < |s| ==> IsLineBoundary(s[i])
    ensures forall j :: k <= j < i ==> !IsLineBoundary(s[j])
    decreases |s| - k
  {
    if k == |s| || IsLineBoundary(s[k]) then k else BreakFrom(s, k + 1)
  }

  /** The length of the first line, its terminator included; `\r\n` is
      one terminator. */
  function FirstLineLength(s: string): (n: nat)
    requires |s| > 0
    ensures 0 < n <= |s|
    ensures forall j :: 0 <= j < n - 1 ==> !IsLineBoundary(s[j]) || (j == n - 2 && s[j] == '\r' && s[j + 1] == '\n')
  {
    var i := BreakFrom(s, 0);
    if i == |s| then i
    else if s[i] == '\r' && i + 1 < |s| && s[i + 1] == '\n' then i + 2
    else i + 1
  }

  /** `"".join`. */
  function Concat(lines: seq<string>): string
  {
    if |lines| == 0 then "" else lines[0] + Concat(lines[1..])
  }

  /** `str.splitlines(keepends=True)`: every line keeps its terminator, and
      joining the lines gives the text back. */
  function SplitLinesKeep(s: string): (lines: seq<string>)
    ensures Concat(lines) == s
    ensures forall i :: 0 <= i < |lines| ==> |lines[i]| > 0
    decreases |s|
  {
    if |s| == 0 then []
    else
      var n := FirstLineLength(s);
      var rest := SplitLinesKeep(s[n..]);
      var lines := [s[..n]] + rest;
      assert lines[1..] == rest;
      lines
  }

  /** A line without its terminator. */
  function StripTerminator(line: string): (r: string)
    ensures |r| <= |line| && r == line[..|r|]
  {
    if |line| >= 2 && line[|line| - 2..] == "\r\n" then line[..|line| - 2]
    else if |line| >= 1 && IsLineBoundary(line[|line| - 1]) then line[..|line| - 1]
    else line
  }

  /** `str.splitlines()`. */
  function SplitLines(s: string): (lines: seq<string>)
    ensures |lines| == |SplitLinesKeep(s)|
    ensures forall i :: 0 <= i < |lines| ==> lines[i] == StripTerminator(SplitLinesKeep(s)[i])
  {
    var ks := SplitLinesKeep(s);
    seq(|ks|, i requires 0 <= i < |ks| => StripTerminator(ks[i]))
  }

  lemma {:induction false} ConcatAppend(a: seq<string>, b: seq<string>)
    ensures Concat(a + b) == Concat(a) + Concat(b)
  {
    if |a| == 0 {
      assert a + b == b;
    } else {
      ConcatAppend(a[1..], b);
      assert (a + b)[1..] == a[1..] + b;
    }
  }

  /** Cutting a text's lines in three places cuts the text itself. */
  lemma SplitAt(lines: seq<string>, i: nat, j: nat)
    requires i <= j <= |lines|
    ensures Concat(lines) == Concat(lines[..i]) + Concat(lines[i..j]) + Concat(lines[j..])
  {
    var front := lines[..j];
    assert lines == front + lines[j..];
    ConcatAppend(front, lines[j..]);
    assert front == lines[..i] + lines[i..j];
    ConcatAppend(lines[..i], lines[i..j]);
  }

  // ------------------------------------------------------------- pieces

  /** `sep.join(parts)`. */
  function Join(sep: string, parts: seq<string>): (r: string)
    ensures |parts| == 0 ==> r == ""
  {
    if |parts| == 0 then ""
    else if |parts| == 1 then parts[0]
    else parts[0] + sep + Join(sep, parts[1..])
  }

  function Sum(ns: seq<nat>): nat
  {
    if |ns| == 0 then 0 else ns[0] + Sum(ns[1..])
  }

  function Lengths(parts: seq<string>): (ns: seq<nat>)
    ensures |ns| == |parts| && forall i :: 0 <= i < |parts| ==> ns[i] == |parts[i]|
  {
    seq(|parts|, i requires 0 <= i < |parts| => |parts[i]|)
  }

  /** A join is as long as its parts and the separators between them. */
  lemma {:induction false} JoinLength(sep: string, parts: seq<string>)
    requires |parts| > 0
    ensures |Join(sep, parts)| == Sum(Lengths(parts)) + (|parts| - 1) * |sep|
  {
    if |parts| > 1 {
      JoinLength(sep, parts[1..]);
      assert Lengths(parts[1..]) == Lengths(parts)[1..];
    }
  }

  function Repeat(c: char, n: nat): (r: string)
    ensures |r| == n && forall i :: 0 <= i < n ==> r[i] == c
  {
    if n == 0 then "" else [c] + Repeat(c, n - 1)
  }

  /** `s.ljust(width)`: padded with spaces to `width`, never cut. */
  function Ljust(s: string, width: nat): (r: string)
    ensures |r| == if |s| < width then width else |s|
    ensures r[..|s|] == s && forall i :: |s| <= i < |r| ==> r[i] == ' '
  {
    if |s| < width then s + Repeat(' ', width - |s|) else s
  }

  /** `s.split(sep, 1)[0]` for a one-character separator: the text before
      its first occurrence. */
  function BeforeFirst(s: string, c: char): (r: string)
    ensures |r| <= |s| && r == s[..|r|]
    ensures forall i :: 0 <= i < |r| ==> r[i] != c
    ensures |r| < |s| ==> s[|r|] == c
  {
    if |s| == 0 || s[0] == c then "" else [s[0]] + BeforeFirst(s[1..], c)
  }

  predicate EndsWith(s: string, suffix: string)
  {
    |suffix| <= |s| && s[|s| - |suffix|..] == suffix
  }

  // ------------------------------------------------------------ sorting

  /** Python's order on strings: code point by code point, a proper prefix
      first. */
  predicate StrLe(a: string, b: string)
  {
    if |a| == 0 then true
    else if |b| == 0 then false
    else if a[0] != b[0] then a[0] < b[0]
    else StrLe(a[1..], b[1..])
  }

  lemma {:induction false} StrLeTotal(a: string, b: string)
    ensures StrLe(a, b) || StrLe(b, a)
  {
    if |a| > 0 && |b| > 0 && a[0] == b[0] {
      StrLeTotal(a[1..], b[1..]);
    }
  }

  lemma {:induction false} StrLeAntisymmetric(a: string, b: string)
    requires StrLe(a, b) && StrLe(b, a)
    ensures a == b
  {
    if |a| > 0 && |b| > 0 {
      StrLeAntisymmetric(a[1..], b[1..]);
      assert a == [a[0]] + a[1..] && b == [b[0]] + b[1..];
    }
  }

  predicate Sorted(s: seq<string>)
  {
    forall i :: 0 <= i < |s| - 1 ==> StrLe(s[i], s[i + 1])
  }

  function InsertSorted(x: string, s: seq<string>): (r: seq<string>)
    requires Sorted(s)
    ensures Sorted(r) && multiset(r) == multiset(s) + multiset{x} && |r| == |s| + 1
    ensures |r| > 0 && (r[0] == x || (|s| > 0 && r[0] == s[0]))
  {
    if |s| == 0 then [x]
    else if StrLe(x, s[0]) then [x] + s
    else
      StrLeTotal(x, s[0]);
      var t := InsertSorted(x, s[1..]);
      assert s == [s[0]] + s[1..];
      [s[0]] + t
  }

  /** `sorted`: the same strings in ascending order. */
  function Sort(s: seq<string>): (r: seq<string>)
    ensures Sorted(r) && multiset(r) == multiset(s) && |r| == |s|
  {
    if |s| == 0 then []
    else
      var n := |s| - 1;
      assert s == s[..n] + [s[n]];
      InsertSorted(s[n], Sort(s[..n]))
  }

  /** A sorted arrangement of a multiset of strings is the only one:
      `sorted` is fully determined by what it sorts. */
  lemma {:induction false} SortedUnique(a: seq<string>, b: seq<string>)
    requires Sorted(a) && Sorted(b) && multiset(a) == multiset(b)
    ensures a == b
    decreases |a|
  {
    if |a| > 0 {
      assert |b| > 0 by {
        assert |multiset(a)| == |a|;
      }
      SortedHeads(a, b);
      assert a == [a[0]] + a[1..] && b == [b[0]] + b[1..];
      assert multiset(a) == multiset{a[0]} + multiset(a[1..]);
      assert multiset(b) == multiset{b[0]} + multiset(b[1..]);
      assert multiset(a[1..]) == multiset(a) - multiset{a[0]};
      assert multiset(b[1..]) == multiset(b) - multiset{b[0]};
      SortedTail(a);
      SortedTail(b);
      SortedUnique(a[1..], b[1..]);
    }
  }

  /** Two sorted arrangements of the same strings start alike. */
  lemma SortedHeads(a: seq<string>, b: seq<string>)
    requires Sorted(a) && Sorted(b) && multiset(a) == multiset(b) && |a| > 0 && |b| > 0
    ensures a[0] == b[0]
  {
    assert a[0] in multiset(a) && b[0] in multiset(b);
    assert a[0] in b && b[0] in a;
    var i :| 0 <= i < |b| && b[i] == a[0];
    var j :| 0 <= j < |a| && a[j] == b[0];
    SortedFirstLeast(a, j);
    SortedFirstLeast(b, i);
    StrLeAntisymmetric(a[0], b[0]);
  }

  lemma SortedTail(s: seq<string>)
    requires Sorted(s) && |s| > 0
    ensures Sorted(s[1..])
  {
    forall k | 0 <= k < |s[1..]| - 1
      ensures StrLe(s[1..][k], s[1..][k + 1])
    {
      assert s[1..][k] == s[k + 1] && s[1..][k + 1] == s[k + 2];
    }
  }

  lemma {:induction false} SortedFirstLeast(s: seq<string>, i: nat)
    requires Sorted(s) && i < |s|
    ensures StrLe(s[0], s[i])
    decreases i
  {
    if i > 0 {
      SortedFirstLeast(s, i - 1);
      StrLeTransitive(s[0], s[i - 1], s[i]);
    } else {
      StrLeReflexive(s[0]);
    }
  }

  lemma {:induction false} StrLeReflexive(a: string)
    ensures StrLe(a, a)
  {
    if |a| > 0 {
      StrLeReflexive(a[1..]);
    }
  }

  lemma {:induction false} StrLeTransitive(a: string, b: string, c: string)
    requires StrLe(a, b) && StrLe(b, c)
    ensures StrLe(a, c)
  {
    if |a| > 0 && |b| > 0 && |c| > 0 && a[0] == b[0] && b[0] == c[0] {
      StrLeTransitive(a[1..], b[1..], c[1..]);
    }
  }
}
