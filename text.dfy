// Character and string helpers the library leans on: ASCII case folding,
// whitespace trimming (Rust's and Python's), prefix tests, substring
// search, decimal and hexadecimal rendering, and UTF-8 encoding.
module Text {
  import opened Wrappers
  import opened Values

  // ---------------------------------------------------------------- case

  function ToAsciiLower(c: char): char
  {
    if 'A' <= c <= 'Z' then (c as int + 32) as char else c
  }

  /** `str::to_ascii_lowercase`: only the letters A-Z change. */
  function AsciiLower(s: string): (r: string)
    ensures |r| == |s|
    ensures forall i :: 0 <= i < |s| ==> r[i] == ToAsciiLower(s[i])
  {
    if |s| == 0 then "" else [ToAsciiLower(s[0])] + AsciiLower(s[1..])
  }

  lemma {:induction false} AsciiLowerIdempotent(s: string)
    ensures AsciiLower(AsciiLower(s)) == AsciiLower(s)
  {
    var l := AsciiLower(s);
    assert forall i :: 0 <= i < |l| ==> ToAsciiLower(l[i]) == l[i];
  }

  /** `s` holds no letter A-Z. */
  predicate NoUpper(s: string)
  {
    forall i :: 0 <= i < |s| ==> !('A' <= s[i] <= 'Z')
  }

  lemma NoUpperFixed(s: string)
    requires NoUpper(s)
    ensures AsciiLower(s) == s
  {
  }

  lemma AsciiLowerConcat(a: string, b: string)
    ensures AsciiLower(a + b) == AsciiLower(a) + AsciiLower(b)
  {
    assert forall i :: 0 <= i < |a| ==> (a + b)[i] == a[i];
    assert forall i :: |a| <= i < |a| + |b| ==> (a + b)[i] == b[i - |a|];
  }

  /** A prefix without capitals survives lower-casing as it is. */
  lemma LowerKeepsPrefix(p: string, s: string)
    requires NoUpper(p)
    ensures AsciiLower(p + s) == p + AsciiLower(s)
  {
    AsciiLowerConcat(p, s);
    NoUpperFixed(p);
  }

  /** `str::eq_ignore_ascii_case`. */
  predicate EqIgnoreAsciiCase(a: string, b: string)
  {
    AsciiLower(a) == AsciiLower(b)
  }

  /** `iter().any(|e| e.eq_ignore_ascii_case(x))`. */
  predicate AnyEqIgnoreCase(es: seq<string>, x: string)
  {
    |es| > 0 && (EqIgnoreAsciiCase(es[0], x) || AnyEqIgnoreCase(es[1..], x))
  }

  /** The search succeeds exactly when some element folds to what `x`
      folds to. */
  lemma {:induction false} AnyEqIgnoreCaseMeaning(es: seq<string>, x: string)
    ensures AnyEqIgnoreCase(es, x) <==> exists e :: e in es && AsciiLower(e) == AsciiLower(x)
  {
    if |es| > 0 {
      AnyEqIgnoreCaseMeaning(es[1..], x);
      assert es == [es[0]] + es[1..];
      if EqIgnoreAsciiCase(es[0], x) {
        assert es[0] in es;
      } else {
        forall e | e in es && AsciiLower(e) == AsciiLower(x)
          ensures e in es[1..]
        {
          assert e != es[0];
        }
      }
    }
  }

  /** Among lower-case elements, searching for a lower-case `x` is
      membership. */
  lemma AnyEqIgnoreCaseLower(es: seq<string>, x: string)
    requires forall e :: e in es ==> AsciiLower(e) == e
    requires AsciiLower(x) == x
    ensures AnyEqIgnoreCase(es, x) <==> x in es
  {
    AnyEqIgnoreCaseMeaning(es, x);
  }

  // ---------------------------------------------------------- whitespace

  /** Which language's notion of white space a trim follows. */
  datatype Blanks = RustBlanks | PythonBlanks

  /** Rust's `char::is_whitespace` (the Unicode White_Space property);
      Python's `str.isspace` adds the four information separators. */
  predicate IsBlank(kind: Blanks, c: char)
  {
    c == ' ' || ('\t' <= c <= '\r') || c == '\U{85}' || c == '\U{A0}'
    || c == '\U{1680}' || ('\U{2000}' <= c <= '\U{200A}') || c == '\U{2028}'
    || c == '\U{2029}' || c == '\U{202F}' || c == '\U{205F}' || c == '\U{3000}'
    || (kind == PythonBlanks && '\U{1C}' <= c <= '\U{1F}')
  }

  /** The first position at or after `k` that does not hold a blank. */
  function BlankRun(kind: Blanks, s: string, k: nat): (n: nat)
    requires k <= |s|
    ensures k <= n <= |s|
    ensures forall i :: k <= i < n ==> IsBlank(kind, s[i])
    ensures n < |s| ==> !IsBlank(kind, s[n])
    decreases |s| - k
  {
    if k < |s| && IsBlank(kind, s[k]) then BlankRun(kind, s, k + 1) else k
  }

  /** The end of `s[..k]` once its trailing blanks are cut. */
  function ContentEnd(kind: Blanks, s: string, k: nat): (n: nat)
    requires k <= |s|
    ensures n <= k
    ensures forall i :: n <= i < k ==> IsBlank(kind, s[i])
    ensures n > 0 ==> !IsBlank(kind, s[n - 1])
  {
    if k > 0 && IsBlank(kind, s[k - 1]) then ContentEnd(kind, s, k - 1) else k
  }

  /** `trim_start` / `lstrip`. */
  function TrimStart(kind: Blanks, s: string): (r: string)
    ensures |r| <= |s| && r == s[|s| - |r|..]
    ensures forall i :: 0 <= i < |s| - |r| ==> IsBlank(kind, s[i])
    ensures |r| > 0 ==> !IsBlank(kind, r[0])
  {
    s[BlankRun(kind, s, 0)..]
  }

  /** `trim_end` / `rstrip`. */
  function TrimEnd(kind: Blanks, s: string): (r: string)
    ensures |r| <= |s| && r == s[..|r|]
    ensures forall i :: |r| <= i < |s| ==> IsBlank(kind, s[i])
    ensures |r| > 0 ==> !IsBlank(kind, r[|r| - 1])
  {
    s[..ContentEnd(kind, s, |s|)]
  }

  /** `r` is `s` with `k` blanks cut from the front and only blanks cut
      from the back. */
  predicate TrimmedAt(kind: Blanks, s: string, k: int, r: string)
  {
    0 <= k && k + |r| <= |s| && r == s[k..k + |r|]
    && (forall i :: 0 <= i < k ==> IsBlank(kind, s[i]))
    && (forall i :: k + |r| <= i < |s| ==> IsBlank(kind, s[i]))
  }

  /** `trim` / `strip`: both ends. */
  function Trim(kind: Blanks, s: string): (r: string)
    ensures |r| <= |s|
    ensures |r| > 0 ==> !IsBlank(kind, r[0]) && !IsBlank(kind, r[|r| - 1])
  {
    TrimEnd(kind, TrimStart(kind, s))
  }

  /** What `Trim` leaves is a slice of its input with only blanks cut
      from either end. */
  lemma TrimIsSlice(kind: Blanks, s: string)
    ensures TrimmedAt(kind, s, |s| - |TrimStart(kind, s)|, Trim(kind, s))
  {
    var t := TrimStart(kind, s);
    var k := |s| - |t|;
    var r := TrimEnd(kind, t);
    assert Trim(kind, s) == r;
    assert r == s[k..k + |r|] by {
      assert t == s[k..];
      assert r == t[..|r|];
    }
    TailHolds(s, k, |r|, c => IsBlank(kind, c));
  }

  /** What holds past `n` in the slice from `k` holds past `k + n` in the
      whole. */
  lemma TailHolds(s: string, k: nat, n: nat, p: char -> bool)
    requires k + n <= |s|
    requires forall j :: n <= j < |s| - k ==> p(s[k..][j])
    ensures forall i :: k + n <= i < |s| ==> p(s[i])
  {
    forall i | k + n <= i < |s|
      ensures p(s[i])
    {
      assert s[i] == s[k..][i - k];
    }
  }

  lemma TrimOfUnpadded(kind: Blanks, s: string)
    requires |s| > 0 ==> !IsBlank(kind, s[0]) && !IsBlank(kind, s[|s| - 1])
    ensures Trim(kind, s) == s
  {
  }

  // ------------------------------------------------------------- search

  predicate StartsWith(s: string, prefix: string)
  {
    |prefix| <= |s| && s[..|prefix|] == prefix
  }

  predicate OccursAt(s: string, pat: string, j: int)
  {
    0 <= j && j + |pat| <= |s| && s[j..j + |pat|] == pat
  }

  /** `str::find`: the first position at which `pat` occurs. */
  function Find(s: string, pat: string): (r: Option<nat>)
    ensures r.Some? ==> OccursAt(s, pat, r.value)
    ensures r.Some? ==> forall j :: 0 <= j < r.value ==> !OccursAt(s, pat, j)
    ensures r.None? ==> forall j :: 0 <= j <= |s| ==> !OccursAt(s, pat, j)
  {
    FindFrom(s, pat, 0)
  }

  function FindFrom(s: string, pat: string, k: nat): (r: Option<nat>)
    requires k <= |s|
    ensures r.Some? ==> k <= r.value && OccursAt(s, pat, r.value)
    ensures r.Some? ==> forall j :: k <= j < r.value ==> !OccursAt(s, pat, j)
    ensures r.None? ==> forall j :: k <= j <= |s| ==> !OccursAt(s, pat, j)
    decreases |s| - k
  {
    if OccursAt(s, pat, k) then Some(k)
    else if k == |s| then None
    else FindFrom(s, pat, k + 1)
  }

  /** The position of the last occurrence of `c`. */
  function LastIndexOf(s: string, c: char): (r: Option<nat>)
    ensures r.Some? ==> r.value < |s| && s[r.value] == c
    ensures r.Some? ==> forall j :: r.value < j < |s| ==> s[j] != c
    ensures r.None? ==> forall j :: 0 <= j < |s| ==> s[j] != c
  {
    if |s| == 0 then None
    else if s[|s| - 1] == c then Some(|s| - 1)
    else LastIndexOf(s[..|s| - 1], c)
  }

  /** An occurrence with none after it is the last one. */
  lemma LastIndexAt(s: string, c: char, i: nat)
    requires i < |s| && s[i] == c
    requires forall j :: i < j < |s| ==> s[j] != c
    ensures LastIndexOf(s, c) == Some(i)
  {
  }

  // ------------------------------------------------------------ numerals

  function DigitChar(d: nat): char
    requires d < 16
  {
    if d < 10 then ('0' as int + d) as char else ('a' as int + d - 10) as char
  }

  /** `{}` of an unsigned integer: its decimal digits. */
  function NatToString(n: nat): (r: string)
    ensures |r| > 0
    ensures forall i :: 0 <= i < |r| ==> '0' <= r[i] <= '9'
    decreases n
  {
    if n < 10 then [DigitChar(n)] else NatToString(n / 10) + [DigitChar(n % 10)]
  }

  /** Reads decimal digits back; the partner of `NatToString`. */
  function ParseDecimal(s: string): nat
    requires forall i :: 0 <= i < |s| ==> '0' <= s[i] <= '9'
  {
    if |s| == 0 then 0
    else 10 * ParseDecimal(s[..|s| - 1]) + (s[|s| - 1] as int - '0' as int)
  }

  lemma {:induction false} DecimalRoundTrip(n: nat)
    ensures ParseDecimal(NatToString(n)) == n
    decreases n
  {
    if n >= 10 {
      var r := NatToString(n);
      assert r[..|r| - 1] == NatToString(n / 10);
      DecimalRoundTrip(n / 10);
    }
  }

  /** `{:0w x}`: exactly `width` lower-case hexadecimal digits of `n`
      (the low digits when `n` needs more). */
  function Hex(n: nat, width: nat): (r: string)
    ensures |r| == width
    ensures forall i :: 0 <= i < |r| ==> ('0' <= r[i] <= '9' || 'a' <= r[i] <= 'f')
  {
    if width == 0 then "" else Hex(n / 16, width - 1) + [DigitChar(n % 16)]
  }

  // --------------------------------------------------------------- UTF-8

  /** The UTF-8 bytes of one scalar value. */
  function EncodeChar(c: char): (r: Bytes)
    ensures 1 <= |r| <= 4
    ensures (c as int < 0x80) <==> |r| == 1
  {
    var v := c as int;
    if v < 0x80 then [v as byte]
    else if v < 0x800 then [(0xC0 + v / 0x40) as byte, (0x80 + v % 0x40) as byte]
    else if v < 0x10000 then
      [(0xE0 + v / 0x1000) as byte, (0x80 + (v / 0x40) % 0x40) as byte, (0x80 + v % 0x40) as byte]
    else
      [(0xF0 + v / 0x40000) as byte, (0x80 + (v / 0x1000) % 0x40) as byte,
       (0x80 + (v / 0x40) % 0x40) as byte, (0x80 + v % 0x40) as byte]
  }

  /** `String::into_bytes`. */
  function Utf8(s: string): (r: Bytes)
    ensures |r| >= |s|
    ensures (forall i :: 0 <= i < |s| ==> s[i] as int < 0x80) ==> |r| == |s|
  {
    if |s| == 0 then [] else EncodeChar(s[0]) + Utf8(s[1..])
  }

  lemma {:induction false} Utf8Concat(a: string, b: string)
    ensures Utf8(a + b) == Utf8(a) + Utf8(b)
  {
    if |a| > 0 {
      assert (a + b)[1..] == a[1..] + b;
      Utf8Concat(a[1..], b);
    } else {
      assert a + b == b;
    }
  }
}
