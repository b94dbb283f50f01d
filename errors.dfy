// Error policies, pipeline stages, and the single and aggregate errors
// every operation reports (src/error/mod.rs).
module Errors {
  import opened Text
  import opened FormatKinds

  /** Stop at the first error, or go on and report them all. */
  datatype ErrorPolicy = FastFail | Accumulate

  const DefaultErrorPolicy: ErrorPolicy := Accumulate

  /** Where in the pipeline a failure happened. */
  datatype Stage = ResolveInput | ResolveOutput | Open | Parse | Serialize

  /** `Display for Stage`: the variant's name, a single word that cannot
      close the brackets it is shown in. */
  function StageName(s: Stage): (n: string)
    ensures |n| > 0 && ']' !in n && '\n' !in n
  {
    match s
    case ResolveInput => "ResolveInput"
    case ResolveOutput => "ResolveOutput"
    case Open => "Open"
    case Parse => "Parse"
    case Serialize => "Serialize"
  }

  /** The underlying error a `SingleIoError` carries: a format error, or an
      I/O error with its message. */
  datatype Cause = FormatFailure(err: FormatError) | IoFailure(message: string)

  function CauseText(c: Cause): string
  {
    match c
    case FormatFailure(e) => ErrorText(e)
    case IoFailure(m) => m
  }

  datatype SingleIoError = SingleIoError(stage: Stage, target: string, error: Cause)

  /** `Display for SingleIoError`: `[stage] target: error`. */
  function SingleText(e: SingleIoError): (t: string)
    ensures var n := StageName(e.stage);
            |t| >= |n| + 2 && t[0] == '[' && t[1..|n| + 1] == n && t[|n| + 1] == ']'
    ensures |t| >= |CauseText(e.error)| && t[|t| - |CauseText(e.error)|..] == CauseText(e.error)
  {
    "[" + StageName(e.stage) + "] " + e.target + ": " + CauseText(e.error)
  }

  datatype AggregateError = AggregateError(errors: seq<SingleIoError>)

  /** `AggregateError::single` and `From<SingleIoError>`. */
  function Single(e: SingleIoError): AggregateError
  {
    AggregateError([e])
  }

  predicate IsEmpty(a: AggregateError)
  {
    |a.errors| == 0
  }

  function Len(a: AggregateError): nat
  {
    |a.errors|
  }

  function Header(n: nat): string
  {
    "I/O encountered " + NatToString(n) + " error(s):\n"
  }

  /** The line of the `n`-th error, ended by a line break. */
  function NumberedLine(n: nat, e: SingleIoError): (line: string)
    ensures |line| > 0 && line[|line| - 1] == '\n'
  {
    "  #" + NatToString(n) + ": " + SingleText(e) + "\n"
  }

  /** The lines `line(first, xs[0])`, `line(first + 1, xs[1])`, ... run
      together. */
  function Joined<T>(line: (nat, T) -> string, xs: seq<T>, first: nat): string
  {
    if |xs| == 0 then "" else line(first, xs[0]) + Joined(line, xs[1..], first + 1)
  }

  /** One line per error, numbered from `first`. */
  function NumberedLines(errors: seq<SingleIoError>, first: nat): string
  {
    Joined(NumberedLine, errors, first)
  }

  /** `Display for AggregateError`. */
  function AggregateText(a: AggregateError): (t: string)
    ensures StartsWith(t, Header(|a.errors|))
    ensures |a.errors| == 0 ==> t == Header(0)
  {
    Header(|a.errors|) + NumberedLines(a.errors, 1)
  }

  function CountNewlines(s: string): nat
  {
    if |s| == 0 then 0 else (if s[0] == '\n' then 1 else 0) + CountNewlines(s[1..])
  }

  // ------------------------------------------------------------- lemmas

  /** A single error is an aggregate of length one. */
  lemma SingleIsOne(e: SingleIoError)
    ensures Len(Single(e)) == 1 && !IsEmpty(Single(e)) && Single(e).errors[0] == e
  {
  }

  lemma {:induction false} CountNewlinesConcat(a: string, b: string)
    ensures CountNewlines(a + b) == CountNewlines(a) + CountNewlines(b)
  {
    if |a| == 0 {
      assert a + b == b;
    } else {
      assert (a + b)[1..] == a[1..] + b;
      CountNewlinesConcat(a[1..], b);
    }
  }

  lemma DigitsHaveNoNewline(n: nat)
    ensures CountNewlines(NatToString(n)) == 0
  {
    NoNewlineCount(NatToString(n));
  }

  lemma {:induction false} NoNewlineCount(s: string)
    requires '\n' !in s
    ensures CountNewlines(s) == 0
  {
    if |s| > 0 {
      assert s[0] != '\n';
      assert '\n' !in s[1..] by {
        assert forall i :: 0 <= i < |s[1..]| ==> s[1..][i] == s[i + 1];
      }
      NoNewlineCount(s[1..]);
    }
  }

  /** The numbered lines hold one line break per error when no error's
      own text has one. */
  lemma {:induction false} NumberedLineBreaks(errors: seq<SingleIoError>, first: nat)
    requires forall e :: e in errors ==> CountNewlines(SingleText(e)) == 0
    ensures CountNewlines(NumberedLines(errors, first)) == |errors|
    decreases |errors|
  {
    if |errors| > 0 {
      NumberedLineBreak(first, errors[0]);
      NumberedLineBreaks(errors[1..], first + 1);
      CountNewlinesConcat(NumberedLine(first, errors[0]), NumberedLines(errors[1..], first + 1));
    }
  }

  /** An error's line holds one line break, its last character, when the
      error's own text has none. */
  lemma NumberedLineBreak(n: nat, e: SingleIoError)
    requires CountNewlines(SingleText(e)) == 0
    ensures CountNewlines(NumberedLine(n, e)) == 1
  {
    var d := NatToString(n);
    DigitsHaveNoNewline(n);
    CountNewlinesConcat("  #", d);
    CountNewlinesConcat("  #" + d, ": ");
    CountNewlinesConcat("  #" + d + ": ", SingleText(e));
    CountNewlinesConcat("  #" + d + ": " + SingleText(e), "\n");
  }

  /** Joined lines split around the `i`-th one. */
  lemma {:induction false} JoinedSplit<T>(line: (nat, T) -> string, xs: seq<T>, first: nat, i: nat)
    requires i < |xs|
    ensures Joined(line, xs, first)
            == Joined(line, xs[..i], first) + line(first + i, xs[i]) + Joined(line, xs[i + 1..], first + i + 1)
    decreases i
  {
    var head := line(first, xs[0]);
    var tail := xs[1..];
    if i == 0 {
      assert xs[..0] == [] && tail == xs[i + 1..];
    } else {
      JoinedSplit(line, tail, first + 1, i - 1);
      assert tail[..i - 1] == xs[1..i] && tail[i - 1] == xs[i] && tail[i..] == xs[i + 1..];
      var p := xs[..i];
      assert p[0] == xs[0] && p[1..] == xs[1..i];
    }
  }

  /** The numbered lines split around the `i`-th error's line. */
  lemma NumberedLinesSplit(errors: seq<SingleIoError>, first: nat, i: nat)
    requires i < |errors|
    ensures NumberedLines(errors, first)
            == NumberedLines(errors[..i], first) + NumberedLine(first + i, errors[i])
               + NumberedLines(errors[i + 1..], first + i + 1)
  {
    JoinedSplit(NumberedLine, errors, first, i);
  }

  /** A non-empty run of numbered lines ends with a line break. */
  lemma NumberedLinesEnd(errors: seq<SingleIoError>, first: nat)
    requires |errors| > 0
    ensures var t := NumberedLines(errors, first); |t| > 0 && t[|t| - 1] == '\n'
  {
    var n := |errors| - 1;
    NumberedLinesSplit(errors, first, n);
    assert errors[n + 1..] == [];
  }

  /** The stage tag can be read back from the displayed error: two errors
      shown alike failed at the same stage. */
  lemma SingleTextShowsStage(e1: SingleIoError, e2: SingleIoError)
    requires SingleText(e1) == SingleText(e2)
    ensures e1.stage == e2.stage
  {
  }

  lemma HeaderLineBreaks(n: nat)
    ensures CountNewlines(Header(n)) == 1
  {
    var d := NatToString(n);
    var line := "I/O encountered " + d + " error(s):";
    assert Header(n) == line + "\n";
    assert '\n' !in "I/O encountered ";
    assert '\n' !in " error(s):";
    NoNewlineCount("I/O encountered ");
    NoNewlineCount(" error(s):");
    DigitsHaveNoNewline(n);
    CountNewlinesConcat("I/O encountered ", d);
    CountNewlinesConcat("I/O encountered " + d, " error(s):");
    CountNewlinesConcat(line, "\n");
  }

  /** Line `i + 1` of the aggregate report, counting the header as line
      0, is the `i`-th error's numbered line: `  #<i + 1>: ` and the
      error's own text. It starts after exactly `i + 1` line breaks, holds
      one itself, and the lines of the later errors follow it. */
  lemma {:induction false} AggregateTextLineByLine(a: AggregateError, i: nat)
    requires i < |a.errors|
    requires forall e :: e in a.errors ==> CountNewlines(SingleText(e)) == 0
    ensures var pre := Header(|a.errors|) + NumberedLines(a.errors[..i], 1);
            && CountNewlines(pre) == i + 1 && pre[|pre| - 1] == '\n'
            && AggregateText(a) == pre + NumberedLine(i + 1, a.errors[i]) + NumberedLines(a.errors[i + 1..], i + 2)
            && CountNewlines(NumberedLine(i + 1, a.errors[i])) == 1
  {
    AggregateTextAround(a, i);
    PrefixBreaks(a, i);
    PrefixEndsLine(a, i);
    assert a.errors[i] in a.errors;
    NumberedLineBreak(i + 1, a.errors[i]);
  }

  /** The report split around the `i`-th error's line. */
  lemma AggregateTextAround(a: AggregateError, i: nat)
    requires i < |a.errors|
    ensures AggregateText(a) == Header(|a.errors|) + NumberedLines(a.errors[..i], 1)
                                + NumberedLine(i + 1, a.errors[i]) + NumberedLines(a.errors[i + 1..], i + 2)
  {
    var h := Header(|a.errors|);
    var lines := NumberedLines(a.errors[..i], 1);
    var line := NumberedLine(i + 1, a.errors[i]);
    var rest := NumberedLines(a.errors[i + 1..], i + 2);
    NumberedLinesSplit(a.errors, 1, i);
    assert NumberedLines(a.errors, 1) == lines + line + rest;
    ConcatAssoc(h, lines, line, rest);
  }

  /** The header and the lines before the `i`-th error end with a line
      break. */
  lemma PrefixEndsLine(a: AggregateError, i: nat)
    requires i <= |a.errors|
    ensures var pre := Header(|a.errors|) + NumberedLines(a.errors[..i], 1); |pre| > 0 && pre[|pre| - 1] == '\n'
  {
    var h := Header(|a.errors|);
    var lines := NumberedLines(a.errors[..i], 1);
    if i > 0 {
      NumberedLinesEnd(a.errors[..i], 1);
      assert (h + lines)[|h + lines| - 1] == lines[|lines| - 1];
    } else {
      assert a.errors[..i] == [];
      assert lines == "" && h + lines == h;
    }
  }

  lemma ConcatAssoc(h: string, x: string, y: string, z: string)
    ensures h + (x + y + z) == h + x + y + z
  {
  }

  /** The header and the lines of the first `i` errors hold `i + 1` line
      breaks. */
  lemma PrefixBreaks(a: AggregateError, i: nat)
    requires i <= |a.errors|
    requires forall e :: e in a.errors ==> CountNewlines(SingleText(e)) == 0
    ensures CountNewlines(Header(|a.errors|) + NumberedLines(a.errors[..i], 1)) == i + 1
  {
    HeaderLineBreaks(|a.errors|);
    assert forall e :: e in a.errors[..i] ==> e in a.errors;
    NumberedLineBreaks(a.errors[..i], 1);
    CountNewlinesConcat(Header(|a.errors|), NumberedLines(a.errors[..i], 1));
  }

  /** The aggregate report is a header line followed by exactly one line
      per error, when no error's own text has a line break. */
  lemma {:induction false} AggregateTextLines(a: AggregateError)
    requires forall e :: e in a.errors ==> CountNewlines(SingleText(e)) == 0
    ensures CountNewlines(AggregateText(a)) == 1 + |a.errors|
    ensures StartsWith(AggregateText(a), Header(|a.errors|))
  {
    HeaderLineBreaks(|a.errors|);
    CountNewlinesConcat(Header(|a.errors|), NumberedLines(a.errors, 1));
    NumberedLineBreaks(a.errors, 1);
  }
}
