/**
 * The text of a log file: a five-line header, a blank line and one
 * "<seconds> s, <latency> ms" line per listed sample, or a two-line body when
 * nothing is listed. Both the automatic log and the manual export use it.
 */
module LogFormat {
  import opened Wrappers
  import opened Decimal
  import opened Samples

  /** The probed host, fixed in the program. */
  const Target: string := "google.com"

  /** One line of text: `s` followed by a line break. */
  function Line(s: string): string {
    s + "\n"
  }

  function SampleLine(x: Sample): string {
    Line(FromNat(RoundSecs(x.elapsedMs)) + " s, " + FromNat(x.latencyMs) + " ms")
  }

  /** The sample lines in stored order. */
  function SampleLines(xs: seq<Sample>): string {
    if xs == [] then "" else SampleLines(xs[..|xs| - 1]) + SampleLine(xs[|xs| - 1])
  }

  /** The five header lines and the blank line that separates them from the samples. */
  function Header(created: string, average: nat, longest: nat, total: nat): string {
    Line("Log Created: " + created)
    + Line("Ping Target: " + Target)
    + Line("Average Response Time: " + FromNat(average) + " ms")
    + Line("Longest Response Time: " + FromNat(longest) + " ms")
    + Line("Total Data Sent: " + FromNat(total) + " bytes")
    + Line("")
  }

  function NoDataBody(created: string): string {
    Line("Log Created: " + created) + "No data to log."
  }

  /** The log text for the listed samples `xs` (before `writeln!` adds its newline). */
  function LogContent(created: string, average: nat, longest: nat, total: nat, xs: seq<Sample>): string {
    if xs == [] then NoDataBody(created) else Header(created, average, longest, total) + SampleLines(xs)
  }

  /** The number of line breaks in `s`. */
  function Newlines(s: string): nat {
    if s == [] then 0 else (if s[0] == '\n' then 1 else 0) + Newlines(s[1..])
  }

  lemma {:induction false} NewlinesAppend(a: string, b: string)
    ensures Newlines(a + b) == Newlines(a) + Newlines(b)
  {
    if a == [] {
      assert a + b == b;
    } else {
      assert (a + b)[1..] == a[1..] + b;
      NewlinesAppend(a[1..], b);
    }
  }

  lemma {:induction false} NoBreakCount(s: string)
    requires '\n' !in s
    ensures Newlines(s) == 0
  {
    if s != [] {
      assert s[0] != '\n';
      assert forall c :: c in s[1..] ==> c in s;
      NoBreakCount(s[1..]);
    }
  }

  lemma NumeralHasNoNewline(n: nat)
    ensures '\n' !in FromNat(n)
  {
  }

  /** A line of text whose own text holds no break counts as exactly one. */
  lemma LineCount(s: string)
    requires '\n' !in s
    ensures Newlines(Line(s)) == 1
  {
    NoBreakCount(s);
    NewlinesAppend(s, "\n");
  }

  lemma SampleLineIsOneLine(x: Sample)
    ensures Newlines(SampleLine(x)) == 1
  {
    NumeralHasNoNewline(RoundSecs(x.elapsedMs));
    NumeralHasNoNewline(x.latencyMs);
    LineCount(FromNat(RoundSecs(x.elapsedMs)) + " s, " + FromNat(x.latencyMs) + " ms");
  }

  lemma {:induction false} SampleLinesCount(xs: seq<Sample>)
    ensures Newlines(SampleLines(xs)) == |xs|
    decreases |xs|
  {
    if xs != [] {
      SampleLinesCount(xs[..|xs| - 1]);
      SampleLineIsOneLine(xs[|xs| - 1]);
      NewlinesAppend(SampleLines(xs[..|xs| - 1]), SampleLine(xs[|xs| - 1]));
    }
  }

  lemma CreatedLineCount(created: string)
    requires '\n' !in created
    ensures Newlines(Line("Log Created: " + created)) == 1
  {
    LineCount("Log Created: " + created);
  }

  lemma TargetLineCount()
    ensures Newlines(Line("Ping Target: " + Target)) == 1
  {
    LineCount("Ping Target: " + Target);
  }

  /** A labelled number (`name`, the numeral of `n`, `unit`) fills one line. */
  lemma NumberLineCount(name: string, n: nat, unit: string)
    requires '\n' !in name && '\n' !in unit
    ensures Newlines(Line(name + FromNat(n) + unit)) == 1
  {
    NumeralHasNoNewline(n);
    LineCount(name + FromNat(n) + unit);
  }

  lemma HeaderLineCount(created: string, average: nat, longest: nat, total: nat)
    requires '\n' !in created
    ensures Newlines(Header(created, average, longest, total)) == 6
  {
    var l0, l1 := Line("Log Created: " + created), Line("Ping Target: " + Target);
    var l2 := Line("Average Response Time: " + FromNat(average) + " ms");
    var l3 := Line("Longest Response Time: " + FromNat(longest) + " ms");
    var l4 := Line("Total Data Sent: " + FromNat(total) + " bytes");
    CreatedLineCount(created);
    TargetLineCount();
    NumberLineCount("Average Response Time: ", average, " ms");
    NumberLineCount("Longest Response Time: ", longest, " ms");
    NumberLineCount("Total Data Sent: ", total, " bytes");
    LineCount("");
    NewlinesAppend(l0, l1);
    NewlinesAppend(l0 + l1, l2);
    NewlinesAppend(l0 + l1 + l2, l3);
    NewlinesAppend(l0 + l1 + l2 + l3, l4);
    NewlinesAppend(l0 + l1 + l2 + l3 + l4, Line(""));
  }

  lemma NoDataLineCount(created: string)
    requires '\n' !in created
    ensures Newlines(NoDataBody(created)) == 1
  {
    CreatedLineCount(created);
    NoBreakCount("No data to log.");
    NewlinesAppend(Line("Log Created: " + created), "No data to log.");
  }

  /**
   * Counted in line breaks (for a creation stamp on one line): the empty log
   * is two lines; otherwise five header lines and a blank line come before
   * exactly one line per listed sample.
   */
  lemma LogLineCount(created: string, average: nat, longest: nat, total: nat, xs: seq<Sample>)
    requires '\n' !in created
    ensures Newlines(LogContent(created, average, longest, total, xs)) == if xs == [] then 1 else 6 + |xs|
  {
    if xs == [] {
      NoDataLineCount(created);
    } else {
      HeaderLineCount(created, average, longest, total);
      SampleLinesCount(xs);
      NewlinesAppend(Header(created, average, longest, total), SampleLines(xs));
    }
  }

  /** Listing one more sample adds its line at the end. */
  lemma SampleLinesSnoc(xs: seq<Sample>, i: nat)
    requires i < |xs|
    ensures SampleLines(xs[..i + 1]) == SampleLines(xs[..i]) + SampleLine(xs[i])
  {
    assert xs[..i + 1][..i] == xs[..i];
  }

  /** The render loop: appends one line per sample to `prefix`, in stored order. */
  method PushSampleLines(prefix: string, xs: seq<Sample>) returns (content: string)
    ensures content == prefix + SampleLines(xs)
  {
    content := prefix;
    for i := 0 to |xs|
      invariant content == prefix + SampleLines(xs[..i])
    {
      SampleLinesSnoc(xs, i);
      content := content + SampleLine(xs[i]);
    }
    assert xs[..|xs|] == xs;
  }

  /** Builds the log text: the no-data body, or the header followed by the render loop's lines. */
  method RenderLog(created: string, average: nat, longest: nat, total: nat, xs: seq<Sample>)
    returns (content: string)
    ensures content == LogContent(created, average, longest, total, xs)
  {
    if xs == [] {
      content := NoDataBody(created);
    } else {
      content := PushSampleLines(Header(created, average, longest, total), xs);
    }
  }

  /** A sample line as a reader of the log sees it. */
  datatype Row = Row(seconds: nat, latencyMs: nat)

  function RowOf(x: Sample): Row {
    Row(RoundSecs(x.elapsedMs), x.latencyMs)
  }

  function RowsOf(xs: seq<Sample>): seq<Row> {
    if xs == [] then [] else [RowOf(xs[0])] + RowsOf(xs[1..])
  }

  /** Reads one "<n> s, <m> ms\n" line off the front of `s`. */
  function ParseLine(s: string): (r: Option<(Row, string)>)
    ensures r.Some? ==> |r.value.1| < |s|
  {
    var (secs, r1) := ReadNat(s, 0);
    if |r1| == |s| || |r1| < 4 || r1[..4] != " s, " then None
    else
      var (latency, r2) := ReadNat(r1[4..], 0);
      if |r2| == |r1| - 4 || |r2| < 4 || r2[..4] != " ms\n" then None
      else Some((Row(secs, latency), r2[4..]))
  }

  /** Reads a whole run of sample lines. */
  function ParseLines(s: string): Option<seq<Row>>
    decreases |s|
  {
    if s == [] then Some([])
    else
      match ParseLine(s)
      case None => None
      case Some((row, rest)) =>
        match ParseLines(rest)
        case None => None
        case Some(rows) => Some([row] + rows)
  }

  lemma ParseSampleLine(x: Sample, t: string)
    ensures ParseLine(SampleLine(x) + t) == Some((RowOf(x), t))
  {
    var a, b := FromNat(RoundSecs(x.elapsedMs)), FromNat(x.latencyMs);
    var tail2 := " ms\n" + t;
    var tail1 := " s, " + b + tail2;
    assert SampleLine(x) + t == a + tail1;
    ReadFromNat(RoundSecs(x.elapsedMs), tail1);
    assert tail1[..4] == " s, ";
    assert tail1[4..] == b + tail2;
    ReadFromNat(x.latencyMs, tail2);
    assert tail2[..4] == " ms\n";
    assert tail2[4..] == t;
  }

  lemma {:induction false} SampleLinesCons(x: Sample, xs: seq<Sample>)
    ensures SampleLines([x] + xs) == SampleLine(x) + SampleLines(xs)
    decreases |xs|
  {
    var ys := [x] + xs;
    if xs == [] {
      assert ys == [x];
      assert ys[..0] == [];
    } else {
      var front, last := xs[..|xs| - 1], xs[|xs| - 1];
      assert ys[..|ys| - 1] == [x] + front;
      assert ys[|ys| - 1] == last;
      SampleLinesCons(x, front);
      calc {
        SampleLines(ys);
        SampleLines([x] + front) + SampleLine(last);
        (SampleLine(x) + SampleLines(front)) + SampleLine(last);
        SampleLine(x) + (SampleLines(front) + SampleLine(last));
        SampleLine(x) + SampleLines(xs);
      }
    }
  }

  /** Round trip: reading the sample lines back gives each sample's rounded seconds and latency, in order. */
  lemma {:induction false} ParseSampleLines(xs: seq<Sample>)
    ensures ParseLines(SampleLines(xs)) == Some(RowsOf(xs))
    decreases |xs|
  {
    if xs != [] {
      assert xs == [xs[0]] + xs[1..];
      SampleLinesCons(xs[0], xs[1..]);
      ParseSampleLine(xs[0], SampleLines(xs[1..]));
      ParseSampleLines(xs[1..]);
    }
  }

  /**
   * A log that lists samples is the header followed by text that reads back
   * as exactly those samples, one line each, in stored order.
   */
  lemma LogListsSamples(created: string, average: nat, longest: nat, total: nat, xs: seq<Sample>)
    requires xs != []
    ensures var c, h := LogContent(created, average, longest, total, xs), Header(created, average, longest, total);
            |h| <= |c| && c[..|h|] == h && ParseLines(c[|h|..]) == Some(RowsOf(xs))
  {
    var c, h := LogContent(created, average, longest, total, xs), Header(created, average, longest, total);
    assert c[|h|..] == SampleLines(xs);
    ParseSampleLines(xs);
  }
}
