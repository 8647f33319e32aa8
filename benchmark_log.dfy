/**
 * Throughput extraction from a TensorFlow SageMaker training benchmark log
 * (`_print_results_of_test`).  The log is the list of lines `readlines()`
 * returns.  A CPU log is scanned for lines holding "Total img/sec on ";
 * the figures after "CPU(s):" on those lines are summed, and the summary is
 * the last such line followed by a newline.  A GPU log is scanned for lines
 * holding "images/sec: "; the figures after "images/sec:" are collected and
 * the throughput is the mean of the last 100 of them, with the matching
 * lines (newlines stripped) joined as the summary.  A marked line without a
 * figure, and a GPU log without any marked line, are errors.
 *
 * The specification functions (Samples, CpuResults, GpuResults) describe
 * the whole log at once; the method PrintResultsOfTest is the source's
 * loop, proved to compute exactly what they describe.
 */
module BenchmarkLog {
  import opened Common
  import opened DecimalToken

  const CpuMarker := "Total img/sec on "
  const CpuLabel := "CPU(s):"
  const GpuMarker := "images/sec: "
  const GpuLabel := "images/sec:"
  /** How many of the last GPU samples are averaged. */
  const GpuWindow: nat := 100

  datatype ExtractError =
    | MalformedThroughputLine(line: string)  // a marked line whose figure the pattern does not find
    | NoThroughputSamplesFound               // a GPU log with no marked line

  /** What `_print_results_of_test` returns: the summary text and the aggregate throughput. */
  datatype Report = Report(summary: string, throughput: real)

  /** The figure on a marked line: `float(re.search(...).group("throughput"))`,
      or None where `re.search` finds nothing and `.group` raises. */
  function LineSample(line: string, sub: string): (r: Option<real>)
    ensures r.None? <==> ThroughputToken(line, sub).None?
    ensures r.Some? ==> r.value >= 0.0
  {
    match ThroughputToken(line, sub)
    case None => None
    case Some(t) => Some(TokenValue(t))
  }

  /** The lines of the log that hold `marker`, in log order. */
  function Marked(lines: seq<string>, marker: string): (r: seq<string>)
    ensures |r| <= |lines|
    ensures forall k :: 0 <= k < |r| ==> r[k] in lines && Contains(r[k], marker)
  {
    if lines == [] then []
    else
      var line := lines[|lines| - 1];
      Marked(lines[..|lines| - 1], marker) + if Contains(line, marker) then [line] else []
  }

  /** The figures of the marked lines in log order, or the error raised at the
      first marked line that has none. */
  function Samples(lines: seq<string>, marker: string, sub: string): Result<seq<real>, ExtractError>
  {
    if lines == [] then Ok([])
    else AddLine(Samples(lines[..|lines| - 1], marker, sub), lines[|lines| - 1], marker, sub)
  }

  /** One step of the scan: an earlier error stands, an unmarked line adds
      nothing, a marked line adds its figure or is the error. */
  function AddLine(acc: Result<seq<real>, ExtractError>, line: string, marker: string, sub: string): Result<seq<real>, ExtractError>
  {
    match acc
    case Err(e) => Err(e)
    case Ok(s) =>
      if !Contains(line, marker) then Ok(s)
      else
        match LineSample(line, sub)
        case None => Err(MalformedThroughputLine(line))
        case Some(v) => Ok(s + [v])
  }

  function Sum(xs: seq<real>): real
  {
    if xs == [] then 0.0 else Sum(xs[..|xs| - 1]) + xs[|xs| - 1]
  }

  function Mean(xs: seq<real>): real
    requires xs != []
  {
    Sum(xs) / (|xs| as real)
  }

  /** The CPU summary: the last marked line and a newline, or "" when there is none. */
  function CpuSummary(marked: seq<string>): string
  {
    if marked == [] then "" else marked[|marked| - 1] + "\n"
  }

  function CpuResults(lines: seq<string>): Result<Report, ExtractError>
  {
    match Samples(lines, CpuMarker, CpuLabel)
    case Err(e) => Err(e)
    case Ok(s) => Ok(Report(CpuSummary(Marked(lines, CpuMarker)), Sum(s)))
  }

  /** `[line.strip("\n") for line in lines]` */
  function StripAll(lines: seq<string>): (r: seq<string>)
    ensures |r| == |lines|
    ensures forall k :: 0 <= k < |r| ==> r[k] == Strip(lines[k], '\n')
  {
    if lines == [] then []
    else StripAll(lines[..|lines| - 1]) + [Strip(lines[|lines| - 1], '\n')]
  }

  /** The GPU summary: the last 100 marked lines, stripped, joined by newlines, with a final newline. */
  function GpuSummary(marked: seq<string>): string
  {
    Join(KeepLast(StripAll(marked), GpuWindow), '\n') + "\n"
  }

  function GpuResults(lines: seq<string>): Result<Report, ExtractError>
  {
    match Samples(lines, GpuMarker, GpuLabel)
    case Err(e) => Err(e)
    case Ok(s) =>
      if s == [] then Err(NoThroughputSamplesFound)
      else Ok(Report(GpuSummary(Marked(lines, GpuMarker)), Mean(KeepLast(s, GpuWindow))))
  }

  /** The GPU samples that are averaged: the last 100 of a log that reads without error. */
  function GpuWindowSamples(lines: seq<string>): seq<real>
    requires Samples(lines, GpuMarker, GpuLabel).Ok?
  {
    KeepLast(Samples(lines, GpuMarker, GpuLabel).value, GpuWindow)
  }

  /** `_print_results_of_test` on the lines of the log; any processor other
      than "cpu" and "gpu" gives an empty summary and throughput 0. */
  function ResultsOfTest(lines: seq<string>, processor: string): Result<Report, ExtractError>
  {
    if processor == "cpu" then CpuResults(lines)
    else if processor == "gpu" then GpuResults(lines)
    else Ok(Report("", 0.0))
  }

  // ------------------------------------------------------------------
  // The source's loop

  /** `_print_results_of_test`: the CPU loop, the GPU loop, or nothing for another processor. */
  method PrintResultsOfTest(lines: seq<string>, processor: string) returns (r: Result<Report, ExtractError>)
    ensures r == ResultsOfTest(lines, processor)
  {
    if processor == "cpu" {
      r := ScanCpuLog(lines);
    } else if processor == "gpu" {
      r := ScanGpuLog(lines);
    } else {
      r := Ok(Report("", 0.0));
    }
  }

  /** The CPU loop: keep the last marked line, add up the figures, stop at a malformed line. */
  method ScanCpuLog(lines: seq<string>) returns (r: Result<Report, ExtractError>)
    ensures r == CpuResults(lines)
  {
    var result := "";
    var throughput := 0.0;
    var i := 0;
    while i < |lines|
      invariant 0 <= i <= |lines|
      invariant Samples(lines[..i], CpuMarker, CpuLabel).Ok?
      invariant throughput == Sum(Samples(lines[..i], CpuMarker, CpuLabel).value)
      invariant result == CpuSummary(Marked(lines[..i], CpuMarker))
    {
      var line := lines[i];
      ScanStep(lines, i, CpuMarker, CpuLabel);
      if Contains(line, CpuMarker) {
        result := line + "\n";
        var token := ThroughputToken(line, CpuLabel);
        if token.None? {
          ErrorPersists(lines, i + 1, CpuMarker, CpuLabel);
          return Err(MalformedThroughputLine(line));
        }
        throughput := throughput + TokenValue(token.value);
      }
      i := i + 1;
    }
    assert lines[..i] == lines;
    return Ok(Report(result, throughput));
  }

  /** The GPU loop: collect the stripped marked lines and their figures, stop
      at a malformed line, then join the last 100 lines and average the last
      100 figures. */
  method ScanGpuLog(lines: seq<string>) returns (r: Result<Report, ExtractError>)
    ensures r == GpuResults(lines)
  {
    var resultList: seq<string> := [];
    var throughputList: seq<real> := [];
    var i := 0;
    while i < |lines|
      invariant 0 <= i <= |lines|
      invariant Samples(lines[..i], GpuMarker, GpuLabel) == Ok(throughputList)
      invariant resultList == StripAll(Marked(lines[..i], GpuMarker))
    {
      var line := lines[i];
      GpuScanStep(lines, i, resultList, throughputList);
      if Contains(line, GpuMarker) {
        resultList := resultList + [Strip(line, '\n')];
        var token := ThroughputToken(line, GpuLabel);
        if token.None? {
          return Err(MalformedThroughputLine(line));
        }
        throughputList := throughputList + [TokenValue(token.value)];
      }
      i := i + 1;
    }
    assert lines[..i] == lines;
    GpuResultsOfScan(lines, resultList, throughputList);
    var result := Join(KeepLast(resultList, GpuWindow), '\n') + "\n";
    if |throughputList| == 0 {
      return Err(NoThroughputSamplesFound);
    }
    var window := KeepLast(throughputList, GpuWindow);
    var throughput := Sum(window) / (|window| as real);
    return Ok(Report(result, throughput));
  }

  /** What the GPU loop leaves behind determines the GPU result. */
  lemma GpuResultsOfScan(lines: seq<string>, resultList: seq<string>, throughputList: seq<real>)
    requires Samples(lines, GpuMarker, GpuLabel) == Ok(throughputList)
    requires resultList == StripAll(Marked(lines, GpuMarker))
    ensures GpuResults(lines) ==
      if throughputList == [] then Err(NoThroughputSamplesFound)
      else Ok(Report(Join(KeepLast(resultList, GpuWindow), '\n') + "\n", Mean(KeepLast(throughputList, GpuWindow))))
  {
  }

  /** One pass of the GPU loop keeps its invariant, or meets the error of the whole log. */
  lemma GpuScanStep(lines: seq<string>, i: nat, resultList: seq<string>, throughputList: seq<real>)
    requires i < |lines|
    requires Samples(lines[..i], GpuMarker, GpuLabel) == Ok(throughputList)
    requires resultList == StripAll(Marked(lines[..i], GpuMarker))
    ensures var line := lines[i]; var token := ThroughputToken(line, GpuLabel);
      if !Contains(line, GpuMarker) then
        Samples(lines[..i + 1], GpuMarker, GpuLabel) == Ok(throughputList)
        && resultList == StripAll(Marked(lines[..i + 1], GpuMarker))
      else if token.None? then
        GpuResults(lines) == Err(MalformedThroughputLine(line))
      else
        Samples(lines[..i + 1], GpuMarker, GpuLabel) == Ok(throughputList + [TokenValue(token.value)])
        && resultList + [Strip(line, '\n')] == StripAll(Marked(lines[..i + 1], GpuMarker))
  {
    var line := lines[i];
    ScanStep(lines, i, GpuMarker, GpuLabel);
    if Contains(line, GpuMarker) {
      var before := Marked(lines[..i], GpuMarker);
      assert (before + [line])[..|before|] == before;
      if ThroughputToken(line, GpuLabel).None? {
        ErrorPersists(lines, i + 1, GpuMarker, GpuLabel);
      }
    }
  }

  /** One more line of the log is one more step of the scan. */
  lemma ScanStep(lines: seq<string>, i: nat, marker: string, sub: string)
    requires i < |lines|
    ensures Samples(lines[..i + 1], marker, sub) == AddLine(Samples(lines[..i], marker, sub), lines[i], marker, sub)
    ensures Marked(lines[..i + 1], marker) == Marked(lines[..i], marker) + if Contains(lines[i], marker) then [lines[i]] else []
  {
    assert lines[..i + 1][..i] == lines[..i];
  }

  // ------------------------------------------------------------------
  // Properties of the specification

  /** An error at a prefix of the log is the error of the whole log. */
  lemma ErrorPersists(lines: seq<string>, i: nat, marker: string, sub: string)
    requires i <= |lines| && Samples(lines[..i], marker, sub).Err?
    ensures Samples(lines, marker, sub) == Samples(lines[..i], marker, sub)
  {
    SamplesAppend(lines[..i], lines[i..], marker, sub);
    assert lines[..i] + lines[i..] == lines;
  }

  lemma {:induction false} MarkedAppend(a: seq<string>, b: seq<string>, marker: string)
    ensures Marked(a + b, marker) == Marked(a, marker) + Marked(b, marker)
    decreases |b|
  {
    if b != [] {
      var b' := b[..|b| - 1];
      assert (a + b)[..|a + b| - 1] == a + b';
      MarkedAppend(a, b', marker);
    } else {
      assert a + b == a;
    }
  }

  /** Reading two pieces of a log one after the other: the samples concatenate,
      and the first error, if any, wins. */
  lemma {:induction false} SamplesAppend(a: seq<string>, b: seq<string>, marker: string, sub: string)
    ensures Samples(a + b, marker, sub) ==
      match Samples(a, marker, sub)
      case Err(e) => Err(e)
      case Ok(sa) =>
        match Samples(b, marker, sub)
        case Err(e) => Err(e)
        case Ok(sb) => Ok(sa + sb)
    decreases |b|
  {
    if b == [] {
      assert a + b == a;
      if Samples(a, marker, sub).Ok? {
        assert Samples(a, marker, sub).value + [] == Samples(a, marker, sub).value;
      }
    } else {
      var b' := b[..|b| - 1];
      assert (a + b)[..|a + b| - 1] == a + b';
      assert (a + b)[|a + b| - 1] == b[|b| - 1];
      SamplesAppend(a, b', marker, sub);
      if Samples(a, marker, sub).Ok? && Samples(b', marker, sub).Ok? {
        var sa := Samples(a, marker, sub).value;
        var sb := Samples(b', marker, sub).value;
        if Contains(b[|b| - 1], marker) && LineSample(b[|b| - 1], sub).Some? {
          assert sa + sb + [LineSample(b[|b| - 1], sub).value] == sa + (sb + [LineSample(b[|b| - 1], sub).value]);
        }
      }
    }
  }

  /** The samples are the figures of the marked lines, one per line, in log
      order; the result is an error exactly when some marked line has no
      figure, and then it names the first such line. */
  lemma SamplesOfMarkedLines(lines: seq<string>, marker: string, sub: string)
    ensures var m := Marked(lines, marker);
      Samples(lines, marker, sub).Ok? <==> forall k :: 0 <= k < |m| ==> LineSample(m[k], sub).Some?
    ensures var m := Marked(lines, marker);
      Samples(lines, marker, sub).Ok? ==>
        var s := Samples(lines, marker, sub).value;
        |s| == |m| && forall k :: 0 <= k < |m| ==> LineSample(m[k], sub) == Some(s[k])
    ensures var m := Marked(lines, marker);
      Samples(lines, marker, sub).Err? ==>
        exists k :: 0 <= k < |m| && LineSample(m[k], sub).None?
          && Samples(lines, marker, sub).error == MalformedThroughputLine(m[k])
          && forall j :: 0 <= j < k ==> LineSample(m[j], sub).Some?
  {
    if Samples(lines, marker, sub).Ok? {
      OkSamplesOfMarkedLines(lines, marker, sub);
    } else {
      var k := ErrSamplesOfMarkedLines(lines, marker, sub);
      var m := Marked(lines, marker);
      assert !(forall j :: 0 <= j < |m| ==> LineSample(m[j], sub).Some?);
    }
  }

  /** A log that reads gives one sample per marked line. */
  lemma {:induction false} OkSamplesOfMarkedLines(lines: seq<string>, marker: string, sub: string)
    requires Samples(lines, marker, sub).Ok?
    ensures var m := Marked(lines, marker); var s := Samples(lines, marker, sub).value;
      |s| == |m| && forall k :: 0 <= k < |m| ==> LineSample(m[k], sub) == Some(s[k])
  {
    if lines != [] {
      var init := lines[..|lines| - 1];
      var line := lines[|lines| - 1];
      OkSamplesOfMarkedLines(init, marker, sub);
      var mi := Marked(init, marker);
      var si := Samples(init, marker, sub).value;
      if Contains(line, marker) {
        var m := mi + [line];
        var s := si + [LineSample(line, sub).value];
        assert Marked(lines, marker) == m;
        assert Samples(lines, marker, sub).value == s;
        assert forall k :: 0 <= k < |mi| ==> m[k] == mi[k] && s[k] == si[k];
      } else {
        assert Marked(lines, marker) == mi;
      }
    }
  }

  /** A log that does not read fails at its first marked line without a
      figure; `k` is that line's place among the marked lines. */
  lemma {:induction false} ErrSamplesOfMarkedLines(lines: seq<string>, marker: string, sub: string) returns (k: nat)
    requires Samples(lines, marker, sub).Err?
    ensures var m := Marked(lines, marker);
      && k < |m| && LineSample(m[k], sub).None?
      && Samples(lines, marker, sub).error == MalformedThroughputLine(m[k])
      && forall j :: 0 <= j < k ==> LineSample(m[j], sub).Some?
  {
    assert lines != [];
    var init := lines[..|lines| - 1];
    var line := lines[|lines| - 1];
    var mi := Marked(init, marker);
    var m := Marked(lines, marker);
    assert m == mi + if Contains(line, marker) then [line] else [];
    if Samples(init, marker, sub).Err? {
      k := ErrSamplesOfMarkedLines(init, marker, sub);
      assert forall j :: 0 <= j <= k ==> m[j] == mi[j];
      assert Samples(lines, marker, sub) == Samples(init, marker, sub);
    } else {
      OkSamplesOfMarkedLines(init, marker, sub);
      assert Contains(line, marker) && LineSample(line, sub).None?;
      assert m == mi + [line];
      assert forall j :: 0 <= j < |mi| ==> m[j] == mi[j];
      k := |mi|;
    }
  }

  /** Lines without the marker contribute nothing: reading only the marked
      lines gives the same samples. */
  lemma {:induction false} SamplesIgnoreUnmarked(lines: seq<string>, marker: string, sub: string)
    ensures Samples(Marked(lines, marker), marker, sub) == Samples(lines, marker, sub)
  {
    if lines != [] {
      var init := lines[..|lines| - 1];
      var line := lines[|lines| - 1];
      SamplesIgnoreUnmarked(init, marker, sub);
      var mi := Marked(init, marker);
      if Contains(line, marker) {
        assert Marked(lines, marker) == mi + [line];
        assert (mi + [line])[..|mi|] == mi;
      } else {
        assert Marked(lines, marker) == mi;
      }
    }
  }

  /** A log in which every line is marked is its own list of marked lines. */
  lemma {:induction false} MarkedAllMarked(lines: seq<string>, marker: string)
    requires forall k :: 0 <= k < |lines| ==> Contains(lines[k], marker)
    ensures Marked(lines, marker) == lines
  {
    if lines != [] {
      MarkedAllMarked(lines[..|lines| - 1], marker);
      assert lines[..|lines| - 1] + [lines[|lines| - 1]] == lines;
    }
  }

  lemma {:induction false} SumAppend(xs: seq<real>, ys: seq<real>)
    ensures Sum(xs + ys) == Sum(xs) + Sum(ys)
    decreases |ys|
  {
    if ys == [] {
      assert xs + ys == xs;
    } else {
      var ys' := ys[..|ys| - 1];
      assert (xs + ys)[..|xs + ys| - 1] == xs + ys';
      SumAppend(xs, ys');
    }
  }

  lemma {:induction false} SumBetween(xs: seq<real>, lo: real, hi: real)
    requires forall k :: 0 <= k < |xs| ==> lo <= xs[k] <= hi
    ensures (|xs| as real) * lo <= Sum(xs) <= (|xs| as real) * hi
  {
    if xs != [] {
      SumBetween(xs[..|xs| - 1], lo, hi);
    }
  }

  /** CPU: the throughput of a log is the sum of the throughputs of its pieces,
      and a log reads without error exactly when both of its pieces do. */
  lemma CpuThroughputAdds(a: seq<string>, b: seq<string>)
    ensures CpuResults(a + b).Ok? <==> CpuResults(a).Ok? && CpuResults(b).Ok?
    ensures CpuResults(a + b).Ok? ==>
      CpuResults(a + b).value.throughput == CpuResults(a).value.throughput + CpuResults(b).value.throughput
  {
    SamplesAppend(a, b, CpuMarker, CpuLabel);
    if Samples(a, CpuMarker, CpuLabel).Ok? && Samples(b, CpuMarker, CpuLabel).Ok? {
      SumAppend(Samples(a, CpuMarker, CpuLabel).value, Samples(b, CpuMarker, CpuLabel).value);
    }
  }

  /** CPU: the throughput is the sum of the figures of the marked lines, in
      log order. */
  lemma CpuThroughputIsSum(lines: seq<string>)
    requires CpuResults(lines).Ok?
    ensures var m := Marked(lines, CpuMarker); var s := Samples(lines, CpuMarker, CpuLabel).value;
      && |s| == |m|
      && (forall k :: 0 <= k < |m| ==> LineSample(m[k], CpuLabel) == Some(s[k]))
      && CpuResults(lines).value.throughput == Sum(s)
  {
    SamplesOfMarkedLines(lines, CpuMarker, CpuLabel);
  }

  /** Without a marked line there is nothing to read: no samples and no error. */
  lemma {:induction false} NoMarkedNoSamples(lines: seq<string>, marker: string, sub: string)
    requires Marked(lines, marker) == []
    ensures Samples(lines, marker, sub) == Ok([])
  {
    if lines != [] {
      var init := lines[..|lines| - 1];
      assert |Marked(init, marker)| <= |Marked(lines, marker)|;
      NoMarkedNoSamples(init, marker, sub);
    }
  }

  lemma {:induction false} NoneMarked(lines: seq<string>, marker: string)
    requires forall k :: 0 <= k < |lines| ==> !Contains(lines[k], marker)
    ensures Marked(lines, marker) == []
  {
    if lines != [] {
      NoneMarked(lines[..|lines| - 1], marker);
    }
  }

  /** CPU with no marked line: summary "" and throughput 0, and no error. */
  lemma CpuNoMarkedLines(lines: seq<string>)
    requires forall k :: 0 <= k < |lines| ==> !Contains(lines[k], CpuMarker)
    ensures CpuResults(lines) == Ok(Report("", 0.0))
  {
    NoneMarked(lines, CpuMarker);
    NoMarkedNoSamples(lines, CpuMarker, CpuLabel);
  }

  /** CPU with a marked line: the summary is the last marked line plus a newline. */
  lemma CpuSummaryIsLastMarkedLine(lines: seq<string>, k: nat)
    requires k < |lines| && Contains(lines[k], CpuMarker)
    requires forall j :: k < j < |lines| ==> !Contains(lines[j], CpuMarker)
    requires CpuResults(lines).Ok?
    ensures CpuResults(lines).value.summary == lines[k] + "\n"
  {
    var a := lines[..k + 1];
    var b := lines[k + 1..];
    assert a + b == lines;
    MarkedAppend(a, b, CpuMarker);
    assert a == a[..k] + [lines[k]];
  }

  /** GPU with no marked line is an error, not a throughput. */
  lemma GpuNoMarkedLines(lines: seq<string>)
    requires forall k :: 0 <= k < |lines| ==> !Contains(lines[k], GpuMarker)
    ensures GpuResults(lines) == Err(NoThroughputSamplesFound)
  {
    NoneMarked(lines, GpuMarker);
    NoMarkedNoSamples(lines, GpuMarker, GpuLabel);
  }

  /** A marked line without a figure is fatal for either processor: the first
      such line is reported, never read as zero, and for GPU this is reported
      ahead of the missing-samples error. */
  lemma MalformedLineIsFatal(lines: seq<string>, processor: string, k: nat)
    requires processor == "cpu" || processor == "gpu"
    requires k < |lines|
    requires Contains(lines[k], if processor == "cpu" then CpuMarker else GpuMarker)
    requires LineSample(lines[k], if processor == "cpu" then CpuLabel else GpuLabel).None?
    ensures ResultsOfTest(lines, processor).Err?
    ensures ResultsOfTest(lines, processor).error.MalformedThroughputLine?
  {
    var marker := if processor == "cpu" then CpuMarker else GpuMarker;
    var sub := if processor == "cpu" then CpuLabel else GpuLabel;
    var a := lines[..k + 1];
    assert a[..k] + [lines[k]] == a;
    if Samples(a[..k], marker, sub).Ok? {
      assert Samples(a, marker, sub) == Err(MalformedThroughputLine(lines[k]));
    } else {
      ErrorsAreMalformedLines(a[..k], marker, sub);
    }
    ErrorPersists(lines, k + 1, marker, sub);
  }

  /** Reading a log fails only at a malformed line. */
  lemma ErrorsAreMalformedLines(lines: seq<string>, marker: string, sub: string)
    requires Samples(lines, marker, sub).Err?
    ensures Samples(lines, marker, sub).error.MalformedThroughputLine?
  {
    SamplesOfMarkedLines(lines, marker, sub);
  }

  /** GPU: the throughput is the mean of the last min(100, n) samples, in log order. */
  lemma GpuThroughputIsWindowMean(lines: seq<string>)
    requires GpuResults(lines).Ok?
    ensures var s := Samples(lines, GpuMarker, GpuLabel).value; var w := GpuWindowSamples(lines);
      && w != []
      && |w| == (if |s| <= GpuWindow then |s| else GpuWindow)
      && s == s[..|s| - |w|] + w
      && GpuResults(lines).value.throughput == Mean(w)
  {
  }

  /** GPU: the throughput lies between the smallest and largest of the last
      100 samples (so a window of equal samples gives exactly that value). */
  lemma GpuThroughputWithinWindow(lines: seq<string>, lo: real, hi: real)
    requires GpuResults(lines).Ok?
    requires forall k :: 0 <= k < |GpuWindowSamples(lines)| ==> lo <= GpuWindowSamples(lines)[k] <= hi
    ensures lo <= GpuResults(lines).value.throughput <= hi
  {
    GpuThroughputIsWindowMean(lines);
    MeanBetween(GpuWindowSamples(lines), lo, hi);
  }

  lemma MeanBetween(w: seq<real>, lo: real, hi: real)
    requires w != []
    requires forall k :: 0 <= k < |w| ==> lo <= w[k] <= hi
    ensures lo <= Mean(w) <= hi
  {
    var n := |w| as real;
    assert n * lo <= Sum(w) <= n * hi by { SumBetween(w, lo, hi); }
    QuotientBetween(Sum(w), n, lo, hi);
  }

  lemma QuotientBetween(x: real, n: real, lo: real, hi: real)
    requires n > 0.0 && n * lo <= x <= n * hi
    ensures lo <= x / n <= hi
  {
    assert x / n * n == x;
  }

  /** GPU: once the later part of a log holds 100 or more samples, whatever
      comes before it changes neither the throughput nor the summary. */
  lemma GpuIgnoresEarlierSamples(a: seq<string>, b: seq<string>)
    requires Samples(a, GpuMarker, GpuLabel).Ok?
    requires Samples(b, GpuMarker, GpuLabel).Ok?
    requires |Samples(b, GpuMarker, GpuLabel).value| >= GpuWindow
    ensures GpuResults(a + b) == GpuResults(b)
  {
    var sa := Samples(a, GpuMarker, GpuLabel).value;
    var sb := Samples(b, GpuMarker, GpuLabel).value;
    SamplesAppend(a, b, GpuMarker, GpuLabel);
    KeepLastAppend(sa, sb, GpuWindow);
    MarkedAppend(a, b, GpuMarker);
    SamplesOfMarkedLines(b, GpuMarker, GpuLabel);
    var ma := Marked(a, GpuMarker);
    var mb := Marked(b, GpuMarker);
    StripAllAppend(ma, mb);
    KeepLastAppend(StripAll(ma), StripAll(mb), GpuWindow);
    assert GpuSummary(ma + mb) == GpuSummary(mb);
  }

  lemma KeepLastAppend<T>(xs: seq<T>, ys: seq<T>, n: nat)
    requires |ys| >= n
    ensures KeepLast(xs + ys, n) == KeepLast(ys, n)
  {
    assert (xs + ys)[|xs + ys| - n..] == ys[|ys| - n..];
  }

  lemma {:induction false} StripAllAppend(xs: seq<string>, ys: seq<string>)
    ensures StripAll(xs + ys) == StripAll(xs) + StripAll(ys)
    decreases |ys|
  {
    if ys == [] {
      assert xs + ys == xs;
    } else {
      var ys' := ys[..|ys| - 1];
      assert (xs + ys)[..|xs + ys| - 1] == xs + ys';
      StripAllAppend(xs, ys');
    }
  }

  // ------------------------------------------------------------------
  // Reading the GPU summary back

  /** Stripping the newline of a line as `readlines` yields it changes neither
      whether it is marked nor the figure found on it. */
  lemma StripKeepsSample(line: string, marker: string, sub: string)
    requires IsReadLine(line)
    requires marker != [] && '\n' !in marker && sub != [] && '\n' !in sub
    ensures Contains(Strip(line, '\n'), marker) == Contains(line, marker)
    ensures LineSample(Strip(line, '\n'), sub) == LineSample(line, sub)
  {
    StripReadLine(line);
    var body := Strip(line, '\n');
    if line != body {
      assert line == body + ['\n'];
      ContainsAppend(body, marker, '\n');
      SearchAppend(body, sub, '\n', 0);
    }
  }

  lemma {:induction false} SamplesOfStripped(lines: seq<string>, marker: string, sub: string)
    requires forall k :: 0 <= k < |lines| ==> IsReadLine(lines[k])
    requires marker != [] && '\n' !in marker && sub != [] && '\n' !in sub
    requires Samples(lines, marker, sub).Ok?
    ensures Samples(StripAll(lines), marker, sub) == Samples(lines, marker, sub)
  {
    if lines != [] {
      var init := lines[..|lines| - 1];
      var line := lines[|lines| - 1];
      SamplesOfStripped(init, marker, sub);
      StripKeepsSample(line, marker, sub);
      var st := StripAll(lines);
      assert st[..|st| - 1] == StripAll(init);
      assert Samples(st, marker, sub) == AddLine(Samples(init, marker, sub), Strip(line, '\n'), marker, sub);
    }
  }

  /** The lines kept in the GPU summary are lines as `readlines` yields them. */
  lemma KeptLines(lines: seq<string>)
    requires forall k :: 0 <= k < |lines| ==> IsReadLine(lines[k])
    ensures var w := KeepLast(Marked(lines, GpuMarker), GpuWindow);
      forall k :: 0 <= k < |w| ==> IsReadLine(w[k])
  {
    var m := Marked(lines, GpuMarker);
    var w := KeepLast(m, GpuWindow);
    forall k | 0 <= k < |w| ensures IsReadLine(w[k]) {
      assert w[k] == m[|m| - |w| + k];
      assert w[k] in lines;
    }
  }

  /** Lines as `readlines` yields them hold no newline once stripped. */
  lemma StrippedHaveNoNewline(w: seq<string>)
    requires forall k :: 0 <= k < |w| ==> IsReadLine(w[k])
    ensures forall k :: 0 <= k < |StripAll(w)| ==> '\n' !in StripAll(w)[k]
  {
    forall k | 0 <= k < |StripAll(w)| ensures '\n' !in StripAll(w)[k] {
      StripReadLine(w[k]);
    }
  }

  lemma GpuTextsHaveNoNewline()
    ensures GpuMarker != [] && '\n' !in GpuMarker && GpuLabel != [] && '\n' !in GpuLabel
  {
  }

  lemma KeptLinesStripped(lines: seq<string>)
    requires forall k :: 0 <= k < |lines| ==> IsReadLine(lines[k])
    requires Samples(KeepLast(Marked(lines, GpuMarker), GpuWindow), GpuMarker, GpuLabel).Ok?
    ensures var w := KeepLast(Marked(lines, GpuMarker), GpuWindow);
      Samples(StripAll(w), GpuMarker, GpuLabel) == Samples(w, GpuMarker, GpuLabel)
  {
    var w := KeepLast(Marked(lines, GpuMarker), GpuWindow);
    assert forall k :: 0 <= k < |w| ==> IsReadLine(w[k]) by { KeptLines(lines); }
    GpuTextsHaveNoNewline();
    SamplesOfStripped(w, GpuMarker, GpuLabel);
  }

  lemma KeepLastStripAll(m: seq<string>, n: nat)
    ensures KeepLast(StripAll(m), n) == StripAll(KeepLast(m, n))
  {
    if |m| > n {
      var a, b := m[..|m| - n], m[|m| - n..];
      assert a + b == m;
      StripAllAppend(a, b);
      KeepLastAppend(StripAll(a), StripAll(b), n);
      assert KeepLast(StripAll(b), n) == StripAll(b);
    }
  }

  /** In a list of marked lines each line gives one sample, so a suffix of
      the list gives the same suffix of the samples. */
  lemma SamplesOfSuffix(xs: seq<string>, i: nat, marker: string, sub: string)
    requires i <= |xs| && Samples(xs, marker, sub).Ok?
    requires forall k :: 0 <= k < |xs| ==> Contains(xs[k], marker)
    ensures |Samples(xs, marker, sub).value| == |xs|
    ensures Samples(xs[i..], marker, sub) == Ok(Samples(xs, marker, sub).value[i..])
  {
    var a := xs[..i];
    assert a + xs[i..] == xs;
    SamplesAppend(a, xs[i..], marker, sub);
    MarkedAllMarked(xs, marker);
    MarkedAllMarked(a, marker);
    SamplesOfMarkedLines(xs, marker, sub);
    SamplesOfMarkedLines(a, marker, sub);
  }

  /** The samples of the kept lines are the last samples of the log. */
  lemma KeptSamples(lines: seq<string>)
    requires forall k :: 0 <= k < |lines| ==> IsReadLine(lines[k])
    requires Samples(lines, GpuMarker, GpuLabel).Ok?
    ensures Samples(StripAll(KeepLast(Marked(lines, GpuMarker), GpuWindow)), GpuMarker, GpuLabel)
      == Ok(GpuWindowSamples(lines))
  {
    var m := Marked(lines, GpuMarker);
    var s := Samples(lines, GpuMarker, GpuLabel).value;
    var w := KeepLast(m, GpuWindow);
    var i := |m| - |w|;
    assert w == m[i..];
    assert Samples(w, GpuMarker, GpuLabel) == Ok(s[i..]) && |s| == |m| by {
      SamplesIgnoreUnmarked(lines, GpuMarker, GpuLabel);
      SamplesOfSuffix(m, i, GpuMarker, GpuLabel);
    }
    assert GpuWindowSamples(lines) == s[i..];
    KeptLinesStripped(lines);
  }

  /** GPU round trip: the summary is newline-terminated, splitting it at its
      newlines gives back the last 100 marked lines (stripped) in log order,
      and reading those lines again gives exactly the samples that were
      averaged. */
  lemma GpuSummaryRoundTrip(lines: seq<string>)
    requires forall k :: 0 <= k < |lines| ==> IsReadLine(lines[k])
    requires GpuResults(lines).Ok?
    ensures var summary := GpuResults(lines).value.summary;
      |summary| >= 1 && summary[|summary| - 1] == '\n' &&
      var parts := Split(summary[..|summary| - 1], '\n');
      && parts == KeepLast(StripAll(Marked(lines, GpuMarker)), GpuWindow)
      && Samples(parts, GpuMarker, GpuLabel) == Ok(GpuWindowSamples(lines))
  {
    var m := Marked(lines, GpuMarker);
    assert m != [] by { OkSamplesOfMarkedLines(lines, GpuMarker, GpuLabel); }
    assert forall k :: 0 <= k < |m| ==> IsReadLine(m[k]);
    GpuSummarySplits(m);
    assert GpuResults(lines).value.summary == GpuSummary(m);
    KeepLastStripAll(m, GpuWindow);
    KeptSamples(lines);
  }

  /** The GPU summary of some marked lines splits back into the last 100 of
      them, stripped. */
  lemma GpuSummarySplits(m: seq<string>)
    requires m != [] && forall k :: 0 <= k < |m| ==> IsReadLine(m[k])
    ensures var summary := GpuSummary(m);
      |summary| >= 1 && summary[|summary| - 1] == '\n'
      && Split(summary[..|summary| - 1], '\n') == StripAll(KeepLast(m, GpuWindow))
  {
    var w := KeepLast(m, GpuWindow);
    var parts := StripAll(w);
    assert GpuSummary(m) == Join(parts, '\n') + "\n" by { KeepLastStripAll(m, GpuWindow); }
    KeepLastReadLines(m, GpuWindow);
    StrippedHaveNoNewline(w);
    JoinedLinesRoundTrip(parts);
  }

  /** The last lines of what `readlines` gave are again such lines. */
  lemma KeepLastReadLines(m: seq<string>, n: nat)
    requires forall k :: 0 <= k < |m| ==> IsReadLine(m[k])
    ensures var w := KeepLast(m, n); forall k :: 0 <= k < |w| ==> IsReadLine(w[k])
  {
    var w := KeepLast(m, n);
    forall k | 0 <= k < |w| ensures IsReadLine(w[k]) {
      assert w[k] == m[|m| - |w| + k];
    }
  }

  /** Lines without newlines, joined by newlines with a final newline, split
      back into the same lines. */
  lemma JoinedLinesRoundTrip(parts: seq<string>)
    requires |parts| >= 1
    requires forall k :: 0 <= k < |parts| ==> '\n' !in parts[k]
    ensures var summary := Join(parts, '\n') + "\n";
      |summary| >= 1 && summary[|summary| - 1] == '\n' && Split(summary[..|summary| - 1], '\n') == parts
  {
    var summary := Join(parts, '\n') + "\n";
    assert summary[..|summary| - 1] == Join(parts, '\n');
    SplitJoin(parts, '\n');
  }
}
