/**
 * The decision logic of `run_sm_perf_test`, the SageMaker TensorFlow
 * training benchmark: what the image URI says about the processor and the
 * Python version, where the log is uploaded, which threshold table applies,
 * and the final verdict, which requires the per-node throughput to be
 * strictly above the threshold.
 *
 * Launching the training job, uploading the log and the clock are outside
 * the model: the job's `ok` flag and return code, whether the upload
 * succeeded, the commit id and the lines of the log are parameters, and so
 * are the framework and CUDA versions read from the image tag and the
 * threshold lookup `get_threshold_for_image`.
 */
module SmPerfTest {
  import opened Common
  import opened BenchmarkLog

  /** "gpu" when the image URI mentions gpu, otherwise "cpu". */
  function ProcessorOf(imageUri: string): (p: string)
    ensures p == "gpu" || p == "cpu"
    ensures p == "gpu" <==> Contains(imageUri, "gpu")
  {
    if Contains(imageUri, "gpu") then "gpu" else "cpu"
  }

  /** The device part of the upload path: "gpu-<cuda version>" on GPU, the processor otherwise. */
  function DeviceCudaStr(processor: string, cudaVersion: string): (r: string)
    ensures StartsWith(r, processor)
    ensures processor != "gpu" ==> r == processor
  {
    if processor == "gpu" then processor + "-" + cudaVersion else processor
  }

  /** On GPU the device string splits back into the processor and the CUDA version. */
  lemma DeviceCudaStrRoundTrip(cudaVersion: string)
    requires '-' !in cudaVersion
    ensures Split(DeviceCudaStr("gpu", cudaVersion), '-') == ["gpu", cudaVersion]
  {
    assert '-' !in "gpu";
    SplitJoin(["gpu", cudaVersion], '-');
    assert Join(["gpu", cudaVersion], '-') == "gpu" + "-" + cudaVersion;
  }

  /** The EC2 instance type the benchmark asks for. */
  function Ec2InstanceType(processor: string): (r: string)
    ensures StartsWith(r, "g5.") <==> processor == "gpu"
    ensures StartsWith(r, "c5.") <==> processor != "gpu"
  {
    if processor == "gpu" then
      assert "g5.12xlarge"[..3] == "g5." && "g5.12xlarge"[0] != "c5."[0];
      "g5.12xlarge"
    else
      assert "c5.18xlarge"[..3] == "c5." && "c5.18xlarge"[0] != "g5."[0];
      "c5.18xlarge"
  }

  /** "py2" if the URI mentions py2, else "py37" if it mentions py37, else "py3". */
  function PyVersionOf(imageUri: string): (r: string)
    ensures r == "py2" || r == "py37" || r == "py3"
    ensures r == "py2" <==> Contains(imageUri, "py2")
    ensures r == "py37" <==> !Contains(imageUri, "py2") && Contains(imageUri, "py37")
    ensures r != "py3" ==> Contains(imageUri, r)
  {
    if Contains(imageUri, "py2") then "py2"
    else if Contains(imageUri, "py37") then "py37"
    else "py3"
  }

  /** POSIX `os.path.join(a, b)`: an absolute `b` replaces `a`; otherwise a
      single "/" separates them unless `a` is empty or already ends in one. */
  function PathJoin(a: string, b: string): (r: string)
    ensures EndsWith(r, b)
    ensures !StartsWith(b, "/") ==> StartsWith(r, a)
    ensures StartsWith(b, "/") ==> r == b
    ensures !StartsWith(b, "/") ==> r == a + b || r == a + "/" + b
    ensures !StartsWith(b, "/") ==> (r == a + "/" + b <==> a != [] && !EndsWith(a, "/"))
  {
    if StartsWith(b, "/") then b
    else if a == [] || EndsWith(a, "/") then a + b
    else a + "/" + b
  }

  /** `os.path.join(bucket, "tensorflow", version, "sagemaker", "training", device, py)` */
  function TargetUploadLocation(bucket: string, frameworkVersion: string, device: string, pyVersion: string): (r: string)
    ensures EndsWith(r, pyVersion)
  {
    PathJoin(PathJoin(PathJoin(PathJoin(PathJoin(PathJoin(bucket, "tensorflow"), frameworkVersion),
      "sagemaker"), "training"), device), pyVersion)
  }

  /** A path component: non-empty, with no '/' at either end. */
  predicate IsComponent(x: string) {
    x != [] && x[0] != '/' && x[|x| - 1] != '/'
  }

  /** Joining a component onto a path that does not end in '/' puts exactly
      one '/' between them, and the result again does not end in '/'. */
  lemma PathJoinComponent(a: string, b: string)
    requires a != [] && a[|a| - 1] != '/' && IsComponent(b)
    ensures PathJoin(a, b) == a + "/" + b
    ensures (a + "/" + b)[|a + "/" + b| - 1] != '/'
  {
    assert !StartsWith(b, "/") by { assert b[..1][0] == b[0]; }
    assert !EndsWith(a, "/") by { assert a[|a| - 1..][0] == a[|a| - 1]; }
  }

  /** With a bucket that does not end in '/' and ordinary components, the
      target location is the components separated by single slashes. */
  lemma TargetUploadLocationShape(bucket: string, frameworkVersion: string, device: string, pyVersion: string)
    requires bucket != [] && bucket[|bucket| - 1] != '/'
    requires IsComponent(frameworkVersion) && IsComponent(device) && IsComponent(pyVersion)
    ensures TargetUploadLocation(bucket, frameworkVersion, device, pyVersion)
      == bucket + "/" + "tensorflow" + "/" + frameworkVersion + "/" + "sagemaker" + "/" + "training"
         + "/" + device + "/" + pyVersion
  {
    assert IsComponent("tensorflow") && IsComponent("sagemaker") && IsComponent("training");
    var p1 := bucket + "/" + "tensorflow";
    PathJoinComponent(bucket, "tensorflow");
    var p2 := p1 + "/" + frameworkVersion;
    PathJoinComponent(p1, frameworkVersion);
    var p3 := p2 + "/" + "sagemaker";
    PathJoinComponent(p2, "sagemaker");
    var p4 := p3 + "/" + "training";
    PathJoinComponent(p3, "training");
    var p5 := p4 + "/" + device;
    PathJoinComponent(p4, device);
    PathJoinComponent(p5, pyVersion);
  }

  /** Where the log goes: the target location, or its "failure_log" directory
      when the run is neither `ok` nor ended with return code 124. */
  function UploadLocation(target: string, runOk: bool, returnCode: int): (r: string)
    ensures StartsWith(r, target)
  {
    if !(runOk || returnCode == 124) then
      assert !StartsWith("failure_log", "/") by { assert "failure_log"[0] != '/'; }
      PathJoin(target, "failure_log")
    else target
  }

  /** The log stays at the target exactly when the run is `ok` or its return code is 124;
      otherwise it goes under the target, into "failure_log". */
  lemma UploadLocationRule(target: string, runOk: bool, returnCode: int)
    ensures UploadLocation(target, runOk, returnCode) == target <==> runOk || returnCode == 124
    ensures !(runOk || returnCode == 124) ==>
      var r := UploadLocation(target, runOk, returnCode);
      StartsWith(r, target) && EndsWith(r, "failure_log") && |r| > |target|
  {
    if !(runOk || returnCode == 124) {
      var r := PathJoin(target, "failure_log");
      assert !StartsWith("failure_log", "/") by { assert "failure_log"[0] != '/'; }
      assert |r| >= |target| + |"failure_log"|;
    }
  }

  /** The four threshold tables of the benchmark. */
  datatype ThresholdTable = Cpu1Node | Cpu4Node | Gpu1Node | Gpu4Node

  function SelectThresholdTable(processor: string, numNodes: int): (t: ThresholdTable)
    ensures (t == Cpu1Node || t == Cpu4Node) <==> processor == "cpu"
    ensures (t == Cpu1Node || t == Gpu1Node) <==> numNodes == 1
  {
    if processor == "cpu" then (if numNodes == 1 then Cpu1Node else Cpu4Node)
    else if numNodes == 1 then Gpu1Node
    else Gpu4Node
  }

  /** How one run of the benchmark ends. */
  datatype Outcome =
    | Skipped                                       // a TensorFlow 1.x image
    | EmptyFrameworkVersion                         // `framework_version[0]` in the job name raises IndexError
    | NoCommitInfo                                  // `commit_info[:7]` on None raises TypeError
    | UploadFailed                                  // the `aws s3 cp` of the log fails and raises
    | LogError(error: ExtractError)                 // `_print_results_of_test` raised
    | ZeroNodes                                     // `throughput /= num_nodes` with no nodes
    | JobFailed(returnCode: int)                    // `assert run_out.ok` failed
    | NoThreshold                                   // the threshold table has no entry for this version
    | BelowThreshold(perNode: real, threshold: real)
    | Passed(perNode: real, threshold: real)

  /** `throughput /= num_nodes`; dividing by zero raises. */
  function PerNode(throughput: real, numNodes: int): (r: Option<real>)
    ensures r.None? <==> numNodes == 0
    ensures r.Some? ==> r.value * (numNodes as real) == throughput
  {
    if numNodes == 0 then None else Some(throughput / (numNodes as real))
  }

  /** The final assertion: strictly above the threshold passes. */
  function Judge(perNode: real, threshold: real): (o: Outcome)
    ensures o.Passed? || o.BelowThreshold?
    ensures o.perNode == perNode && o.threshold == threshold
    ensures o.Passed? <==> perNode > threshold
  {
    if perNode > threshold then Passed(perNode, threshold) else BelowThreshold(perNode, threshold)
  }

  /** `run_sm_perf_test`, in the order the source does things: the TF 1.x skip,
      building the job name (which indexes the framework version and slices
      the commit id), uploading the log, reading the log, the per-node
      division, the job-status assertion, the threshold lookup and the final
      comparison.  `commitInfo` is `CODEBUILD_RESOLVED_SOURCE_VERSION`, None
      when unset; `uploadOk` says whether the `aws s3 cp` succeeded; the
      threshold lookup gives None when the table has no entry. */
  function RunSmPerfTest(imageUri: string, numNodes: int, frameworkVersion: string, commitInfo: Option<string>,
                         runOk: bool, returnCode: int, uploadOk: bool, lines: seq<string>,
                         thresholdFor: (string, ThresholdTable) -> Option<real>): (o: Outcome)
    ensures o == Skipped <==> StartsWith(frameworkVersion, "1.")
    ensures o.Passed? ==> runOk && uploadOk && commitInfo.Some? && o.perNode > o.threshold
  {
    if StartsWith(frameworkVersion, "1.") then Skipped
    else if frameworkVersion == [] then EmptyFrameworkVersion
    else if commitInfo.None? then NoCommitInfo
    else if !uploadOk then UploadFailed
    else
      var processor := ProcessorOf(imageUri);
      Conclude(ResultsOfTest(lines, processor), numNodes, runOk, returnCode,
               thresholdFor(frameworkVersion, SelectThresholdTable(processor, numNodes)))
  }

  /** Everything after the upload: the log's result, the per-node division,
      the job-status assertion, the threshold lookup, then the comparison. */
  function Conclude(results: Result<Report, ExtractError>, numNodes: int, runOk: bool, returnCode: int,
                    threshold: Option<real>): (o: Outcome)
    ensures o.Passed? || o.BelowThreshold? || o.LogError? || o.ZeroNodes? || o.JobFailed? || o.NoThreshold?
    ensures o.LogError? <==> results.Err?
    ensures o.Passed? ==> runOk && o.perNode > o.threshold
  {
    match results
    case Err(e) => LogError(e)
    case Ok(report) =>
      match PerNode(report.throughput, numNodes)
      case None => ZeroNodes
      case Some(perNode) =>
        if !runOk then JobFailed(returnCode)
        else if threshold.None? then NoThreshold
        else Judge(perNode, threshold.value)
  }

  /** The conclusion is a pass exactly when the log read, there are nodes, the
      job succeeded, there is a threshold and the per-node figure is strictly
      above it. */
  lemma ConcludePassedIff(results: Result<Report, ExtractError>, numNodes: int, runOk: bool, returnCode: int,
                          threshold: Option<real>)
    ensures Conclude(results, numNodes, runOk, returnCode, threshold).Passed? <==>
      results.Ok? && numNodes != 0 && runOk && threshold.Some?
      && results.value.throughput / (numNodes as real) > threshold.value
    ensures numNodes > 0 ==>
      (Conclude(results, numNodes, runOk, returnCode, threshold).Passed? <==>
        results.Ok? && runOk && threshold.Some?
        && results.value.throughput > threshold.value * (numNodes as real))
  {
    if results.Ok? && numNodes > 0 && threshold.Some? {
      ScaledComparison(results.value.throughput, numNodes as real, threshold.value);
    }
  }

  /** A run passes exactly when the image is not TF 1.x, the job name can be
      built (a non-empty framework version and a commit id), the upload
      succeeded, the log reads, there are nodes, the job succeeded, the table
      for this processor and node count has a threshold for the version, and
      the aggregate divided by the number of nodes is strictly above it. */
  lemma PassedIff(imageUri: string, numNodes: int, frameworkVersion: string, commitInfo: Option<string>,
                  runOk: bool, returnCode: int, uploadOk: bool, lines: seq<string>,
                  thresholdFor: (string, ThresholdTable) -> Option<real>)
    ensures var results := ResultsOfTest(lines, ProcessorOf(imageUri));
      var threshold := thresholdFor(frameworkVersion, SelectThresholdTable(ProcessorOf(imageUri), numNodes));
      RunSmPerfTest(imageUri, numNodes, frameworkVersion, commitInfo, runOk, returnCode, uploadOk, lines, thresholdFor).Passed? <==>
        && !StartsWith(frameworkVersion, "1.")
        && frameworkVersion != []
        && commitInfo.Some?
        && uploadOk
        && results.Ok?
        && numNodes != 0
        && runOk
        && threshold.Some?
        && results.value.throughput / (numNodes as real) > threshold.value
  {
    ConcludePassedIff(ResultsOfTest(lines, ProcessorOf(imageUri)), numNodes, runOk, returnCode,
                      thresholdFor(frameworkVersion, SelectThresholdTable(ProcessorOf(imageUri), numNodes)));
  }

  /** The same without the division: with at least one node, a run passes
      exactly when the aggregate exceeds the threshold times the node count. */
  lemma PassedIffAggregate(imageUri: string, numNodes: int, frameworkVersion: string, commitInfo: Option<string>,
                           runOk: bool, returnCode: int, uploadOk: bool, lines: seq<string>,
                           thresholdFor: (string, ThresholdTable) -> Option<real>)
    requires numNodes > 0
    ensures var results := ResultsOfTest(lines, ProcessorOf(imageUri));
      var threshold := thresholdFor(frameworkVersion, SelectThresholdTable(ProcessorOf(imageUri), numNodes));
      RunSmPerfTest(imageUri, numNodes, frameworkVersion, commitInfo, runOk, returnCode, uploadOk, lines, thresholdFor).Passed? <==>
        && !StartsWith(frameworkVersion, "1.")
        && frameworkVersion != []
        && commitInfo.Some?
        && uploadOk
        && results.Ok?
        && runOk
        && threshold.Some?
        && results.value.throughput > threshold.value * (numNodes as real)
  {
    ConcludePassedIff(ResultsOfTest(lines, ProcessorOf(imageUri)), numNodes, runOk, returnCode,
                      thresholdFor(frameworkVersion, SelectThresholdTable(ProcessorOf(imageUri), numNodes)));
  }

  /** For a positive divisor, x / n > t means x > t * n. */
  lemma ScaledComparison(x: real, n: real, t: real)
    requires n > 0.0
    ensures x / n > t <==> x > t * n
  {
    assert x / n * n == x;
    if x / n > t { assert x / n * n > t * n; }
    if x > t * n { assert x / n * n > t * n; }
  }

  /** Building the job name comes before everything else: outside CodeBuild,
      where the commit id is unset, a run of a non-1.x image with a framework
      version always ends in the TypeError, whatever the job and its log did. */
  lemma NoCommitInfoEndsRun(imageUri: string, numNodes: int, frameworkVersion: string,
                            runOk: bool, returnCode: int, uploadOk: bool, lines: seq<string>,
                            thresholdFor: (string, ThresholdTable) -> Option<real>)
    requires !StartsWith(frameworkVersion, "1.") && frameworkVersion != []
    ensures RunSmPerfTest(imageUri, numNodes, frameworkVersion, None, runOk, returnCode, uploadOk, lines, thresholdFor)
      == NoCommitInfo
  {
  }

  /** A failed upload of the log ends the run before the log is read. */
  lemma UploadFailureEndsRun(imageUri: string, numNodes: int, frameworkVersion: string, commitInfo: Option<string>,
                             runOk: bool, returnCode: int, lines: seq<string>,
                             thresholdFor: (string, ThresholdTable) -> Option<real>)
    requires !StartsWith(frameworkVersion, "1.") && frameworkVersion != [] && commitInfo.Some?
    ensures RunSmPerfTest(imageUri, numNodes, frameworkVersion, commitInfo, runOk, returnCode, false, lines, thresholdFor)
      == UploadFailed
  {
  }

  /** A passing run reports a per-node figure strictly above its threshold,
      and that figure times the node count is the aggregate of the log. */
  lemma PassedMeansAboveThreshold(imageUri: string, numNodes: int, frameworkVersion: string, commitInfo: Option<string>,
                                  runOk: bool, returnCode: int, uploadOk: bool, lines: seq<string>,
                                  thresholdFor: (string, ThresholdTable) -> Option<real>)
    requires RunSmPerfTest(imageUri, numNodes, frameworkVersion, commitInfo, runOk, returnCode, uploadOk, lines, thresholdFor).Passed?
    ensures var o := RunSmPerfTest(imageUri, numNodes, frameworkVersion, commitInfo, runOk, returnCode, uploadOk, lines, thresholdFor);
      var threshold := thresholdFor(frameworkVersion, SelectThresholdTable(ProcessorOf(imageUri), numNodes));
      && o.perNode > o.threshold
      && threshold == Some(o.threshold)
      && ResultsOfTest(lines, ProcessorOf(imageUri)).Ok?
      && o.perNode * (numNodes as real) == ResultsOfTest(lines, ProcessorOf(imageUri)).value.throughput
  {
    RunConcludes(imageUri, numNodes, frameworkVersion, commitInfo, runOk, returnCode, uploadOk, lines, thresholdFor);
    ConcludePassedShape(RunSmPerfTest(imageUri, numNodes, frameworkVersion, commitInfo, runOk, returnCode, uploadOk, lines, thresholdFor),
                        ResultsOfTest(lines, ProcessorOf(imageUri)), numNodes, runOk, returnCode,
                        thresholdFor(frameworkVersion, SelectThresholdTable(ProcessorOf(imageUri), numNodes)));
  }

  /** Once the job name is built and the log uploaded, the run ends as its
      conclusion does. */
  lemma RunConcludes(imageUri: string, numNodes: int, frameworkVersion: string, commitInfo: Option<string>,
                     runOk: bool, returnCode: int, uploadOk: bool, lines: seq<string>,
                     thresholdFor: (string, ThresholdTable) -> Option<real>)
    ensures var o := RunSmPerfTest(imageUri, numNodes, frameworkVersion, commitInfo, runOk, returnCode, uploadOk, lines, thresholdFor);
      !(o.Skipped? || o.EmptyFrameworkVersion? || o.NoCommitInfo? || o.UploadFailed?) ==>
        o == Conclude(ResultsOfTest(lines, ProcessorOf(imageUri)), numNodes, runOk, returnCode,
                      thresholdFor(frameworkVersion, SelectThresholdTable(ProcessorOf(imageUri), numNodes)))
  {
  }

  /** What a passing conclusion is made of: the log's aggregate, split evenly
      over the nodes, strictly above the threshold that was found. */
  lemma ConcludePassedShape(o: Outcome, results: Result<Report, ExtractError>, numNodes: int, runOk: bool,
                            returnCode: int, threshold: Option<real>)
    requires o == Conclude(results, numNodes, runOk, returnCode, threshold) && o.Passed?
    ensures && o.perNode > o.threshold
            && threshold == Some(o.threshold)
            && results.Ok?
            && o.perNode * (numNodes as real) == results.value.throughput
  {
    var perNode := PerNode(results.value.throughput, numNodes);
    assert o == Judge(perNode.value, threshold.value);
  }

  /** A per-node figure equal to the threshold does not pass. */
  lemma EqualToThresholdFails(perNode: real)
    ensures Judge(perNode, perNode) == BelowThreshold(perNode, perNode)
  {
  }

  /** The log is read before the job status is checked: an unreadable log is
      reported as such even when the job itself failed. */
  lemma LogErrorBeforeJobStatus(imageUri: string, numNodes: int, frameworkVersion: string, commitInfo: Option<string>,
                                runOk: bool, returnCode: int, lines: seq<string>,
                                thresholdFor: (string, ThresholdTable) -> Option<real>)
    requires !StartsWith(frameworkVersion, "1.") && frameworkVersion != [] && commitInfo.Some?
    requires ResultsOfTest(lines, ProcessorOf(imageUri)).Err?
    ensures RunSmPerfTest(imageUri, numNodes, frameworkVersion, commitInfo, runOk, returnCode, true, lines, thresholdFor)
      == LogError(ResultsOfTest(lines, ProcessorOf(imageUri)).error)
  {
  }

  /** The job status is asserted before the threshold is looked up: a failed
      job is reported as such even when there is no threshold for it. */
  lemma JobStatusBeforeThreshold(imageUri: string, numNodes: int, frameworkVersion: string, commitInfo: Option<string>,
                                 returnCode: int, lines: seq<string>,
                                 thresholdFor: (string, ThresholdTable) -> Option<real>)
    requires !StartsWith(frameworkVersion, "1.") && frameworkVersion != [] && commitInfo.Some?
    requires ResultsOfTest(lines, ProcessorOf(imageUri)).Ok? && numNodes != 0
    ensures RunSmPerfTest(imageUri, numNodes, frameworkVersion, commitInfo, false, returnCode, true, lines, thresholdFor)
      == JobFailed(returnCode)
  {
  }

  /** Lowering every threshold (and keeping every entry) never turns a pass
      into a failure. */
  lemma LowerThresholdStillPasses(imageUri: string, numNodes: int, frameworkVersion: string, commitInfo: Option<string>,
                                  runOk: bool, returnCode: int, uploadOk: bool, lines: seq<string>,
                                  high: (string, ThresholdTable) -> Option<real>,
                                  low: (string, ThresholdTable) -> Option<real>)
    requires forall v, t :: high(v, t).Some? ==> low(v, t).Some? && low(v, t).value <= high(v, t).value
    requires RunSmPerfTest(imageUri, numNodes, frameworkVersion, commitInfo, runOk, returnCode, uploadOk, lines, high).Passed?
    ensures RunSmPerfTest(imageUri, numNodes, frameworkVersion, commitInfo, runOk, returnCode, uploadOk, lines, low).Passed?
  {
    var t := SelectThresholdTable(ProcessorOf(imageUri), numNodes);
    assert high(frameworkVersion, t).Some?;
    assert low(frameworkVersion, t).value <= high(frameworkVersion, t).value;
  }

  /** Four nodes with an aggregate of 100 images/sec give 25 per node, which
      fails a threshold of 30; one node at 128 passes a threshold of 100. */
  lemma PerNodeExamples()
    ensures PerNode(100.0, 4) == Some(25.0) && Judge(25.0, 30.0).BelowThreshold?
    ensures PerNode(128.0, 1) == Some(128.0) && Judge(128.0, 100.0).Passed?
  {
  }
}
