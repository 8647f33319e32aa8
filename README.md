# SageMaker benchmark verdicts and inference test selection, in Dafny

This project models two parts of the deep-learning-containers test
harness and proves properties of the model.

**The TensorFlow SageMaker training benchmark** (`run_sm_perf_test` and
`_print_results_of_test`) does the following:

- It decides from the image URI which processor, EC2 instance type and
  Python version the benchmark uses, and where the benchmark log is
  uploaded. The job runs as the shell pipeline `timeout 45m python … | tee`,
  and its `ok` flag and return code are that pipeline's exit status. The
  log goes into a `failure_log` directory unless that status is success or
  return code 124.
- It reads the throughput out of the training log:
  - CPU: the sum of the figures on the "Total img/sec on" lines;
  - GPU: the mean of the last 100 "images/sec: " figures.
- It divides the result by the number of nodes, checks that the job
  succeeded, picks one of four threshold tables, and passes only when the
  per-node throughput is strictly above the threshold.

The source reads each figure with the regular expression
`(<label>[ ]*)(?P<throughput>[0-9]+\.?[0-9]+)`. `DecimalToken` encodes
that one pattern: the leftmost match, the token the backtracking matcher
picks, and its exact decimal value.

`BenchmarkLog` specifies the extraction as functions of the whole log.
`PrintResultsOfTest` is the source's loop, and it is proved to compute
exactly what those functions say. The lemmas then prove:

- the meaning of the result: a sum, or a window mean;
- the error cases;
- a round trip of the GPU summary text.

`SmPerfTest` models the run's outcomes in the order the source reaches
them. Before the verdict, a run can end in several ways:

- a skip for TensorFlow 1.x;
- an `IndexError` for an empty framework version;
- a `TypeError` when the commit id is unset;
- a failed log upload;
- an unreadable log;
- zero nodes;
- a failed job;
- a framework version without a threshold.

It proves that a run passes exactly when none of these happens and the
per-node throughput is strictly above the threshold.

**The PyTorch SageMaker inference test-suite configuration**
(`conftest.py`) has two kinds of fixture:

- fixtures that default the image tag, the image names, the instance type,
  the Python version and the region list;
- autouse fixtures that skip a test because of its markers, its instance
  type, the region, a remote "disabled tests" list or the last-failed
  cache.

Each fixture is a function, and each rule is proved in the form "the test
is skipped exactly when …".

Modules:

- `Common`: Python's string operations with their own semantics, namely
  `in`, `startswith`, `endswith`, `split`/`join` on one character, `strip`
  of one character and `xs[-n:]`.
- `DecimalToken`: the throughput pattern and `float` of its token.
- `BenchmarkLog`: `_print_results_of_test`.
- `SmPerfTest`: `run_sm_perf_test`.
- `InferenceConftest`: the fixtures of the PyTorch inference suite.

Python floats are modelled as exact reals.

## Model

| member | source | states |
|---|---|---|
| BenchmarkLog.ResultsOfTest | test/dlc_tests/benchmark/sagemaker/tensorflow/training/test_performance_tensorflow_sm_training.py:153-189 | The extraction as a function of the whole log. It is specified through the CPU and GPU functions, and `PrintResultsOfTest` is proved to compute it |
| BenchmarkLog.CpuResults | test/dlc_tests/benchmark/sagemaker/tensorflow/training/test_performance_tensorflow_sm_training.py:156-166 | The CPU extraction. `CpuThroughputIsSum`, `CpuSummaryIsLastMarkedLine` and `CpuNoMarkedLines` state what it returns |
| BenchmarkLog.GpuResults | test/dlc_tests/benchmark/sagemaker/tensorflow/training/test_performance_tensorflow_sm_training.py:167-187 | The GPU extraction. `GpuThroughputIsWindowMean`, `GpuSummaryRoundTrip` and `GpuNoMarkedLines` state what it returns |
| BenchmarkLog.PrintResultsOfTest | test/dlc_tests/benchmark/sagemaker/tensorflow/training/test_performance_tensorflow_sm_training.py:153-189 | The loop returns exactly the CPU result for "cpu", the GPU result for "gpu", and an empty summary with throughput 0 for any other processor |
| BenchmarkLog.ScanCpuLog | test/dlc_tests/benchmark/sagemaker/tensorflow/training/test_performance_tensorflow_sm_training.py:156-166 | The CPU loop's summary is the last marked line plus a newline, and its throughput is the sum of the figures of all marked lines. The first marked line without a figure is the error |
| BenchmarkLog.ScanGpuLog | test/dlc_tests/benchmark/sagemaker/tensorflow/training/test_performance_tensorflow_sm_training.py:167-187 | The GPU loop joins the last 100 stripped marked lines and returns the mean of the last 100 figures. A malformed marked line is an error, and so is a log with no marked line |
| BenchmarkLog.LineSample | test/dlc_tests/benchmark/sagemaker/tensorflow/training/test_performance_tensorflow_sm_training.py:162-166 | The figure of a line is missing exactly when the pattern finds no token, and it is never negative. `TokenAtIsLongestMatch` and `SearchIsLeftmostMatch` say which token is read, and `SamplesOfMarkedLines` says which lines are read |
| BenchmarkLog.SamplesOfMarkedLines | test/dlc_tests/benchmark/sagemaker/tensorflow/training/test_performance_tensorflow_sm_training.py:159-180 | Reading a log gives one figure per marked line, in log order. It fails exactly when some marked line has no figure, and then it names the first such line |
| BenchmarkLog.SamplesIgnoreUnmarked | test/dlc_tests/benchmark/sagemaker/tensorflow/training/test_performance_tensorflow_sm_training.py:159-160 | Lines without the marker contribute nothing: reading only the marked lines gives the same samples |
| BenchmarkLog.SamplesAppend | test/dlc_tests/benchmark/sagemaker/tensorflow/training/test_performance_tensorflow_sm_training.py:159-166 | Reading two pieces of a log in turn concatenates their samples, and the first error wins |
| BenchmarkLog.ErrorPersists | test/dlc_tests/benchmark/sagemaker/tensorflow/training/test_performance_tensorflow_sm_training.py:162-166 | Once a prefix of the log raises, the rest of the log cannot change the error |
| BenchmarkLog.MarkedAppend | test/dlc_tests/benchmark/sagemaker/tensorflow/training/test_performance_tensorflow_sm_training.py:159-160 | The marked lines of two concatenated pieces are the marked lines of each piece, in order |
| BenchmarkLog.CpuThroughputIsSum | test/dlc_tests/benchmark/sagemaker/tensorflow/training/test_performance_tensorflow_sm_training.py:156-166 | The CPU throughput is the sum of the figures, taken one per marked line in log order |
| BenchmarkLog.CpuThroughputAdds | test/dlc_tests/benchmark/sagemaker/tensorflow/training/test_performance_tensorflow_sm_training.py:162-166 | The CPU throughput of a concatenated log is the sum of the pieces' throughputs, and the log reads exactly when both pieces do |
| BenchmarkLog.CpuNoMarkedLines | test/dlc_tests/benchmark/sagemaker/tensorflow/training/test_performance_tensorflow_sm_training.py:154-161 | A CPU log without a "Total img/sec on " line reads as an empty summary with throughput 0, not as an error |
| BenchmarkLog.CpuSummaryIsLastMarkedLine | test/dlc_tests/benchmark/sagemaker/tensorflow/training/test_performance_tensorflow_sm_training.py:160-161 | The CPU summary is the last marked line followed by a newline |
| BenchmarkLog.GpuNoMarkedLines | test/dlc_tests/benchmark/sagemaker/tensorflow/training/test_performance_tensorflow_sm_training.py:182-185 | A GPU log without an "images/sec: " line is the "cannot find throughput lines" error |
| BenchmarkLog.MalformedLineIsFatal | test/dlc_tests/benchmark/sagemaker/tensorflow/training/test_performance_tensorflow_sm_training.py:156-179 | On either processor, one marked line whose figure the pattern cannot find makes the whole extraction fail with a malformed-line error. This comes ahead of the missing-samples error |
| BenchmarkLog.ErrorsAreMalformedLines | test/dlc_tests/benchmark/sagemaker/tensorflow/training/test_performance_tensorflow_sm_training.py:162-179 | Reading the figures can fail only at a malformed marked line |
| BenchmarkLog.GpuThroughputIsWindowMean | test/dlc_tests/benchmark/sagemaker/tensorflow/training/test_performance_tensorflow_sm_training.py:180-187 | The GPU throughput is the mean of a non-empty window: the last min(100, n) samples, which form a suffix of the samples in log order |
| BenchmarkLog.GpuThroughputWithinWindow | test/dlc_tests/benchmark/sagemaker/tensorflow/training/test_performance_tensorflow_sm_training.py:186-187 | The GPU throughput lies between any lower and upper bound of the averaged samples |
| BenchmarkLog.MeanBetween | test/dlc_tests/benchmark/sagemaker/tensorflow/training/test_performance_tensorflow_sm_training.py:187 | A mean lies between any bounds of the values averaged |
| BenchmarkLog.GpuIgnoresEarlierSamples | test/dlc_tests/benchmark/sagemaker/tensorflow/training/test_performance_tensorflow_sm_training.py:181-187 | Once the later part of a log holds 100 or more samples, the earlier lines change neither the GPU throughput nor the summary |
| BenchmarkLog.StripKeepsSample | test/dlc_tests/benchmark/sagemaker/tensorflow/training/test_performance_tensorflow_sm_training.py:173-176 | Stripping the trailing newline of a line read by `readlines` does not change whether it is marked, nor the figure found on it |
| BenchmarkLog.SamplesOfStripped | test/dlc_tests/benchmark/sagemaker/tensorflow/training/test_performance_tensorflow_sm_training.py:172-180 | For lines read by `readlines`, the stripped lines give exactly the samples of the original lines |
| BenchmarkLog.KeptSamples | test/dlc_tests/benchmark/sagemaker/tensorflow/training/test_performance_tensorflow_sm_training.py:181-187 | The lines kept in the GPU summary yield exactly the samples that are averaged |
| BenchmarkLog.GpuSummaryRoundTrip | test/dlc_tests/benchmark/sagemaker/tensorflow/training/test_performance_tensorflow_sm_training.py:172-187 | The GPU summary ends in a newline. Splitting the rest at newlines gives back the last 100 stripped marked lines, and reading those lines again gives the averaged samples |
| BenchmarkLog.GpuSummarySplits | test/dlc_tests/benchmark/sagemaker/tensorflow/training/test_performance_tensorflow_sm_training.py:181 | The GPU summary ends in a newline, and splitting the rest at newlines gives the last 100 lines, stripped |
| BenchmarkLog.KeepLastStripAll | test/dlc_tests/benchmark/sagemaker/tensorflow/training/test_performance_tensorflow_sm_training.py:174-181 | Stripping every line and then keeping the last 100 is the same as keeping the last 100 and then stripping them |
| BenchmarkLog.SumAppend | test/dlc_tests/benchmark/sagemaker/tensorflow/training/test_performance_tensorflow_sm_training.py:162 | The accumulated sum of a concatenation is the sum of the sums |
| DecimalToken.ThroughputToken | test/dlc_tests/benchmark/sagemaker/tensorflow/training/test_performance_tensorflow_sm_training.py:163 | The found group always matches `[0-9]+\.?[0-9]+` in full |
| DecimalToken.SearchIsLeftmostMatch | test/dlc_tests/benchmark/sagemaker/tensorflow/training/test_performance_tensorflow_sm_training.py:176 | The `re.search` fails exactly when the label followed by spaces and a token occurs nowhere. Otherwise it returns the token of the leftmost such occurrence |
| DecimalToken.TokenAtIsLongestMatch | test/dlc_tests/benchmark/sagemaker/tensorflow/training/test_performance_tensorflow_sm_training.py:163 | At a position, the matcher finds nothing exactly when no prefix there matches the token pattern. Otherwise it takes the longest prefix that does |
| DecimalToken.TokenPrefixIsLength | test/dlc_tests/benchmark/sagemaker/tensorflow/training/test_performance_tensorflow_sm_training.py:163 | Every prefix at a position that matches `[0-9]+\.?[0-9]+` in full has a length allowed by the digit runs there: two or more digits of the first run, or the first run, the dot and part of the second run |
| DecimalToken.TokenLengthIsPrefix | test/dlc_tests/benchmark/sagemaker/tensorflow/training/test_performance_tensorflow_sm_training.py:163 | Conversely, every length allowed by the digit runs gives a prefix that matches the token pattern in full |
| DecimalToken.SearchAppend | test/dlc_tests/benchmark/sagemaker/tensorflow/training/test_performance_tensorflow_sm_training.py:173-176 | A newline left at the end of the line by `readlines` does not change what the search finds |
| DecimalToken.TokenValue | test/dlc_tests/benchmark/sagemaker/tensorflow/training/test_performance_tensorflow_sm_training.py:162-166 | `float` of a token is never negative. `TokenValueScaled` and `TokenValueExamples` fix which number it is. `TokenValueBetweenIntegers` bounds it by the token's integer digits |
| DecimalToken.DigitValue | test/dlc_tests/benchmark/sagemaker/tensorflow/training/test_performance_tensorflow_sm_training.py:162-166 | A single digit denotes its own value, 0 to 9 |
| DecimalToken.DigitsValueSnoc | test/dlc_tests/benchmark/sagemaker/tensorflow/training/test_performance_tensorflow_sm_training.py:162-166 | Appending a digit multiplies the value of a digit string by ten and adds that digit |
| DecimalToken.DigitsValueAppend | test/dlc_tests/benchmark/sagemaker/tensorflow/training/test_performance_tensorflow_sm_training.py:162-166 | The digits of `a + b` denote the value of `a` times ten to the length of `b`, plus the value of `b` |
| DecimalToken.TokenValueScaled | test/dlc_tests/benchmark/sagemaker/tensorflow/training/test_performance_tensorflow_sm_training.py:162-166 | A token `a.b` times ten to the number of digits of `b` is the value of the digits `a + b`, the dot removed |
| DecimalToken.DigitsValueExamples | test/dlc_tests/benchmark/sagemaker/tensorflow/training/test_performance_tensorflow_sm_training.py:162-166 | The digit strings "97452" and "12" denote 97452 and 12 |
| DecimalToken.TokenValueExamples | test/dlc_tests/benchmark/sagemaker/tensorflow/training/test_performance_tensorflow_sm_training.py:162-166 | The token "974.52" denotes 974.52 and the token "12" denotes 12 |
| DecimalToken.TokenValueBetweenIntegers | test/dlc_tests/benchmark/sagemaker/tensorflow/training/test_performance_tensorflow_sm_training.py:175-179 | The value of a token lies in [n, n+1), where n is its integer digits. A token without a dot is exactly its integer |
| SmPerfTest.ProcessorOf | test/dlc_tests/benchmark/sagemaker/tensorflow/training/test_performance_tensorflow_sm_training.py:65 | The processor is "gpu" exactly when the image URI contains "gpu", and "cpu" otherwise |
| SmPerfTest.DeviceCudaStr | test/dlc_tests/benchmark/sagemaker/tensorflow/training/test_performance_tensorflow_sm_training.py:66-68 | The device string starts with the processor, and is just the processor off GPU |
| SmPerfTest.DeviceCudaStrRoundTrip | test/dlc_tests/benchmark/sagemaker/tensorflow/training/test_performance_tensorflow_sm_training.py:66-68 | On GPU, splitting the device string at '-' gives back "gpu" and the CUDA version |
| SmPerfTest.Ec2InstanceType | test/dlc_tests/benchmark/sagemaker/tensorflow/training/test_performance_tensorflow_sm_training.py:70 | The instance is a g5 instance exactly on GPU, and a c5 instance otherwise |
| SmPerfTest.PyVersionOf | test/dlc_tests/benchmark/sagemaker/tensorflow/training/test_performance_tensorflow_sm_training.py:72 | The version is "py2" exactly when the URI mentions py2. Otherwise it is "py37" exactly when the URI mentions py37. Otherwise it is "py3" |
| SmPerfTest.PathJoin | test/dlc_tests/benchmark/sagemaker/tensorflow/training/test_performance_tensorflow_sm_training.py:76-84 | `os.path.join` ends with its last component, and an absolute component replaces the path. Otherwise the result is the path, a "/" exactly when the path is non-empty and does not end in one, and the component |
| SmPerfTest.TargetUploadLocation | test/dlc_tests/benchmark/sagemaker/tensorflow/training/test_performance_tensorflow_sm_training.py:76-84 | The upload target ends with the Python version. `TargetUploadLocationShape` gives the whole path |
| SmPerfTest.TargetUploadLocationShape | test/dlc_tests/benchmark/sagemaker/tensorflow/training/test_performance_tensorflow_sm_training.py:76-84 | With ordinary components, the upload target is bucket/tensorflow/version/sagemaker/training/device/python-version |
| SmPerfTest.UploadLocation | test/dlc_tests/benchmark/sagemaker/tensorflow/training/test_performance_tensorflow_sm_training.py:112-113 | The upload location starts with the target. `UploadLocationRule` says when it is the target itself |
| SmPerfTest.UploadLocationRule | test/dlc_tests/benchmark/sagemaker/tensorflow/training/test_performance_tensorflow_sm_training.py:112-113 | The log stays at the target exactly when the run is `ok` or ended with return code 124. Otherwise it goes under the target, into "failure_log" |
| SmPerfTest.SelectThresholdTable | test/dlc_tests/benchmark/sagemaker/tensorflow/training/test_performance_tensorflow_sm_training.py:131-141 | A CPU table is chosen exactly for the cpu processor, and a 1-node table exactly for one node |
| SmPerfTest.PerNode | test/dlc_tests/benchmark/sagemaker/tensorflow/training/test_performance_tensorflow_sm_training.py:124 | The division fails exactly for zero nodes. Otherwise the per-node figure times the node count is the aggregate |
| SmPerfTest.Judge | test/dlc_tests/benchmark/sagemaker/tensorflow/training/test_performance_tensorflow_sm_training.py:147 | The final assertion passes exactly when the per-node throughput is strictly above the threshold |
| SmPerfTest.RunSmPerfTest | test/dlc_tests/benchmark/sagemaker/tensorflow/training/test_performance_tensorflow_sm_training.py:61-147 | A run is skipped exactly for a TF 1.x image. A pass needs a successful job, a successful upload, a commit id, and a per-node figure strictly above its threshold. `PassedIff` gives the exact condition |
| SmPerfTest.Conclude | test/dlc_tests/benchmark/sagemaker/tensorflow/training/test_performance_tensorflow_sm_training.py:121-147 | After the upload, the outcome is a log error exactly when the log does not read. A pass needs a successful job and a figure strictly above the threshold. `ConcludePassedIff` gives the exact condition |
| SmPerfTest.ConcludePassedIff | test/dlc_tests/benchmark/sagemaker/tensorflow/training/test_performance_tensorflow_sm_training.py:121-147 | After the upload, the run passes exactly when the log reads, there are nodes, the job succeeded, there is a threshold, and the aggregate divided by the nodes is above it. With at least one node, the division is equivalent to aggregate > threshold × nodes |
| SmPerfTest.PassedIff | test/dlc_tests/benchmark/sagemaker/tensorflow/training/test_performance_tensorflow_sm_training.py:61-147 | A whole run passes exactly when all of these hold: the image is not TF 1.x; the framework version is non-empty; the commit id is set; the upload succeeded; the log reads; there are nodes; the job succeeded; the table for this processor and node count has a threshold for the version; and the per-node throughput is strictly above it |
| SmPerfTest.PassedIffAggregate | test/dlc_tests/benchmark/sagemaker/tensorflow/training/test_performance_tensorflow_sm_training.py:61-147 | With at least one node, a run passes exactly when the aggregate throughput exceeds the threshold times the node count, with the other conditions as above |
| SmPerfTest.PassedMeansAboveThreshold | test/dlc_tests/benchmark/sagemaker/tensorflow/training/test_performance_tensorflow_sm_training.py:121-147 | A passing run reports a per-node figure above the looked-up threshold, and that figure times the node count is the log's aggregate |
| SmPerfTest.ConcludePassedShape | test/dlc_tests/benchmark/sagemaker/tensorflow/training/test_performance_tensorflow_sm_training.py:121-147 | A passing conclusion has a threshold, the per-node figure is strictly above it, and that figure times the nodes is the log's aggregate |
| SmPerfTest.RunConcludes | test/dlc_tests/benchmark/sagemaker/tensorflow/training/test_performance_tensorflow_sm_training.py:85-124 | Once the job name is built and the log uploaded, the run ends as the conclusion drawn from the log, the nodes, the job status and the threshold |
| SmPerfTest.NoCommitInfoEndsRun | test/dlc_tests/benchmark/sagemaker/tensorflow/training/test_performance_tensorflow_sm_training.py:75-85 | Without `CODEBUILD_RESOLVED_SOURCE_VERSION`, a non-1.x run with a framework version ends in the `TypeError` of the job name, whatever the job and its log did |
| SmPerfTest.UploadFailureEndsRun | test/dlc_tests/benchmark/sagemaker/tensorflow/training/test_performance_tensorflow_sm_training.py:115-121 | A failed `aws s3 cp` ends the run before the log is read |
| SmPerfTest.EqualToThresholdFails | test/dlc_tests/benchmark/sagemaker/tensorflow/training/test_performance_tensorflow_sm_training.py:147 | A throughput equal to the threshold fails, because the comparison is strict |
| SmPerfTest.LogErrorBeforeJobStatus | test/dlc_tests/benchmark/sagemaker/tensorflow/training/test_performance_tensorflow_sm_training.py:121-129 | An unreadable log is reported as a log error even when the job also failed, because the log is read before the job status is asserted |
| SmPerfTest.JobStatusBeforeThreshold | test/dlc_tests/benchmark/sagemaker/tensorflow/training/test_performance_tensorflow_sm_training.py:124-142 | A failed job with a readable log and nodes is reported as a failed job, even when there is no threshold for it, because the job status is asserted first |
| SmPerfTest.LowerThresholdStillPasses | test/dlc_tests/benchmark/sagemaker/tensorflow/training/test_performance_tensorflow_sm_training.py:142-147 | Lowering every threshold, and keeping every entry, never turns a pass into a failure |
| SmPerfTest.PerNodeExamples | test/dlc_tests/benchmark/sagemaker/tensorflow/training/test_performance_tensorflow_sm_training.py:124-147 | Four nodes at an aggregate of 100 give 25 per node, which fails a threshold of 30. One node at 128 passes a threshold of 100 |
| InferenceConftest.SagemakerRegions | test/sagemaker_tests/pytorch/inference/conftest.py:128-131 | The region list is non-empty and no region contains a comma |
| InferenceConftest.SagemakerRegionsRoundTrip | test/sagemaker_tests/pytorch/inference/conftest.py:128-131 | Joining the regions with commas gives back the option, and a list of comma-free regions is the list its joined option yields |
| InferenceConftest.PyVersion | test/sagemaker_tests/pytorch/inference/conftest.py:134-136 | The Python version is "py" followed by the chosen option's digits |
| InferenceConftest.PyVersionIsPy2 | test/sagemaker_tests/pytorch/inference/conftest.py:134-136 | Of the accepted choices, only "2" gives a version string containing "py2" |
| InferenceConftest.DockerImage | test/sagemaker_tests/pytorch/inference/conftest.py:151-153 | The local image name is the base name, a ':' and the tag. `ImageNamesEndInTag` states that the tag is what follows its last ':' |
| InferenceConftest.EcrImage | test/sagemaker_tests/pytorch/inference/conftest.py:219-226 | The ECR image name is the registry, a '/', the base name, a ':' and the tag. `ImageNamesEndInTag` and `StabilityaiBaseName` state what the rules read from it |
| InferenceConftest.UseGpu | test/sagemaker_tests/pytorch/inference/conftest.py:169-171 | `use_gpu` holds exactly for the processor "gpu". `DefaultInstanceTypeIsGpuIffProcessor` relates it to the device rule |
| InferenceConftest.Tag | test/sagemaker_tests/pytorch/inference/conftest.py:144-148 | A non-empty `--tag` is used as given |
| InferenceConftest.DefaultTagRoundTrip | test/sagemaker_tests/pytorch/inference/conftest.py:144-148 | Without a tag, the default tag splits at '-' into framework version, processor and Python version |
| InferenceConftest.ImageNamesEndInTag | test/sagemaker_tests/pytorch/inference/conftest.py:224-226 | The tag is the text after the last ':' of both the local image name (lines 151-153) and the ECR image name. The ECR name starts with the registry and a '/' |
| InferenceConftest.ImageNamesRoundTrip | test/sagemaker_tests/pytorch/inference/conftest.py:151-153 | With a ':'-free base name and tag, the local image name splits at ':' into exactly the base name and the tag. The ECR image name (lines 224-226) is the registry, a '/', then the local image name |
| InferenceConftest.InstanceType | test/sagemaker_tests/pytorch/inference/conftest.py:207-211 | A non-empty `--instance-type` is used as given. Otherwise the instance type is "local" for the processor "cpu" and "local_gpu" for any other processor |
| InferenceConftest.DefaultInstanceTypeIsGpuIffProcessor | test/sagemaker_tests/pytorch/inference/conftest.py:207-211 | With the default instance type, the GPU test of the device rules never raises, and it says GPU exactly when the processor is "gpu" |
| InferenceConftest.IsGpu | test/sagemaker_tests/pytorch/inference/conftest.py:246 | Without `use_gpu`, an instance type shorter than four characters raises. Otherwise the test is on GPU exactly when `use_gpu` is set or the fourth character is 'g' or 'p' |
| InferenceConftest.SkipByDeviceType | test/sagemaker_tests/pytorch/inference/conftest.py:244-272 | The device rule. `DeviceTypeRunsIff`, `NeuronMismatchFirst` and `ShortInstanceTypeRaises` state when it runs, skips and raises |
| InferenceConftest.IsNeuronInstance | test/sagemaker_tests/pytorch/inference/conftest.py:249 | An instance is a neuron instance when its type starts with "ml.inf1". `DeviceTypeRunsIff` states how the device rule uses it |
| InferenceConftest.IsNeuronxInstance | test/sagemaker_tests/pytorch/inference/conftest.py:250 | An instance is a neuronx instance when its type starts with "ml.trn1" or "ml.inf2". `DeviceTypeRunsIff` states how the device rule uses it |
| InferenceConftest.DeviceTypeRunsIff | test/sagemaker_tests/pytorch/inference/conftest.py:244-272 | A test runs exactly when its neuron and neuronx markers match the instance, a GPU test is on GPU without an accelerator, a CPU test is off GPU without an accelerator, and an EIA test has an accelerator |
| InferenceConftest.NeuronMismatchFirst | test/sagemaker_tests/pytorch/inference/conftest.py:255-256 | The "test running on" message is given exactly for a neuron or neuronx mismatch, whatever the other markers say |
| InferenceConftest.ShortInstanceTypeRaises | test/sagemaker_tests/pytorch/inference/conftest.py:244-246 | Without `use_gpu`, an instance type shorter than four characters makes the device rule raise IndexError |
| InferenceConftest.SkipByPyVersion | test/sagemaker_tests/pytorch/inference/conftest.py:275-278 | A test is skipped exactly when it is marked skip_py2 and the Python version contains "py2" |
| InferenceConftest.SkipPy2OnlyForPython2 | test/sagemaker_tests/pytorch/inference/conftest.py:275-278 | With a `--py-version` choice, a skip_py2 test is skipped only for the choice "2" |
| InferenceConftest.SkipRestrictedRegions | test/sagemaker_tests/pytorch/inference/conftest.py:281-288 | The region rule never raises. `RestrictedRegionsRule` states exactly what it skips |
| InferenceConftest.RestrictedRegionsRule | test/sagemaker_tests/pytorch/inference/conftest.py:281-288 | Exactly the p4 instances in NO_P4 regions and the g5 instances in NO_G5 regions are skipped, and every skipped instance counts as GPU under the device rule |
| InferenceConftest.SkipGpuPy2 | test/sagemaker_tests/pytorch/inference/conftest.py:291-300 | The skip_gpu_py2 rule. `SkipGpuPy2Rule` states exactly what it skips |
| InferenceConftest.SkipGpuPy2Rule | test/sagemaker_tests/pytorch/inference/conftest.py:291-300 | Only GPU runs with a py2 version of framework 1.4.0 of a skip_gpu_py2 test are skipped |
| InferenceConftest.SkipByImage | test/sagemaker_tests/pytorch/inference/conftest.py:229-241 | The image rule never raises. `ImageRuleRunsIff` states exactly when it runs |
| InferenceConftest.ImageRuleRunsIff | test/sagemaker_tests/pytorch/inference/conftest.py:229-241 | A test runs exactly when a stabilityai_only test has a StabilityAI image and a skip_stabilityai test does not |
| InferenceConftest.StabilityaiBaseName | test/sagemaker_tests/pytorch/inference/conftest.py:224-241 | For a base name mentioning stabilityai, every ECR image of it skips exactly the skip_stabilityai tests |
| InferenceConftest.SomeKeywordIn | test/sagemaker_tests/pytorch/inference/conftest.py:338-340 | True exactly when some keyword of the list is a substring of the test name |
| InferenceConftest.IsTestDisabled | test/sagemaker_tests/pytorch/inference/conftest.py:318-341 | The remote flags' verdict on a test. `IsTestDisabledRule` and `DisabledVariants` state what it decides |
| InferenceConftest.IsTestDisabledRule | test/sagemaker_tests/pytorch/inference/conftest.py:318-341 | A test is disabled exactly when its build project lists this source version, and that version's list is empty or has a keyword contained in the test name |
| InferenceConftest.DisabledVariants | test/sagemaker_tests/pytorch/inference/conftest.py:330-340 | Disabling a test disables every parametrized variant `name[...]` of it |
| InferenceConftest.BuildName | test/sagemaker_tests/pytorch/inference/conftest.py:349 | The CodeBuild project name of the ARN, None without an ARN. `BuildNameShape` and `BuildNameOfArn` state its shape |
| InferenceConftest.BuildNameShape | test/sagemaker_tests/pytorch/inference/conftest.py:349 | The build name has no '/' or ':', starts the text after the ARN's last '/', and runs up to that text's first ':' |
| InferenceConftest.BuildNameOfArn | test/sagemaker_tests/pytorch/inference/conftest.py:349 | For a CodeBuild ARN ".../project:build-id", the build name is the project |
| InferenceConftest.DisableTest | test/sagemaker_tests/pytorch/inference/conftest.py:344-353 | The disable_test fixture. `DisableTestRule` states exactly what it skips |
| InferenceConftest.DisableTestRule | test/sagemaker_tests/pytorch/inference/conftest.py:344-353 | Nothing is skipped outside CodeBuild. Inside it, a test is skipped exactly when the build name and version are non-empty and the remote flags disable the test |
| InferenceConftest.SomeKeyMentions | test/sagemaker_tests/pytorch/inference/conftest.py:368-370 | True exactly when some key of the last-failed cache contains the test name |
| InferenceConftest.SkipSucceededBefore | test/sagemaker_tests/pytorch/inference/conftest.py:356-371 | The last-failed rule never raises. `SucceededBeforeRule` states exactly what it skips |
| InferenceConftest.SucceededBeforeRule | test/sagemaker_tests/pytorch/inference/conftest.py:356-371 | A test is skipped exactly when the cache exists and no key contains its name. So no cache skips nothing, an empty cache skips everything, and a listed test always runs |
| Common.StartsWith | test/dlc_tests/benchmark/sagemaker/tensorflow/training/test_performance_tensorflow_sm_training.py:62 | `s.startswith(p)`: p is a prefix of s. `PathJoin`, `Ec2InstanceType` and `RestrictedRegionsRule` state their results with it |
| Common.EndsWith | test/dlc_tests/benchmark/sagemaker/tensorflow/training/test_performance_tensorflow_sm_training.py:76-84 | `s.endswith(p)`: p is a suffix of s. `PathJoin` and `UploadLocationRule` state their results with it |
| Common.Contains | test/dlc_tests/benchmark/sagemaker/tensorflow/training/test_performance_tensorflow_sm_training.py:65 | `sub in s`: sub occurs in s at some index. `ContainsAppend` and `ContainsInside` are its lemmas, and `ProcessorOf` and `PyVersionOf` state their results with it |
| Common.Split | test/sagemaker_tests/pytorch/inference/conftest.py:131 | `split(c)` gives at least one piece, and no piece contains the separator. `JoinSplit` is its inverse |
| Common.Join | test/sagemaker_tests/pytorch/inference/conftest.py:131 | `c.join`. `JoinSplit` and `SplitJoin` relate it to `split` |
| Common.JoinSplit | test/sagemaker_tests/pytorch/inference/conftest.py:131 | Joining the pieces of `split` with the separator gives back the string |
| Common.SplitJoin | test/sagemaker_tests/pytorch/inference/conftest.py:131 | Splitting a join of separator-free pieces gives back the pieces |
| Common.SplitFirst | test/sagemaker_tests/pytorch/inference/conftest.py:349 | `split(c)[0]` is the separator-free prefix that runs up to the first separator |
| Common.LastPart | test/sagemaker_tests/pytorch/inference/conftest.py:349 | The text after the last separator contains no separator. `LastPartIsLastPiece` shows it is `split(c)[-1]` |
| Common.LastPartIsLastPiece | test/sagemaker_tests/pytorch/inference/conftest.py:349 | The text after the last separator is the last piece of `split` |
| Common.LastPartAfter | test/sagemaker_tests/pytorch/inference/conftest.py:349 | `split(c)[-1]` of prefix + c + rest is rest when rest holds no c |
| Common.Strip | test/dlc_tests/benchmark/sagemaker/tensorflow/training/test_performance_tensorflow_sm_training.py:174 | `strip(c)` leaves c at neither end. `StripReadLine` states what it does to a line read by `readlines` |
| Common.StripReadLine | test/dlc_tests/benchmark/sagemaker/tensorflow/training/test_performance_tensorflow_sm_training.py:174 | `strip("\n")` of a line read by `readlines` leaves no newline and removes at most the final one |
| Common.KeepLast | test/dlc_tests/benchmark/sagemaker/tensorflow/training/test_performance_tensorflow_sm_training.py:181 | For n >= 1, `xs[-n:]` has min(n, len) elements and is a suffix of the list |

## Left out

- Reading the log file, launching the SageMaker job, `ctx.run`, the `aws s3 cp` upload, logging, and the clock (`time.strftime`, the random sleep) are I/O. The job's `ok` flag and return code, whether the upload succeeded, and the log's lines are parameters.
- The training job name and the log file name (lines 85 and 97 of the benchmark) are not built as strings, because they are used only as I/O names. Building the job name can raise, and the model keeps those two errors as outcomes: an empty framework version and an unset commit id.
- `get_framework_and_version_from_tag`, `get_cuda_version_from_tag`, `get_threshold_for_image` and the threshold constants are not part of this model. The framework version, the CUDA version and the threshold lookup are parameters. The lookup returns None for a version that has no threshold.
- The model does not build the `BENCHMARK_RESULTS_S3_BUCKET` value; `TargetUploadLocation` takes the bucket as a parameter.
- Python floats are exact reals, so rounding in `float()`, in the sum and in the mean is not modelled. The CPU throughput's initial integer 0 is the real 0.
- The regular-expression engine is not modelled in general; only the one throughput pattern is.
- `_get_remote_override_flags` reads S3 through STS. The model takes the flags map it would return, so a `ClientError` is the same as an empty map. Any other failure of the S3 or STS read, or of the JSON decode, makes the test error, and that is not modelled.
- `NO_P4_REGIONS`, `NO_G5_REGIONS` and `get_ecr_registry` are not part of this model. The region lists and the registry are parameters.
- The environment variables (`CODEBUILD_BUILD_ARN`, `CODEBUILD_RESOLVED_SOURCE_VERSION`), the command-line options and the last-failed cache are parameters. A test's markers are booleans.
- The following are pytest plumbing or session objects, not selection rules:
  - `pytest_addoption` (only its `--py-version` choices are kept), `pytest_configure`, `pytest_runtest_setup` (the `--efa` filter) and `pytest_collection_modifyitems`;
  - `opt_ml`, `build_base_image`, and the SageMaker session fixtures.
- Fixtures that only return an option (`docker_base_name`, `region`, `framework_version`, `processor`, `aws_id`, `accelerator_type`) become the parameters of the functions that use them.
- `--py-version` values outside the declared choices are rejected by pytest before any fixture runs. `PyVersion` requires one of the choices for that reason.
- `DefaultTagRoundTrip`: the round trip is stated only when none of the three parts contains '-'. With a dash inside a part the split has more pieces.
- `BuildNameOfArn`: stated only for ARNs of the shape ".../project:id" with a '/'-free and ':'-free project. `BuildNameShape` covers every other non-empty ARN.
- `SamplesOfStripped`: stated only for lines as `readlines` yields them, whose samples read without error.
- `GpuSummaryRoundTrip`: stated only for lines as `readlines` yields them, whose samples read without error.
- `DecimalToken.SkipSpaces` (the `[ ]*` of the pattern): its contract does not restate that it skips only spaces. `SearchIsLeftmostMatch` and `TokenAtIsLongestMatch` carry that meaning.
- A failed job's `AssertionError` and the exceptions of `_print_results_of_test` are modelled as `Outcome` and `ExtractError` values, not as exceptions. Their messages are not modelled.
