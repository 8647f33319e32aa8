/**
 * The test-selection rules of the PyTorch SageMaker inference test suite:
 * the fixtures that default the image tag, the image names, the instance
 * type and the region list, and the autouse fixtures that skip a test
 * because of its markers, the instance it would run on, the region, a
 * remote "disabled tests" list or the last-failed cache.
 *
 * Each autouse fixture becomes a function from its inputs to a Verdict.  A
 * test's markers are booleans; the environment variables, the command-line
 * options, the remote override flags and the last-failed cache are
 * parameters.
 */
module InferenceConftest {
  import opened Common

  /** What an autouse fixture does with a test: let it run, skip it with a
      message, or fail with an IndexError (`instance_type[3]` on a short
      instance type). */
  datatype Verdict = Run | Skip(message: string) | IndexError

  /** The markers of a test that the rules look at. */
  datatype Markers = Markers(
    neuronTest: bool, neuronxTest: bool,
    gpuTest: bool, cpuTest: bool, eiaTest: bool,
    skipPy2: bool, skipGpuPy2: bool,
    stabilityaiOnly: bool, skipStabilityai: bool)

  // ------------------------------------------------------------------
  // Fixtures

  /** `--sagemaker-regions` split at its commas. */
  function SagemakerRegions(option: string): (regions: seq<string>)
    ensures |regions| >= 1
    ensures forall k :: 0 <= k < |regions| ==> ',' !in regions[k]
  {
    Split(option, ',')
  }

  /** Joining the regions with commas gives back the option, and a list of
      comma-free regions is what the option made of them yields. */
  lemma SagemakerRegionsRoundTrip(option: string, regions: seq<string>)
    requires |regions| >= 1 && forall k :: 0 <= k < |regions| ==> ',' !in regions[k]
    ensures Join(SagemakerRegions(option), ',') == option
    ensures SagemakerRegions(Join(regions, ',')) == regions
  {
    JoinSplit(option, ',');
    SplitJoin(regions, ',');
  }

  /** The choices `--py-version` accepts. */
  const PyVersionChoices: seq<string> := ["2", "3", "37", "38", "39", "310", "311", "312"]

  /** `"py{}".format(int(option))`; every choice is already a plain decimal
      numeral, so `int` gives back the same digits. */
  function PyVersion(option: string): (py: string)
    requires option in PyVersionChoices
    ensures StartsWith(py, "py") && py[2..] == option
  {
    "py" + option
  }

  /** Only the "2" choice yields a Python 2 version string. */
  lemma PyVersionIsPy2(option: string)
    requires option in PyVersionChoices
    ensures Contains(PyVersion(option), "py2") <==> option == "2"
  {
    var py := PyVersion(option);
    if option == "2" {
      assert py == "py2";
      ContainsItself("py2");
    } else {
      assert option[0] == '3';
      assert forall j :: 0 <= j < |option| ==> '0' <= option[j] <= '9';
      assert forall j :: 2 <= j < |py| ==> py[j] == option[j - 2];
      NoPy2After(py);
    }
  }

  /** A string whose first three characters are not "py2" and which has no
      other 'p' does not contain "py2". */
  lemma NoPy2After(py: string)
    requires |py| >= 3 && py[2] != '2'
    requires forall j :: 1 <= j < |py| ==> py[j] != 'p'
    ensures !Contains(py, "py2")
  {
    forall i | 0 <= i <= |py| - 3 ensures !OccursAt(py, "py2", i) {
      if i == 0 {
        assert py[i..i + 3][2] == py[2];
      } else {
        assert py[i..i + 3][0] == py[i];
      }
    }
  }

  /** `use_gpu`: the processor option is "gpu". */
  function UseGpu(processor: string): bool
  {
    processor == "gpu"
  }

  /** `fixture_tag`: the `--tag` option when given and non-empty, otherwise
      "{framework_version}-{processor}-{py_version}". */
  function Tag(provided: Option<string>, frameworkVersion: string, processor: string, pyVersion: string): (tag: string)
    ensures provided.Some? && provided.value != [] ==> tag == provided.value
  {
    if provided.Some? && provided.value != [] then provided.value
    else frameworkVersion + "-" + processor + "-" + pyVersion
  }

  /** The default tag splits back into its three parts. */
  lemma DefaultTagRoundTrip(provided: Option<string>, frameworkVersion: string, processor: string, pyVersion: string)
    requires provided.None? || provided.value == []
    requires '-' !in frameworkVersion && '-' !in processor && '-' !in pyVersion
    ensures Split(Tag(provided, frameworkVersion, processor, pyVersion), '-') == [frameworkVersion, processor, pyVersion]
  {
    SplitThree(frameworkVersion, processor, pyVersion, '-');
  }

  lemma SplitThree(a: string, b: string, d: string, c: char)
    requires c !in a && c !in b && c !in d
    ensures Split(a + [c] + b + [c] + d, c) == [a, b, d]
  {
    assert a + [c] + b + [c] + d == a + [c] + (b + [c] + d);
    SplitCons(a, c, b + [c] + d);
    SplitCons(b, c, d);
  }

  /** `fixture_docker_image`: "{docker_base_name}:{tag}". */
  function DockerImage(baseName: string, tag: string): string
  {
    baseName + ":" + tag
  }

  /** `fixture_ecr_image`: "{docker_registry}/{docker_base_name}:{tag}". */
  function EcrImage(registry: string, baseName: string, tag: string): string
  {
    registry + "/" + baseName + ":" + tag
  }

  /** The tag is what follows the last ':' of either image name, and the ECR
      image starts with the registry and a '/'. */
  lemma ImageNamesEndInTag(registry: string, baseName: string, tag: string)
    requires ':' !in tag
    ensures LastPart(DockerImage(baseName, tag), ':') == tag
    ensures LastPart(EcrImage(registry, baseName, tag), ':') == tag
    ensures StartsWith(EcrImage(registry, baseName, tag), registry + "/")
  {
    LastPartAfter(baseName, ':', tag);
    assert EcrImage(registry, baseName, tag) == (registry + "/" + baseName) + [':'] + tag;
    LastPartAfter(registry + "/" + baseName, ':', tag);
  }

  /** With a ':'-free base name and tag, the local image name splits at ':'
      into exactly the base name and the tag, and the ECR image name is the
      registry, a '/', then the local image name. */
  lemma ImageNamesRoundTrip(registry: string, baseName: string, tag: string)
    requires ':' !in baseName && ':' !in tag
    ensures Split(DockerImage(baseName, tag), ':') == [baseName, tag]
    ensures |EcrImage(registry, baseName, tag)| > |registry|
    ensures EcrImage(registry, baseName, tag)[..|registry|] == registry
    ensures EcrImage(registry, baseName, tag)[|registry|] == '/'
    ensures EcrImage(registry, baseName, tag)[|registry| + 1..] == DockerImage(baseName, tag)
  {
    assert Join([baseName, tag], ':') == DockerImage(baseName, tag);
    SplitJoin([baseName, tag], ':');
    assert EcrImage(registry, baseName, tag) == registry + "/" + DockerImage(baseName, tag);
  }

  /** `fixture_instance_type`: the `--instance-type` option when given and
      non-empty, otherwise "local" for the cpu processor and "local_gpu" for
      any other. */
  function InstanceType(provided: Option<string>, processor: string): (instanceType: string)
    ensures provided.Some? && provided.value != [] ==> instanceType == provided.value
    ensures !(provided.Some? && provided.value != []) && processor == "cpu" ==> instanceType == "local"
    ensures !(provided.Some? && provided.value != []) && processor != "cpu" ==> instanceType == "local_gpu"
  {
    if provided.Some? && provided.value != [] then provided.value
    else if processor == "cpu" then "local" else "local_gpu"
  }

  // ------------------------------------------------------------------
  // skip_by_device_type

  /** `use_gpu or instance_type[3] in ["g", "p"]`; None where the index is out of range. */
  function IsGpu(useGpu: bool, instanceType: string): (r: Option<bool>)
    ensures r.None? <==> !useGpu && |instanceType| < 4
    ensures r.Some? ==> (r.value <==> useGpu || instanceType[3] in {'g', 'p'})
  {
    if useGpu then Some(true)
    else if |instanceType| < 4 then None
    else Some(instanceType[3] == 'g' || instanceType[3] == 'p')
  }

  predicate IsNeuronInstance(instanceType: string) {
    StartsWith(instanceType, "ml.inf1")
  }

  predicate IsNeuronxInstance(instanceType: string) {
    StartsWith(instanceType, "ml.trn1") || StartsWith(instanceType, "ml.inf2")
  }

  /** The four rules in order: a neuron or neuronx mismatch between test and
      instance; a GPU test off GPU or a CPU test on GPU; a GPU or CPU test
      with an accelerator; an EIA test without one. */
  function SkipByDeviceType(useGpu: bool, instanceType: string, acceleratorType: Option<string>, m: Markers): Verdict
  {
    match IsGpu(useGpu, instanceType)
    case None => IndexError
    case Some(isGpu) =>
      var isEia := acceleratorType.Some?;
      if m.neuronTest != IsNeuronInstance(instanceType) || m.neuronxTest != IsNeuronxInstance(instanceType) then
        Skip("Skipping because test running on '" + instanceType + "' instance")
      else if (m.gpuTest && !isGpu) || (m.cpuTest && isGpu) then
        Skip("Skipping because running on '" + instanceType + "' instance")
      else if (m.gpuTest || m.cpuTest) && isEia then
        Skip("Skipping because running on '" + instanceType + "' instance")
      else if m.eiaTest && !isEia then
        Skip("Skipping because running on '" + instanceType + "' instance")
      else Run
  }

  /** A test runs exactly when its neuron markers match the instance, a GPU
      test is on a GPU without an accelerator, a CPU test is off GPU without
      an accelerator, and an EIA test has an accelerator. */
  lemma DeviceTypeRunsIff(useGpu: bool, instanceType: string, acceleratorType: Option<string>, m: Markers)
    requires useGpu || |instanceType| >= 4
    ensures var isGpu := useGpu || instanceType[3] in {'g', 'p'};
      var isEia := acceleratorType.Some?;
      SkipByDeviceType(useGpu, instanceType, acceleratorType, m) == Run <==>
        && m.neuronTest == IsNeuronInstance(instanceType)
        && m.neuronxTest == IsNeuronxInstance(instanceType)
        && (m.gpuTest ==> isGpu && !isEia)
        && (m.cpuTest ==> !isGpu && !isEia)
        && (m.eiaTest ==> isEia)
    ensures SkipByDeviceType(useGpu, instanceType, acceleratorType, m) != IndexError
  {
  }

  /** A neuron mismatch is reported first, with its own message, whatever the
      other markers say; the other rules share one message. */
  lemma NeuronMismatchFirst(useGpu: bool, instanceType: string, acceleratorType: Option<string>, m: Markers)
    requires useGpu || |instanceType| >= 4
    ensures var v := SkipByDeviceType(useGpu, instanceType, acceleratorType, m);
      (m.neuronTest != IsNeuronInstance(instanceType) || m.neuronxTest != IsNeuronxInstance(instanceType))
      <==> v == Skip("Skipping because test running on '" + instanceType + "' instance")
  {
    var a := "Skipping because test running on '" + instanceType + "' instance";
    var b := "Skipping because running on '" + instanceType + "' instance";
    assert a[17] != b[17];
  }

  /** Without `use_gpu`, an instance type shorter than four characters raises. */
  lemma ShortInstanceTypeRaises(instanceType: string, acceleratorType: Option<string>, m: Markers)
    requires |instanceType| < 4
    ensures SkipByDeviceType(false, instanceType, acceleratorType, m) == IndexError
  {
  }

  /** With the default instance type the device rule never raises, and the
      test counts as on GPU exactly when the processor is "gpu". */
  lemma DefaultInstanceTypeIsGpuIffProcessor(processor: string)
    ensures var it := InstanceType(None, processor);
      IsGpu(UseGpu(processor), it) == Some(processor == "gpu")
  {
    assert "local"[3] == 'a' && "local_gpu"[3] == 'a';
  }

  // ------------------------------------------------------------------
  // skip_by_py_version, skip_gpu_instance_restricted_regions, skip_gpu_py2

  function SkipByPyVersion(m: Markers, pyVersion: string): (v: Verdict)
    ensures v != IndexError
    ensures v.Skip? <==> m.skipPy2 && Contains(pyVersion, "py2")
  {
    if m.skipPy2 && Contains(pyVersion, "py2") then Skip("Skipping the test because Python 2 is not supported.")
    else Run
  }

  /** With a `--py-version` choice, a skip_py2 test is skipped only for "2". */
  lemma SkipPy2OnlyForPython2(m: Markers, option: string)
    requires option in PyVersionChoices
    ensures SkipByPyVersion(m, PyVersion(option)).Skip? <==> m.skipPy2 && option == "2"
  {
    PyVersionIsPy2(option);
  }

  /** The region restriction: no p4 instances in the NO_P4 regions and no g5
      instances in the NO_G5 regions. */
  function SkipRestrictedRegions(region: string, instanceType: string, noP4Regions: seq<string>, noG5Regions: seq<string>): (v: Verdict)
    ensures v.Run? || v.Skip?
  {
    if (region in noP4Regions && StartsWith(instanceType, "ml.p4"))
      || (region in noG5Regions && StartsWith(instanceType, "ml.g5")) then
      Skip("Skipping GPU test in region " + region + " with instance type " + instanceType)
    else Run
  }

  /** The restriction skips exactly the p4 instances of the NO_P4 regions and
      the g5 instances of the NO_G5 regions, and every instance it skips is a
      GPU instance by the device rule's test. */
  lemma RestrictedRegionsRule(region: string, instanceType: string, noP4Regions: seq<string>, noG5Regions: seq<string>)
    ensures SkipRestrictedRegions(region, instanceType, noP4Regions, noG5Regions).Skip? <==>
      (region in noP4Regions && StartsWith(instanceType, "ml.p4"))
      || (region in noG5Regions && StartsWith(instanceType, "ml.g5"))
    ensures SkipRestrictedRegions(region, instanceType, noP4Regions, noG5Regions).Skip? ==>
      IsGpu(false, instanceType) == Some(true)
  {
    if StartsWith(instanceType, "ml.p4") {
      assert instanceType[3] == "ml.p4"[3] == 'p';
    }
    if StartsWith(instanceType, "ml.g5") {
      assert instanceType[3] == "ml.g5"[3] == 'g';
    }
  }

  function SkipGpuPy2(useGpu: bool, instanceType: string, m: Markers, pyVersion: string, frameworkVersion: string): Verdict
  {
    match IsGpu(useGpu, instanceType)
    case None => IndexError
    case Some(isGpu) =>
      if m.skipGpuPy2 && isGpu && Contains(pyVersion, "py2") && frameworkVersion == "1.4.0" then
        Skip("Skipping the test until mms issue resolved.")
      else Run
  }

  /** skip_gpu_py2 skips only GPU Python 2 runs of framework 1.4.0. */
  lemma SkipGpuPy2Rule(useGpu: bool, instanceType: string, m: Markers, pyVersion: string, frameworkVersion: string)
    ensures SkipGpuPy2(useGpu, instanceType, m, pyVersion, frameworkVersion).Skip? <==>
      && IsGpu(useGpu, instanceType) == Some(true)
      && m.skipGpuPy2 && Contains(pyVersion, "py2") && frameworkVersion == "1.4.0"
  {
  }

  // ------------------------------------------------------------------
  // skip_based_on_image_and_marker_combination

  function SkipByImage(ecrImage: string, m: Markers): (v: Verdict)
    ensures v.Run? || v.Skip?
  {
    if m.stabilityaiOnly && !Contains(ecrImage, "stabilityai") then
      Skip("Skipping because " + ecrImage + " is not StabilityAI image and the test is supposed to run for only stability images")
    else if m.skipStabilityai && Contains(ecrImage, "stabilityai") then
      Skip("Skipping because " + ecrImage + " is StabilityAI image and the test is not StabilityAI test.")
    else Run
  }

  /** A test runs exactly when a stabilityai-only test has a StabilityAI image
      and a skip-stabilityai test does not. */
  lemma ImageRuleRunsIff(ecrImage: string, m: Markers)
    ensures SkipByImage(ecrImage, m) == Run <==>
      (m.stabilityaiOnly ==> Contains(ecrImage, "stabilityai"))
      && (m.skipStabilityai ==> !Contains(ecrImage, "stabilityai"))
    ensures SkipByImage(ecrImage, m) != IndexError
  {
  }

  /** A base name mentioning stabilityai makes every ECR image of it a
      StabilityAI image: skip_stabilityai tests are skipped on it and
      stabilityai_only tests are not. */
  lemma StabilityaiBaseName(registry: string, baseName: string, tag: string, m: Markers)
    requires Contains(baseName, "stabilityai")
    ensures SkipByImage(EcrImage(registry, baseName, tag), m).Skip? <==> m.skipStabilityai
  {
    ContainsInside(registry + "/", baseName, ":" + tag, "stabilityai");
    assert EcrImage(registry, baseName, tag) == registry + "/" + baseName + (":" + tag);
  }

  // ------------------------------------------------------------------
  // disable_test and _is_test_disabled

  /** Some keyword of the list is a substring of the test name. */
  function SomeKeywordIn(keywords: seq<string>, testName: string): (r: bool)
    ensures r <==> exists k :: 0 <= k < |keywords| && Contains(testName, keywords[k])
  {
    if keywords == [] then false
    else
      var last := keywords[|keywords| - 1];
      var r := SomeKeywordIn(keywords[..|keywords| - 1], testName) || Contains(testName, last);
      assert forall k :: 0 <= k < |keywords| - 1 ==> keywords[..|keywords| - 1][k] == keywords[k];
      r
  }

  /** `_is_test_disabled`: the remote flags map a build project to source
      versions, each with a list of test keywords. */
  function IsTestDisabled(flags: map<string, map<string, seq<string>>>, testName: string, buildName: string, version: string): bool
  {
    var build := if buildName in flags then flags[buildName] else map[];
    if version in build then build[version] == [] || SomeKeywordIn(build[version], testName)
    else false
  }

  /** A test is disabled exactly when its build project lists this version,
      and the version's list is either empty (everything is disabled) or has
      a keyword that is a substring of the test name. */
  lemma IsTestDisabledRule(flags: map<string, map<string, seq<string>>>, testName: string, buildName: string, version: string)
    ensures IsTestDisabled(flags, testName, buildName, version) <==>
      && buildName in flags
      && version in flags[buildName]
      && var keywords := flags[buildName][version];
        keywords == [] || exists k :: 0 <= k < |keywords| && Contains(testName, keywords[k])
  {
  }

  /** A keyword disables every test whose name contains it, so all
      parametrized variants `name[...]` of a disabled test are disabled too. */
  lemma DisabledVariants(flags: map<string, map<string, seq<string>>>, testName: string, params: string, buildName: string, version: string)
    requires IsTestDisabled(flags, testName, buildName, version)
    ensures IsTestDisabled(flags, testName + "[" + params + "]", buildName, version)
  {
    var keywords := flags[buildName][version];
    if keywords != [] {
      var k :| 0 <= k < |keywords| && Contains(testName, keywords[k]);
      ContainsInside([], testName, "[" + params + "]", keywords[k]);
      assert [] + testName + ("[" + params + "]") == testName + "[" + params + "]";
      assert Contains(testName + "[" + params + "]", keywords[k]);
    }
  }

  /** The build project in `CODEBUILD_BUILD_ARN`: the text after the last '/',
      cut at the first ':'; none when the variable is unset or empty. */
  function BuildName(buildArn: Option<string>): Option<string>
  {
    if buildArn.None? || buildArn.value == [] then None
    else Some(Split(LastPart(buildArn.value, '/'), ':')[0])
  }

  /** The build name holds neither '/' nor ':' and starts the text after the
      last '/' of the ARN, running up to its first ':'. */
  lemma BuildNameShape(buildArn: string)
    requires buildArn != []
    ensures var b := BuildName(Some(buildArn)).value; var tail := LastPart(buildArn, '/');
      && '/' !in b && ':' !in b
      && StartsWith(tail, b) && (|b| == |tail| || tail[|b|] == ':')
  {
    var tail := LastPart(buildArn, '/');
    SplitFirst(tail, ':');
    var b := Split(tail, ':')[0];
    assert '/' !in tail;
    forall i | 0 <= i < |b| ensures b[i] != '/' {
      assert b[i] == tail[i];
    }
  }

  /** A CodeBuild ARN ".../<project>:<build id>" names the project. */
  lemma BuildNameOfArn(prefix: string, project: string, buildId: string)
    requires '/' !in project && ':' !in project && '/' !in buildId
    ensures BuildName(Some(prefix + "/" + project + ":" + buildId)) == Some(project)
  {
    var rest := project + ":" + buildId;
    assert '/' !in rest by {
      forall i | 0 <= i < |rest| ensures rest[i] != '/' {
        if i < |project| { assert rest[i] == project[i]; }
        else if i > |project| { assert rest[i] == buildId[i - |project| - 1]; }
      }
    }
    assert prefix + "/" + project + ":" + buildId == prefix + ['/'] + rest;
    LastPartAfter(prefix, '/', rest);
    assert rest == project + [':'] + buildId;
    SplitCons(project, ':', buildId);
  }

  /** `disable_test`: skip when both the build name and the source version are
      present and non-empty and the remote flags disable the test. */
  function DisableTest(flags: map<string, map<string, seq<string>>>, testName: string,
                       buildArn: Option<string>, version: Option<string>): Verdict
  {
    var buildName := BuildName(buildArn);
    if buildName.Some? && buildName.value != [] && version.Some? && version.value != []
      && IsTestDisabled(flags, testName, buildName.value, version.value) then
      Skip("Skipping " + testName + " test because it has been disabled.")
    else Run
  }

  /** Outside CodeBuild (no ARN or no source version) nothing is disabled; in
      it, the test is skipped exactly when the flags disable it. */
  lemma DisableTestRule(flags: map<string, map<string, seq<string>>>, testName: string,
                        buildArn: Option<string>, version: Option<string>)
    ensures DisableTest(flags, testName, buildArn, version) != IndexError
    ensures buildArn.None? || version.None? ==> DisableTest(flags, testName, buildArn, version) == Run
    ensures DisableTest(flags, testName, buildArn, version).Skip? <==>
      && BuildName(buildArn).Some? && BuildName(buildArn).value != []
      && version.Some? && version.value != []
      && IsTestDisabled(flags, testName, BuildName(buildArn).value, version.value)
  {
  }

  // ------------------------------------------------------------------
  // skip_test_successfully_executed_before

  /** The test name is a substring of some key of the last-failed cache. */
  function SomeKeyMentions(keys: seq<string>, testName: string): (r: bool)
    ensures r <==> exists k :: 0 <= k < |keys| && Contains(keys[k], testName)
  {
    if keys == [] then false
    else
      var r := SomeKeyMentions(keys[..|keys| - 1], testName) || Contains(keys[|keys| - 1], testName);
      assert forall k :: 0 <= k < |keys| - 1 ==> keys[..|keys| - 1][k] == keys[k];
      r
  }

  /** Skip a test that the last-failed cache exists for but does not mention.
      `lastFailed` is the list of the cache's keys, None when there is no cache. */
  function SkipSucceededBefore(testName: string, lastFailed: Option<seq<string>>): (v: Verdict)
    ensures v.Run? || v.Skip?
  {
    if lastFailed.Some? && !SomeKeyMentions(lastFailed.value, testName) then
      Skip("Skipping " + testName + " because it was successfully executed for this commit")
    else Run
  }

  /** The skip fires exactly when the cache exists and no key contains the
      test name; without a cache nothing is skipped, an empty cache skips
      everything, and a test listed as failed is never skipped. */
  lemma SucceededBeforeRule(testName: string, lastFailed: Option<seq<string>>)
    ensures SkipSucceededBefore(testName, lastFailed).Skip? <==>
      lastFailed.Some? && forall k :: 0 <= k < |lastFailed.value| ==> !Contains(lastFailed.value[k], testName)
    ensures lastFailed.None? ==> SkipSucceededBefore(testName, lastFailed) == Run
    ensures lastFailed == Some([]) ==> SkipSucceededBefore(testName, lastFailed).Skip?
    ensures lastFailed.Some? && testName in lastFailed.value ==> SkipSucceededBefore(testName, lastFailed) == Run
  {
    ContainsItself(testName);
  }
}
