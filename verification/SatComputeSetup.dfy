/** How the satcompute program completes its settings after the command line has been read, and
    which settings it then accepts. */
module SatComputeSetup {

  datatype Option<T> = None | Some(value: T)

  // ---------------------------------------------------------------------------------------
  // Settings
  // ---------------------------------------------------------------------------------------

  datatype Double = Finite(value: real) | NotFinite

  /** The settings that the mode defaults never touch. */
  datatype Fixed = Fixed(
    simulationDuration: Double, randomSeed: nat, constellationConfig: string, orbitStartOffset: Double,
    maxIslDistance: Double, networkUpdateInterval: Double, topologySliceInterval: Double,
    delayMode: string, fixedDelay: Double, islBandwidthBps: nat, islMtuBytes: nat, islQueueBytes: nat,
    routingMode: string, computeDeadlineFactor: Double, transferChunkMode: string,
    transferPayloadBytes: nat, receiverRcvBufBytes: nat, taskCompletionPolicy: string,
    validationFaultTrace: string, faultProbabilityAudit: bool, compfrrShadow: bool,
    outputDirectory: string, taskLogMode: string, diagnosticMode: string, linkMetricsInterval: Double)

  datatype Settings = Settings(
    topologyOnly: bool, computeProfile: string, taskTrace: string, faultMode: string,
    faultTrace: string, linkMetrics: bool, fixed: Fixed)

  const SCENE := "contrib/satcompute/input/experiments/leo-66/"
  const COMPUTE_PROFILE := SCENE + "compute/compute-profile.json"
  const TASK_TRACE := SCENE + "workload/task-trace.json"
  const CONSTELLATION := SCENE + "topology/constellation.csv"

  /** The built-in settings. */
  function Defaults(): Settings {
    Settings(false, COMPUTE_PROFILE, TASK_TRACE, "generate", "", true,
             Fixed(Finite(1300.0), 1, CONSTELLATION,
                   Finite(0.0), Finite(6171353.0), Finite(20.0), Finite(1.0),
                   "fixed", Finite(0.001), 10000000000, 64028, 1500000,
                   "global-capacity-aware-hrw", Finite(1.3), "size-aware",
                   1024, 131072, "report",
                   "", false, false,
                   "/tmp/satcompute-output", "summary", "off", Finite(1.0)))
  }

  // ---------------------------------------------------------------------------------------
  // The command line
  // ---------------------------------------------------------------------------------------

  function IndexOf(s: string, c: char): (i: nat)
    ensures i <= |s| && (i < |s| ==> s[i] == c)
    ensures forall k :: 0 <= k < i ==> s[k] != c
  {
    if s == [] || s[0] == c then 0 else 1 + IndexOf(s[1..], c)
  }

  /** The name and the value of an option, or nothing when the argument is none. */
  function OptionOf(arg: string): Option<(string, string)> {
    if "--" <= arg then Some(Named(arg[2..]))
    else if "-" <= arg then Some(Named(arg[1..]))
    else None
  }

  function Named(text: string): (string, string) {
    var i := IndexOf(text, '=');
    if i == |text| then (text, "") else (text[..i], text[i + 1..])
  }

  predicate Sets(arg: string, name: string) {
    OptionOf(arg).Some? && OptionOf(arg).value.0 == name
  }

  /** The test of ApplyModeDefaults. */
  predicate Matches(arg: string, name: string) {
    arg == "--" + name || "--" + name + "=" <= arg
  }

  predicate Supplied(args: seq<string>, name: string) {
    exists i :: 1 <= i < |args| && Matches(args[i], name)
  }

  predicate Assigned(args: seq<string>, name: string) {
    exists i :: 1 <= i < |args| && Sets(args[i], name)
  }

  lemma MatchesIff(arg: string, name: string)
    requires '=' !in name
    ensures Matches(arg, name) <==> "--" <= arg && Sets(arg, name)
  {
    if "--" <= arg {
      var text := arg[2..];
      var i := IndexOf(text, '=');
      assert arg == "--" + text;
      if arg == "--" + name {
        assert text == name;
      } else if "--" + name + "=" <= arg {
        assert text[..|name|] == name && text[|name|] == '=';
        assert i == |name|;
      }
    }
  }

  /** An option counts as supplied when some argument sets it with two dashes, although one dash
      sets it as well. */
  lemma SuppliedIff(args: seq<string>, name: string)
    requires '=' !in name
    ensures Supplied(args, name) <==> exists i :: 1 <= i < |args| && "--" <= args[i] && Sets(args[i], name)
    ensures Supplied(args, name) ==> Assigned(args, name)
  {
    forall i | 1 <= i < |args|
      ensures Matches(args[i], name) <==> "--" <= args[i] && Sets(args[i], name)
    {
      MatchesIff(args[i], name);
    }
  }

  predicate IsBlank(c: char) {
    c == ' ' || c == '\t' || c == '\n' || c == '\r' || c == '\U{0b}' || c == '\U{0c}'
  }

  /** What stream extraction into a string reads: the first word, if there is one. */
  function FirstWord(s: string): string {
    if s == [] then [] else if IsBlank(s[0]) then FirstWord(s[1..]) else WordFrom(s)
  }

  function WordFrom(s: string): string {
    if s == [] || IsBlank(s[0]) then [] else [s[0]] + WordFrom(s[1..])
  }

  /** The value of a string option after the arguments have been parsed one by one; none when a
      value has no word, which ends the program. */
  function Parsed(args: seq<string>, name: string, current: string): Option<string> {
    if args == [] then Some(current)
    else if |args| == 1 then Some(current)
    else
      var before, arg := Parsed(args[..|args| - 1], name, current), args[|args| - 1];
      if before.None? || !Sets(arg, name) then before
      else
        var word := FirstWord(OptionOf(arg).value.1);
        if word == "" then None else Some(word)
  }

  /** An option that no argument sets keeps its value. */
  lemma {:induction false} ParsedUnassigned(args: seq<string>, name: string, current: string)
    requires !Assigned(args, name)
    ensures Parsed(args, name, current) == Some(current)
  {
    if |args| > 1 {
      var a := args[..|args| - 1];
      assert forall i :: 1 <= i < |a| ==> a[i] == args[i];
      assert !Sets(args[|args| - 1], name);
      ParsedUnassigned(a, name, current);
    }
  }

  /** An option that some argument sets has for its value the first word of the last one that does,
      whatever it was before. */
  lemma {:induction false} ParsedAssigned(args: seq<string>, name: string, current: string, other: string)
    returns (i: nat)
    requires Assigned(args, name)
    ensures Parsed(args, name, current) == Parsed(args, name, other)
    ensures 1 <= i < |args| && Sets(args[i], name) && forall k :: i < k < |args| ==> !Sets(args[k], name)
    ensures Parsed(args, name, current).Some? ==>
              Parsed(args, name, current).value == FirstWord(OptionOf(args[i]).value.1) != ""
  {
    hide FirstWord, OptionOf;
    var a, last := args[..|args| - 1], args[|args| - 1];
    assert forall k :: 1 <= k < |a| ==> a[k] == args[k];
    if Assigned(a, name) {
      i := ParsedAssigned(a, name, current, other);
    } else {
      assert Sets(last, name);
      ParsedUnassigned(a, name, current);
      ParsedUnassigned(a, name, other);
    }
    if Sets(last, name) {
      i := |args| - 1;
    }
  }

  /** The program ends, for want of a value, exactly if some argument sets the option to no word. */
  lemma {:induction false} ParsedFailsIff(args: seq<string>, name: string, current: string)
    ensures Parsed(args, name, current).None?
            <==> exists i :: 1 <= i < |args| && Sets(args[i], name) && FirstWord(OptionOf(args[i]).value.1) == ""
  {
    hide FirstWord, OptionOf;
    if |args| > 1 {
      var a, last := args[..|args| - 1], args[|args| - 1];
      ParsedFailsIff(a, name, current);
      assert forall k :: 1 <= k < |a| ==> a[k] == args[k];
      if Parsed(a, name, current).None? {
        var i :| 1 <= i < |a| && Sets(a[i], name) && FirstWord(OptionOf(a[i]).value.1) == "";
        assert args[i] == a[i];
      } else if Sets(last, name) && FirstWord(OptionOf(last).value.1) == "" {
        assert args[|args| - 1] == last;
      }
    }
  }

  // ---------------------------------------------------------------------------------------
  // Mode defaults
  // ---------------------------------------------------------------------------------------

  /** The path of a file in a directory. */
  function InDirectory(directory: string, file: string): string {
    if directory == "" || directory[|directory| - 1] == '/' then directory + file else directory + "/" + file
  }

  function Unless(clear: bool, s: string): string {
    if clear || s == "none" then "" else s
  }

  /** The settings the defaults lead to, said of each field by itself: a workload file is dropped
      when it is "none", or not supplied while the other one is or while only the topology is
      wanted. */
  function ModeDefaults(c: Settings, args: seq<string>): Settings {
    var profile, trace := Supplied(args, "computeProfile"), Supplied(args, "taskTrace");
    var faultMode := if c.topologyOnly && !Supplied(args, "faultMode") then "none" else c.faultMode;
    c.(computeProfile := Unless(!profile && (trace || c.topologyOnly), c.computeProfile),
       taskTrace := Unless(!trace && (profile || c.topologyOnly), c.taskTrace),
       faultMode := faultMode,
       faultTrace := if faultMode == "none" || c.faultTrace != "" then c.faultTrace
                     else InDirectory(c.fixed.outputDirectory, "fault-trace.json"),
       linkMetrics := c.linkMetrics && !(c.topologyOnly && !Supplied(args, "linkMetrics")))
  }

  class SatComputeConfig {
    var topologyOnly: bool
    var computeProfile: string
    var taskTrace: string
    var faultMode: string
    var faultTrace: string
    var linkMetrics: bool
    const fixed: Fixed

    function Value(): Settings
      reads this
    {
      Settings(topologyOnly, computeProfile, taskTrace, faultMode, faultTrace, linkMetrics, fixed)
    }

    constructor (c: Settings)
      ensures Value() == c
    {
      topologyOnly, computeProfile, taskTrace := c.topologyOnly, c.computeProfile, c.taskTrace;
      faultMode, faultTrace, linkMetrics, fixed := c.faultMode, c.faultTrace, c.linkMetrics, c.fixed;
    }

    static method IsSupplied(args: seq<string>, name: string) returns (supplied: bool)
      ensures supplied == Supplied(args, name)
    {
      var option := "--" + name;
      var i := 1;
      while i < |args|
        invariant forall k :: 1 <= k < i && k < |args| ==> !Matches(args[k], name)
      {
        if args[i] == option || option + "=" <= args[i] {
          return true;
        }
        i := i + 1;
      }
      return false;
    }

    method ApplyModeDefaults(args: seq<string>)
      modifies this
      ensures Value() == ModeDefaults(old(Value()), args)
    {
      hide Supplied, InDirectory;
      var profile := IsSupplied(args, "computeProfile");
      var trace := IsSupplied(args, "taskTrace");
      if topologyOnly {
        if !profile {
          computeProfile := "";
        }
        if !trace {
          taskTrace := "";
        }
        var mode := IsSupplied(args, "faultMode");
        if !mode {
          faultMode := "none";
        }
        var metrics := IsSupplied(args, "linkMetrics");
        if !metrics {
          linkMetrics := false;
        }
      }
      if profile != trace {
        if !profile {
          computeProfile := "";
        }
        if !trace {
          taskTrace := "";
        }
      }
      if computeProfile == "none" {
        computeProfile := "";
      }
      if taskTrace == "none" {
        taskTrace := "";
      }
      if faultMode != "none" && faultTrace == "" {
        faultTrace := InDirectory(fixed.outputDirectory, "fault-trace.json");
      }
    }
  }

  // ---------------------------------------------------------------------------------------
  // Validation
  // ---------------------------------------------------------------------------------------

  const INT64_MAX: nat := 0x7FFF_FFFF_FFFF_FFFF

  /** Whole nanoseconds, halves rounded away from zero; none outside the range. */
  function SecondsToNanoseconds(seconds: Double): Option<nat> {
    if seconds.NotFinite? || seconds.value < 0.0 then None
    else
      var ns := (seconds.value * 1000000000.0 + 0.5).Floor;
      if ns > INT64_MAX then None else Some(ns)
  }

  predicate PositiveSeconds(seconds: Double) {
    SecondsToNanoseconds(seconds).Some? && SecondsToNanoseconds(seconds).value > 0
  }

  /** A duration is accepted from half a nanosecond up to what 63 bits of nanoseconds hold. */
  lemma PositiveSecondsIff(seconds: Double)
    ensures PositiveSeconds(seconds)
            <==> seconds.Finite? && 0.5 <= seconds.value * 1000000000.0 < INT64_MAX as real + 0.5
  {
  }

  const ROUTING_MODES := ["global-first", "global-hash-per-flow", "global-hrw-per-flow",
                          "global-size-aware-hrw", "global-capacity-aware-hrw"]

  /** The test of RequireChoice. */
  predicate IsChoice(value: string, choices: seq<string>) {
    exists i :: 0 <= i < |choices| && value == choices[i]
  }

  lemma ChoiceOfTwo(v: string, a: string, b: string)
    ensures IsChoice(v, [a, b]) <==> v == a || v == b
  {
    assert [a, b][0] == a && [a, b][1] == b;
  }

  lemma ChoiceOfThree(v: string, a: string, b: string, c: string)
    ensures IsChoice(v, [a, b, c]) <==> v == a || v == b || v == c
  {
    assert [a, b, c][0] == a && [a, b, c][1] == b && [a, b, c][2] == c;
  }

  lemma ChoiceOfFive(v: string, a: string, b: string, c: string, d: string, e: string)
    ensures IsChoice(v, [a, b, c, d, e]) <==> v == a || v == b || v == c || v == d || v == e
  {
    var l := [a, b, c, d, e];
    assert l[0] == a && l[1] == b && l[2] == c && l[3] == d && l[4] == e;
  }

  /** The names under which ValidateConfig reports a wrong setting. */
  datatype Field =
    | ConstellationConfig | SimulationDuration | OrbitStartOffset | MaxIslDistance | DelayMode
    | FixedDelay | NetworkUpdateInterval | LinkMetricsInterval | LinkMetrics | IslBandwidthBps
    | IslMtuBytes | IslQueueBytes | ReceiverRcvBufBytes | RoutingMode | ComputeDeadlineFactor
    | Workloads | TransferChunkMode | TransferPayloadBytes | TaskCompletionPolicy | FaultMode
    | ValidationFaultTrace | FaultProbabilityAudit | TopologySliceInterval | TopologyOnly
    | OutputDir | TaskLogMode | DiagnosticMode | RandomSeed

  /** The field ValidateConfig complains about, or none when it accepts: first the network, then
      the workload, the faults, and the output. */
  function Complaint(c: Settings): Option<Field> {
    if NetworkComplaint(c).Some? then NetworkComplaint(c)
    else if WorkloadComplaint(c).Some? then WorkloadComplaint(c)
    else if FaultComplaint(c).Some? then FaultComplaint(c)
    else OutputComplaint(c)
  }

  function NetworkComplaint(c: Settings): Option<Field> {
    var f := c.fixed;
    if f.constellationConfig == "" then Some(ConstellationConfig)
    else if !PositiveSeconds(f.simulationDuration) then Some(SimulationDuration)
    else if f.orbitStartOffset.NotFinite? || f.orbitStartOffset.value < 0.0 then Some(OrbitStartOffset)
    else if f.maxIslDistance.NotFinite? || f.maxIslDistance.value <= 0.0 then Some(MaxIslDistance)
    else if !IsChoice(f.delayMode, ["fixed", "distance"]) then Some(DelayMode)
    else if SecondsToNanoseconds(f.fixedDelay).None? then Some(FixedDelay)
    else if f.delayMode == "fixed" && SecondsToNanoseconds(f.fixedDelay).value == 0 then Some(FixedDelay)
    else if !PositiveSeconds(f.networkUpdateInterval) then Some(NetworkUpdateInterval)
    else if !PositiveSeconds(f.linkMetricsInterval) then Some(LinkMetricsInterval)
    else if c.topologyOnly && c.linkMetrics then Some(LinkMetrics)
    else if f.islBandwidthBps == 0 then Some(IslBandwidthBps)
    else if f.islMtuBytes < 68 then Some(IslMtuBytes)
    else if f.islQueueBytes == 0 then Some(IslQueueBytes)
    else if f.receiverRcvBufBytes == 0 then Some(ReceiverRcvBufBytes)
    else if !IsChoice(f.routingMode, ROUTING_MODES) then Some(RoutingMode)
    else None
  }

  function WorkloadComplaint(c: Settings): Option<Field> {
    var f := c.fixed;
    var hasComputeProfile, hasTaskTrace := c.computeProfile != "", c.taskTrace != "";
    if f.computeDeadlineFactor.NotFinite? || f.computeDeadlineFactor.value < 1.0 then Some(ComputeDeadlineFactor)
    else if hasComputeProfile != hasTaskTrace then Some(Workloads)
    else if !IsChoice(f.transferChunkMode, ["fixed", "size-aware"]) then Some(TransferChunkMode)
    else if f.transferPayloadBytes == 0 || f.transferPayloadBytes > 65507 then Some(TransferPayloadBytes)
    else if f.transferChunkMode == "fixed" && f.transferPayloadBytes + 28 > f.islMtuBytes
      then Some(TransferPayloadBytes)
    else if f.transferChunkMode == "size-aware" && f.islMtuBytes < 64028 then Some(IslMtuBytes)
    else if !IsChoice(f.taskCompletionPolicy, ["strict", "report"]) then Some(TaskCompletionPolicy)
    else None
  }

  function FaultComplaint(c: Settings): Option<Field> {
    var f := c.fixed;
    var hasComputeProfile := c.computeProfile != "";
    if !IsChoice(c.faultMode, ["none", "generate", "validation-replay"]) then Some(FaultMode)
    else if c.faultMode == "validation-replay"
            && (f.validationFaultTrace == "" || !hasComputeProfile || f.faultProbabilityAudit || f.compfrrShadow)
      then Some(ValidationFaultTrace)
    else if c.faultMode != "validation-replay" && f.validationFaultTrace != "" then Some(ValidationFaultTrace)
    else if c.faultMode == "none" && c.faultTrace != "" then Some(FaultMode)
    else if c.faultMode == "generate" && c.faultTrace == "" then Some(FaultMode)
    else if f.faultProbabilityAudit && c.faultMode != "generate" then Some(FaultProbabilityAudit)
    else if f.faultProbabilityAudit && !hasComputeProfile then Some(FaultProbabilityAudit)
    else None
  }

  function OutputComplaint(c: Settings): Option<Field> {
    var f := c.fixed;
    if !PositiveSeconds(f.topologySliceInterval) then Some(TopologySliceInterval)
    else if c.topologyOnly && c.computeProfile != "" then Some(TopologyOnly)
    else if c.topologyOnly && c.faultMode != "none" then Some(TopologyOnly)
    else if f.outputDirectory == "" then Some(OutputDir)
    else if !IsChoice(f.taskLogMode, ["summary", "verbose", "silent"]) then Some(TaskLogMode)
    else if !IsChoice(f.diagnosticMode, ["off", "failure"]) then Some(DiagnosticMode)
    else if f.randomSeed == 0 then Some(RandomSeed)
    else None
  }

  predicate Accepted(c: Settings) {
    Complaint(c).None?
  }

  // ---------------------------------------------------------------------------------------
  // What is accepted, setting by setting
  // ---------------------------------------------------------------------------------------

  predicate Finitely(d: Double, low: real) {
    d.Finite? && d.value >= low
  }

  /** From half a nanosecond up to what 63 bits of nanoseconds hold. */
  predicate Duration(d: Double) {
    d.Finite? && 0.5 <= d.value * 1000000000.0 < 9223372036854775807.5
  }

  /** When a setting is wrong, whatever the others have already been found to be. */
  predicate Wrong(c: Settings, field: Field) {
    var f := c.fixed;
    match field
    case ConstellationConfig => f.constellationConfig == ""
    case SimulationDuration => !Duration(f.simulationDuration)
    case OrbitStartOffset => !Finitely(f.orbitStartOffset, 0.0)
    case MaxIslDistance => !Finitely(f.maxIslDistance, 0.0) || f.maxIslDistance.value == 0.0
    case DelayMode => f.delayMode != "fixed" && f.delayMode != "distance"
    case FixedDelay =>
      || !Finitely(f.fixedDelay, 0.0)
      || f.fixedDelay.value * 1000000000.0 >= 9223372036854775807.5
      || (f.delayMode == "fixed" && f.fixedDelay.value * 1000000000.0 < 0.5)
    case NetworkUpdateInterval => !Duration(f.networkUpdateInterval)
    case LinkMetricsInterval => !Duration(f.linkMetricsInterval)
    case LinkMetrics => c.topologyOnly && c.linkMetrics
    case IslBandwidthBps => f.islBandwidthBps == 0
    case IslMtuBytes => f.islMtuBytes < (if f.transferChunkMode == "size-aware" then 64028 else 68)
    case IslQueueBytes => f.islQueueBytes == 0
    case ReceiverRcvBufBytes => f.receiverRcvBufBytes == 0
    case RoutingMode =>
      && f.routingMode != "global-first"
      && f.routingMode != "global-hash-per-flow"
      && f.routingMode != "global-hrw-per-flow"
      && f.routingMode != "global-size-aware-hrw"
      && f.routingMode != "global-capacity-aware-hrw"
    case ComputeDeadlineFactor => !Finitely(f.computeDeadlineFactor, 1.0)
    case Workloads => (c.computeProfile == "") != (c.taskTrace == "")
    case TransferChunkMode => f.transferChunkMode != "fixed" && f.transferChunkMode != "size-aware"
    case TransferPayloadBytes =>
      !(1 <= f.transferPayloadBytes <= (if f.transferChunkMode == "fixed" then f.islMtuBytes - 28 else 65507))
      || f.transferPayloadBytes > 65507
    case TaskCompletionPolicy => f.taskCompletionPolicy != "strict" && f.taskCompletionPolicy != "report"
    case FaultMode =>
      || (c.faultMode != "none" && c.faultMode != "generate" && c.faultMode != "validation-replay")
      || (c.faultMode == "none" && c.faultTrace != "")
      || (c.faultMode == "generate" && c.faultTrace == "")
    case ValidationFaultTrace =>
      if c.faultMode == "validation-replay"
      then f.validationFaultTrace == "" || c.computeProfile == "" || f.faultProbabilityAudit || f.compfrrShadow
      else f.validationFaultTrace != ""
    case FaultProbabilityAudit => f.faultProbabilityAudit && (c.faultMode != "generate" || c.computeProfile == "")
    case TopologySliceInterval => !Duration(f.topologySliceInterval)
    case TopologyOnly => c.topologyOnly && (c.computeProfile != "" || c.faultMode != "none")
    case OutputDir => f.outputDirectory == ""
    case TaskLogMode => f.taskLogMode != "summary" && f.taskLogMode != "verbose" && f.taskLogMode != "silent"
    case DiagnosticMode => f.diagnosticMode != "off" && f.diagnosticMode != "failure"
    case RandomSeed => f.randomSeed == 0
  }

  lemma DurationIff(d: Double)
    ensures PositiveSeconds(d) <==> Duration(d)
    ensures SecondsToNanoseconds(d).Some? <==> Finitely(d, 0.0) && d.value * 1000000000.0 < 9223372036854775807.5
    ensures SecondsToNanoseconds(d).Some? ==>
              (SecondsToNanoseconds(d).value == 0 <==> d.value * 1000000000.0 < 0.5)
  {
    PositiveSecondsIff(d);
  }

  /** A conversion is to the nearest nanosecond, from halfway to the one above. */
  lemma NearestNanosecond(d: Double)
    ensures SecondsToNanoseconds(d).Some? ==>
              var ns := SecondsToNanoseconds(d).value as real;
              d.Finite? && ns - 0.5 <= d.value * 1000000000.0 < ns + 0.5
  {
  }

  predicate OfNetwork(field: Field) {
    || field.ConstellationConfig? || field.SimulationDuration? || field.OrbitStartOffset? || field.MaxIslDistance?
    || field.DelayMode? || field.FixedDelay? || field.NetworkUpdateInterval? || field.LinkMetricsInterval?
    || field.LinkMetrics? || field.IslBandwidthBps? || field.IslQueueBytes? || field.ReceiverRcvBufBytes?
    || field.RoutingMode?
  }

  predicate OfWorkload(field: Field) {
    || field.ComputeDeadlineFactor? || field.Workloads? || field.TransferChunkMode? || field.TransferPayloadBytes?
    || field.IslMtuBytes? || field.TaskCompletionPolicy?
  }

  predicate OfFaults(field: Field) {
    field.FaultMode? || field.ValidationFaultTrace? || field.FaultProbabilityAudit?
  }

  lemma NetworkIff(c: Settings)
    ensures NetworkComplaint(c).Some? ==> Wrong(c, NetworkComplaint(c).value)
    ensures NetworkComplaint(c).None? ==> c.fixed.islMtuBytes >= 68 && forall n :: OfNetwork(n) ==> !Wrong(c, n)
  {
    hide PositiveSeconds, SecondsToNanoseconds, Duration, IsChoice;
    ChoiceOfTwo(c.fixed.delayMode, "fixed", "distance");
    ChoiceOfFive(c.fixed.routingMode, "global-first", "global-hash-per-flow", "global-hrw-per-flow",
                 "global-size-aware-hrw", "global-capacity-aware-hrw");
    DurationIff(c.fixed.simulationDuration);
    DurationIff(c.fixed.networkUpdateInterval);
    DurationIff(c.fixed.linkMetricsInterval);
    DurationIff(c.fixed.fixedDelay);
  }

  lemma WorkloadIff(c: Settings)
    requires c.fixed.islMtuBytes >= 68
    ensures WorkloadComplaint(c).Some? ==> Wrong(c, WorkloadComplaint(c).value)
    ensures WorkloadComplaint(c).None? ==> forall n :: OfWorkload(n) ==> !Wrong(c, n)
  {
    hide IsChoice;
    ChoiceOfTwo(c.fixed.transferChunkMode, "fixed", "size-aware");
    ChoiceOfTwo(c.fixed.taskCompletionPolicy, "strict", "report");
  }

  lemma FaultIff(c: Settings)
    ensures FaultComplaint(c).Some? ==> Wrong(c, FaultComplaint(c).value)
    ensures FaultComplaint(c).None? ==> forall n :: OfFaults(n) ==> !Wrong(c, n)
  {
    hide IsChoice;
    ChoiceOfThree(c.faultMode, "none", "generate", "validation-replay");
  }

  lemma OutputIff(c: Settings)
    ensures OutputComplaint(c).Some? ==> Wrong(c, OutputComplaint(c).value)
    ensures OutputComplaint(c).None? ==>
              forall n :: !OfNetwork(n) && !OfWorkload(n) && !OfFaults(n) ==> !Wrong(c, n)
  {
    hide PositiveSeconds, Duration, IsChoice;
    DurationIff(c.fixed.topologySliceInterval);
    ChoiceOfThree(c.fixed.taskLogMode, "summary", "verbose", "silent");
    ChoiceOfTwo(c.fixed.diagnosticMode, "off", "failure");
  }

  /** Settings are accepted exactly when none of them is wrong, and otherwise a wrong one is named. */
  lemma AcceptedIff(c: Settings)
    ensures Accepted(c) <==> forall field :: !Wrong(c, field)
    ensures !Accepted(c) ==> Wrong(c, Complaint(c).value)
  {
    hide NetworkComplaint, WorkloadComplaint, FaultComplaint, OutputComplaint, Wrong, OfNetwork, OfWorkload, OfFaults;
    NetworkIff(c);
    if NetworkComplaint(c).None? {
      WorkloadIff(c);
      FaultIff(c);
      OutputIff(c);
    }
  }

  // ---------------------------------------------------------------------------------------
  // What the two together guarantee
  // ---------------------------------------------------------------------------------------

  lemma Joined(directory: string, file: string)
    requires file != ""
    ensures InDirectory(directory, file) != ""
  {
  }

  /** Where the fault trace goes when faults are on and no file is named: into the output directory,
      one slash between the two. */
  lemma FaultTraceDefault(c: Settings, args: seq<string>)
    requires c.faultTrace == "" && ModeDefaults(c, args).faultMode != "none"
    ensures var out := c.fixed.outputDirectory;
            ModeDefaults(c, args).faultTrace
            == if out == "" then "fault-trace.json"
               else if out[|out| - 1] == '/' then out[..|out| - 1] + "/fault-trace.json"
               else out + "/fault-trace.json"
  {
    hide Supplied;
    var out := c.fixed.outputDirectory;
    if out == "" {
      assert out + "fault-trace.json" == "fault-trace.json";
    } else if out[|out| - 1] == '/' {
      assert out == out[..|out| - 1] + "/";
      assert out[..|out| - 1] + "/" + "fault-trace.json" == out[..|out| - 1] + "/fault-trace.json";
    } else {
      assert out + "/" + "fault-trace.json" == out + "/fault-trace.json";
    }
  }

  /** A trace named on the command line stays, and so does everything the defaults are not about. */
  lemma DefaultsLeaveAlone(c: Settings, args: seq<string>)
    ensures var r := ModeDefaults(c, args);
            && r.fixed == c.fixed && r.topologyOnly == c.topologyOnly
            && (c.faultTrace != "" || r.faultMode == "none" ==> r.faultTrace == c.faultTrace)
            && (!c.topologyOnly ==> r.faultMode == c.faultMode && r.linkMetrics == c.linkMetrics)
            && (!c.topologyOnly && Supplied(args, "computeProfile") == Supplied(args, "taskTrace") ==>
                  && r.computeProfile == (if c.computeProfile == "none" then "" else c.computeProfile)
                  && r.taskTrace == (if c.taskTrace == "none" then "" else c.taskTrace))
  {
    hide Supplied, InDirectory;
  }

  /** One workload file supplied without the other leaves the other out, and "none" means no file. */
  lemma HalfWorkload(c: Settings, args: seq<string>)
    ensures var r := ModeDefaults(c, args);
            && (Supplied(args, "computeProfile") && !Supplied(args, "taskTrace") ==>
                  && r.taskTrace == ""
                  && r.computeProfile == (if c.computeProfile == "none" then "" else c.computeProfile))
            && (Supplied(args, "taskTrace") && !Supplied(args, "computeProfile") ==>
                  && r.computeProfile == ""
                  && r.taskTrace == (if c.taskTrace == "none" then "" else c.taskTrace))
            && r.computeProfile != "none" && r.taskTrace != "none"
  {
    hide Supplied, InDirectory;
  }

  /** Applying the defaults a second time changes nothing. */
  lemma ModeDefaultsIdempotent(c: Settings, args: seq<string>)
    ensures ModeDefaults(ModeDefaults(c, args), args) == ModeDefaults(c, args)
  {
    hide Supplied;
    Joined(c.fixed.outputDirectory, "fault-trace.json");
  }

  /** Accepted settings are coherent. */
  lemma {:induction false} AcceptedIsCoherent(c: Settings, args: seq<string>)
    ensures var r := ModeDefaults(c, args); Accepted(r) ==>
            && (r.computeProfile == "" <==> r.taskTrace == "")
            && (r.faultMode == "none" <==> r.faultTrace == "")
            && (r.faultMode == "validation-replay" <==> r.fixed.validationFaultTrace != "")
            && (r.topologyOnly ==>
                  && r.computeProfile == "" && r.taskTrace == "" && r.faultMode == "none" && r.faultTrace == ""
                  && !r.linkMetrics && !r.fixed.faultProbabilityAudit)
  {
    hide Supplied, PositiveSeconds, SecondsToNanoseconds;
    Joined(c.fixed.outputDirectory, "fault-trace.json");
  }

  /** The settings hold what the command line says of the two workload files. */
  ghost predicate WorkloadParsed(c: Settings, args: seq<string>, defaults: Settings) {
    && Parsed(args, "computeProfile", defaults.computeProfile) == Some(c.computeProfile)
    && Parsed(args, "taskTrace", defaults.taskTrace) == Some(c.taskTrace)
  }

  predicate Usable(path: string) {
    path != "" && path != "none"
  }

  predicate Mixes(c: Settings, args: seq<string>) {
    && !c.topologyOnly
    && Assigned(args, "computeProfile") != Assigned(args, "taskTrace")
    && !Supplied(args, "computeProfile") && !Supplied(args, "taskTrace")
    && Usable(c.computeProfile) && Usable(c.taskTrace)
  }

  /** A run has a file from the command line beside a built-in one exactly when it is no topology
      run, the one file is set with a single dash only, and neither path is empty or "none". */
  lemma MixedWorkloadIff(c: Settings, args: seq<string>, defaults: Settings)
    requires WorkloadParsed(c, args, defaults)
    ensures var r := ModeDefaults(c, args);
            Assigned(args, "computeProfile") != Assigned(args, "taskTrace")
            && r.computeProfile != "" && r.taskTrace != ""
            <==> Mixes(c, args)
  {
    hide Supplied, Assigned;
    SuppliedIff(args, "computeProfile");
    SuppliedIff(args, "taskTrace");
  }

  /** Accepted settings that do not mix have no workload, the built-in one, or one whose files
      both come from the command line. */
  lemma {:induction false} WorkloadOrigin(c: Settings, args: seq<string>, defaults: Settings)
    requires WorkloadParsed(c, args, defaults) && !Mixes(c, args)
    ensures var r := ModeDefaults(c, args); Accepted(r) ==>
            || (r.computeProfile == "" && r.taskTrace == "")
            || (r.computeProfile == defaults.computeProfile && r.taskTrace == defaults.taskTrace)
            || (FromCommandLine(args, "computeProfile", r.computeProfile)
                && FromCommandLine(args, "taskTrace", r.taskTrace))
  {
    hide Supplied, Assigned, Parsed, Complaint;
    hide FromCommandLine;
    if !Accepted(ModeDefaults(c, args)) {
      return;
    }
    AcceptedIsCoherent(c, args);
    MixedWorkloadIff(c, args, defaults);
    FileOrigin(args, "computeProfile", defaults.computeProfile, c.computeProfile);
    FileOrigin(args, "taskTrace", defaults.taskTrace, c.taskTrace);
  }

  ghost predicate FromCommandLine(args: seq<string>, name: string, value: string) {
    exists i :: 1 <= i < |args| && Sets(args[i], name) && value == FirstWord(OptionOf(args[i]).value.1)
  }

  lemma FileOrigin(args: seq<string>, name: string, default: string, value: string)
    requires Parsed(args, name, default) == Some(value)
    ensures if Assigned(args, name) then FromCommandLine(args, name, value) else value == default
  {
    if Assigned(args, name) {
      var i := ParsedAssigned(args, name, default, default);
    } else {
      ParsedUnassigned(args, name, default);
    }
  }

  /** A topology run keeps an option that contradicts it, and is then refused, exactly when the
      option is written with two dashes. */
  lemma IncompatibleOptions(c: Settings, args: seq<string>)
    requires c.topologyOnly
    ensures var r := ModeDefaults(c, args);
            && (r.faultMode == c.faultMode <==> Supplied(args, "faultMode") || c.faultMode == "none")
            && (r.linkMetrics == c.linkMetrics <==> Supplied(args, "linkMetrics") || !c.linkMetrics)
            && (Usable(c.computeProfile) ==>
                  (r.computeProfile == c.computeProfile <==> Supplied(args, "computeProfile")))
            && (Usable(c.taskTrace) ==> (r.taskTrace == c.taskTrace <==> Supplied(args, "taskTrace")))
    ensures Supplied(args, "faultMode") && c.faultMode != "none" ==> !Accepted(ModeDefaults(c, args))
    ensures Supplied(args, "linkMetrics") && c.linkMetrics ==> !Accepted(ModeDefaults(c, args))
    ensures Supplied(args, "computeProfile") && Usable(c.computeProfile) ==> !Accepted(ModeDefaults(c, args))
    ensures Supplied(args, "taskTrace") && Usable(c.taskTrace) ==> !Accepted(ModeDefaults(c, args))
  {
    hide Supplied, Complaint;
    AcceptedIsCoherent(c, args);
  }

  // ---------------------------------------------------------------------------------------
  // Command lines
  // ---------------------------------------------------------------------------------------

  lemma NothingSupplied(arg: string, name: string)
    requires arg != "" && !("--" <= arg)
    ensures !Supplied(["satcompute", arg], name)
  {
  }

  lemma BuiltInNetwork(c: Settings)
    requires c.fixed == Defaults().fixed && !(c.topologyOnly && c.linkMetrics)
    ensures NetworkComplaint(c) == None
  {
    assert ROUTING_MODES[4] == "global-capacity-aware-hrw";
    assert ["fixed", "distance"][0] == "fixed";
  }

  lemma BuiltInWorkload(c: Settings)
    requires c.fixed == Defaults().fixed
    requires c.computeProfile == "" <==> c.taskTrace == ""
    requires if c.faultMode == "none" then c.faultTrace == "" else c.faultMode == "generate" && c.faultTrace != ""
    ensures WorkloadComplaint(c) == None && FaultComplaint(c) == None
  {
    hide IsChoice;
    ChoiceOfTwo("size-aware", "fixed", "size-aware");
    ChoiceOfTwo("report", "strict", "report");
    ChoiceOfThree(c.faultMode, "none", "generate", "validation-replay");
    assert c.faultMode[0] != 'v';
  }

  lemma BuiltInOutput(c: Settings)
    requires c.fixed == Defaults().fixed
    requires c.topologyOnly ==> c.computeProfile == "" && c.faultMode == "none"
    ensures OutputComplaint(c) == None
  {
    hide IsChoice;
    ChoiceOfThree("summary", "summary", "verbose", "silent");
    ChoiceOfTwo("off", "off", "failure");
  }

  lemma DefaultTrace()
    ensures var out := Defaults().fixed.outputDirectory;
            out != "" && out[|out| - 1] != '/' && out + "/fault-trace.json" == "/tmp/satcompute-output/fault-trace.json"
  {
  }

  lemma DefaultPaths()
    ensures Usable(COMPUTE_PROFILE) && Usable(TASK_TRACE) && "generate" != "none"
    ensures Defaults().computeProfile == COMPUTE_PROFILE && Defaults().taskTrace == TASK_TRACE
    ensures Defaults().faultMode == "generate" && Defaults().faultTrace == "" && !Defaults().topologyOnly
  {
  }

  /** No argument sets an option other than these. */
  predicate SetsOnly(args: seq<string>, names: seq<string>) {
    forall i :: 1 <= i < |args| && OptionOf(args[i]).Some? ==> OptionOf(args[i]).value.0 in names
  }

  lemma NotAssigned(args: seq<string>, names: seq<string>, name: string)
    requires SetsOnly(args, names) && name !in names && '=' !in name
    ensures !Assigned(args, name) && !Supplied(args, name)
  {
    hide OptionOf;
    SuppliedIff(args, name);
  }

  lemma WorkloadUntouched(args: seq<string>, names: seq<string>, current: Settings)
    requires SetsOnly(args, names) && "computeProfile" !in names && "taskTrace" !in names
    ensures WorkloadParsed(current, args, current)
    ensures !Supplied(args, "computeProfile") && !Supplied(args, "taskTrace")
  {
    hide SetsOnly, Assigned, Parsed;
    NotAssigned(args, names, "computeProfile");
    NotAssigned(args, names, "taskTrace");
    ParsedUnassigned(args, "computeProfile", current.computeProfile);
    ParsedUnassigned(args, "taskTrace", current.taskTrace);
  }

  /** Without any option on the command line the built-in settings, which it then leaves as they
      are, pass and keep their workload. */
  lemma PlainRunIsAccepted(args: seq<string>)
    requires SetsOnly(args, [])
    ensures WorkloadParsed(Defaults(), args, Defaults())
    ensures Accepted(ModeDefaults(Defaults(), args))
    ensures ModeDefaults(Defaults(), args).computeProfile == COMPUTE_PROFILE
    ensures ModeDefaults(Defaults(), args).taskTrace == TASK_TRACE
    ensures ModeDefaults(Defaults(), args).faultTrace == "/tmp/satcompute-output/fault-trace.json"
  {
    hide Supplied, SetsOnly, NetworkComplaint, WorkloadComplaint, FaultComplaint, OutputComplaint;
    hide Defaults, COMPUTE_PROFILE, TASK_TRACE, InDirectory, WorkloadParsed;
    WorkloadUntouched(args, [], Defaults());
    DefaultPaths();
    DefaultTrace();
    FaultTraceDefault(Defaults(), args);
    Joined(Defaults().fixed.outputDirectory, "fault-trace.json");
    var r := ModeDefaults(Defaults(), args);
    BuiltInNetwork(r);
    BuiltInWorkload(r);
    BuiltInOutput(r);
  }

  /** With no option but topologyOnly, which they then have from it, the built-in settings pass as
      a topology run too. */
  lemma TopologyRunIsAccepted(args: seq<string>)
    requires SetsOnly(args, ["topologyOnly"])
    ensures WorkloadParsed(Defaults().(topologyOnly := true), args, Defaults())
    ensures Accepted(ModeDefaults(Defaults().(topologyOnly := true), args))
  {
    hide Supplied, SetsOnly, NetworkComplaint, WorkloadComplaint, FaultComplaint, OutputComplaint;
    hide Defaults, InDirectory;
    assert "faultMode" != "topologyOnly" && "linkMetrics" != "topologyOnly";
    assert "computeProfile" != "topologyOnly" && "taskTrace" != "topologyOnly";
    WorkloadUntouched(args, ["topologyOnly"], Defaults());
    NotAssigned(args, ["topologyOnly"], "faultMode");
    NotAssigned(args, ["topologyOnly"], "linkMetrics");
    DefaultPaths();
    var r := ModeDefaults(Defaults().(topologyOnly := true), args);
    BuiltInNetwork(r);
    BuiltInWorkload(r);
    BuiltInOutput(r);
  }

  lemma {:induction false} WordOf(s: string)
    requires forall i :: 0 <= i < |s| ==> !IsBlank(s[i])
    ensures WordFrom(s) == s && FirstWord(s) == s
  {
    if s != [] {
      WordOf(s[1..]);
    }
  }

  /** Blanks before the first word are skipped, and what follows it is not read. */
  lemma {:induction false} FirstWordIs(blanks: string, word: string, rest: string)
    requires forall i :: 0 <= i < |blanks| ==> IsBlank(blanks[i])
    requires forall i :: 0 <= i < |word| ==> !IsBlank(word[i])
    requires rest == "" || IsBlank(rest[0])
    requires word != "" || rest == ""
    ensures FirstWord(blanks + word + rest) == word
  {
    hide IsBlank;
    if blanks == "" {
      assert "" + word + rest == word + rest;
      WordBefore(word, rest);
      if word != "" {
        assert (word + rest)[0] == word[0];
      } else {
        assert word + rest == "";
      }
    } else {
      assert (blanks + word + rest)[1..] == blanks[1..] + word + rest;
      FirstWordIs(blanks[1..], word, rest);
    }
  }

  lemma {:induction false} WordBefore(word: string, rest: string)
    requires forall i :: 0 <= i < |word| ==> !IsBlank(word[i])
    requires rest == "" || IsBlank(rest[0])
    ensures WordFrom(word + rest) == word
  {
    hide IsBlank;
    if word == "" {
      assert word + rest == rest;
    } else {
      assert (word + rest)[1..] == word[1..] + rest;
      WordBefore(word[1..], rest);
    }
  }

  const ONE_DASH := "-computeProfile=custom.json"

  /** One dash sets an option as well as two, and does not count as supplying it. */
  lemma OneDash(name: string, value: string)
    requires name != "" && name[0] != '-' && '=' !in name
    ensures var arg := "-" + name + "=" + value; OptionOf(arg) == Some((name, value)) && !("--" <= arg)
  {
    var arg, text := "-" + name + "=" + value, name + "=" + value;
    assert arg[1..] == text && arg[1] == name[0];
    assert text[|name|] == '=' && text[..|name|] == name && text[|name| + 1..] == value;
    assert forall k :: 0 <= k < |name| ==> text[k] == name[k];
    assert IndexOf(text, '=') == |name|;
  }

  /** So do two, whatever the value, and they count. */
  lemma TwoDashes(name: string, value: string)
    requires '=' !in name
    ensures var arg := "--" + name + "=" + value; OptionOf(arg) == Some((name, value)) && Matches(arg, name)
  {
    var arg, text := "--" + name + "=" + value, name + "=" + value;
    assert arg[2..] == text && arg[..2] == "--";
    assert text[|name|] == '=' && text[..|name|] == name && text[|name| + 1..] == value;
    assert forall k :: 0 <= k < |name| ==> text[k] == name[k];
    assert IndexOf(text, '=') == |name|;
    assert arg[..|name| + 3] == "--" + name + "=";
  }

  /** Without an equals sign the value is empty, and without a dash there is no option. */
  lemma WithoutValue(name: string)
    requires '=' !in name
    ensures OptionOf("--" + name) == Some((name, "")) && Matches("--" + name, name)
    ensures name != "" && name[0] != '-' ==> OptionOf("-" + name) == Some((name, ""))
    ensures name == "" || name[0] != '-' ==> OptionOf(name) == None
  {
    assert ("--" + name)[2..] == name && ("-" + name)[1..] == name;
  }

  lemma BlanksAre(c: char)
    ensures IsBlank(c) <==> c as int == 32 || 9 <= c as int <= 13
  {
  }

  lemma OneDashSets()
    ensures OptionOf(ONE_DASH) == Some(("computeProfile", "custom.json"))
    ensures FirstWord("custom.json") == "custom.json"
    ensures ONE_DASH != "" && !("--" <= ONE_DASH) && "taskTrace" != "computeProfile"
  {
    hide OptionOf, FirstWord, WordFrom;
    assert ONE_DASH == "-" + "computeProfile" + "=" + "custom.json";
    OneDash("computeProfile", "custom.json");
    WordOf("custom.json");
  }

  lemma OneDashParsed(profile: string, trace: string)
    ensures Parsed(["satcompute", ONE_DASH], "computeProfile", profile) == Some("custom.json")
    ensures Parsed(["satcompute", ONE_DASH], "taskTrace", trace) == Some(trace)
  {
    hide ONE_DASH, OptionOf, FirstWord;
    OneDashSets();
    var args := ["satcompute", ONE_DASH];
    assert args[..1] == ["satcompute"];
    assert Parsed(["satcompute"], "computeProfile", profile) == Some(profile);
  }

  /** One dash is enough to run a custom profile with the built-in tasks. */
  lemma {:induction false} OneDashMixes()
    ensures var args := ["satcompute", ONE_DASH];
            var c := Defaults().(computeProfile := "custom.json");
            && WorkloadParsed(c, args, Defaults())
            && Accepted(ModeDefaults(c, args))
            && ModeDefaults(c, args).computeProfile == "custom.json"
            && ModeDefaults(c, args).taskTrace == TASK_TRACE
  {
    hide Supplied, NetworkComplaint, WorkloadComplaint, FaultComplaint, OutputComplaint;
    hide Defaults, TASK_TRACE, InDirectory, ONE_DASH, Parsed;
    var args := ["satcompute", ONE_DASH];
    var c := Defaults().(computeProfile := "custom.json");
    DefaultPaths();
    OneDashSets();
    OneDashParsed(Defaults().computeProfile, Defaults().taskTrace);
    NothingSupplied(ONE_DASH, "computeProfile");
    NothingSupplied(ONE_DASH, "taskTrace");
    Joined(c.fixed.outputDirectory, "fault-trace.json");
    var r := ModeDefaults(c, args);
    BuiltInNetwork(r);
    BuiltInWorkload(r);
    BuiltInOutput(r);
  }
}
