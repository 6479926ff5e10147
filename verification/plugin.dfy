/** `KnativePlugin`: the compiler callbacks. Each annotated node's annotations are
    handed to their processors, a plugin error becoming a diagnostic; after code
    generation the deployment dependencies are validated before any artifact is made. */
module Plugin {
  import opened Wrappers
  import opened Ast
  import opened Models
  import opened Factory
  import ServiceProcessor
  import SecretProcessor
  import ConfigMapProcessor

  /** The annotated nodes of a Ballerina module. A service carries the expressions it
      is attached to; a variable, whether it is a listener and its initializer. */
  datatype Node =
    | ServiceNode(name: string, attached: seq<Value>)
    | FunctionNode(name: string)
    | VariableNode(name: string, listener: bool, initializer: Option<Value>)

  /** An annotation attachment: the annotation's name and its record. */
  datatype Attachment = Attachment(annotationName: string, value: Value)

  const ListenerOnly: string := "@kubernetes annotations are only supported with listeners."

  /** `processAnnotation` of the processor for `a`, on the overload for the node. The
      secret and config-map processors take no variable overload of their own, and
      that of their base class is not part of this model: it is taken to do nothing. */
  function Dispatch(h: Holder, a: Annotation, node: Node, value: Value, inputs: Inputs): (r: Outcome)
    ensures (a.SecretAnnotation? || a.ConfigMapAnnotation?) && node.VariableNode? ==> r == Outcome(h, None)
    ensures a.ServiceAnnotation? && node.ServiceNode? ==>
      r == ServiceProcessor.ProcessServiceNode(h, node.name, node.attached, value, inputs.env)
    ensures a.SecretAnnotation? && node.FunctionNode? ==>
      r == SecretProcessor.ProcessFunctionSecrets(h, node.name, value, inputs.files, inputs.env)
    ensures a.ConfigMapAnnotation? && node.ServiceNode? ==>
      r == ConfigMapProcessor.ProcessServiceConfigMaps(h, node.name, value, inputs.files, inputs.env)
    ensures a.ServiceAnnotation? && node.FunctionNode? ==>
      r == ServiceProcessor.ProcessFunction(h, node.name, value, inputs.env)
    ensures a.ServiceAnnotation? && node.VariableNode? ==>
      r == ServiceProcessor.ProcessVariable(h, node.name, node.initializer, value, inputs.env)
    ensures a.SecretAnnotation? && node.ServiceNode? ==>
      r == SecretProcessor.ProcessServiceSecrets(h, node.name, value, inputs.files, inputs.env)
    ensures a.ConfigMapAnnotation? && node.FunctionNode? ==>
      r == ConfigMapProcessor.ProcessFunctionConfigMaps(h, node.name, value, inputs.files, inputs.env)
  {
    match (a, node)
    case (ServiceAnnotation, ServiceNode(n, attached)) => ServiceProcessor.ProcessServiceNode(h, n, attached, value, inputs.env)
    case (ServiceAnnotation, FunctionNode(n)) => ServiceProcessor.ProcessFunction(h, n, value, inputs.env)
    case (ServiceAnnotation, VariableNode(n, _, init)) => ServiceProcessor.ProcessVariable(h, n, init, value, inputs.env)
    case (SecretAnnotation, ServiceNode(n, _)) => SecretProcessor.ProcessServiceSecrets(h, n, value, inputs.files, inputs.env)
    case (SecretAnnotation, FunctionNode(n)) => SecretProcessor.ProcessFunctionSecrets(h, n, value, inputs.files, inputs.env)
    case (ConfigMapAnnotation, ServiceNode(n, _)) => ConfigMapProcessor.ProcessServiceConfigMaps(h, n, value, inputs.files, inputs.env)
    case (ConfigMapAnnotation, FunctionNode(n)) => ConfigMapProcessor.ProcessFunctionConfigMaps(h, n, value, inputs.files, inputs.env)
    case (_, VariableNode(_, _, _)) => Outcome(h, None)
  }

  /** What processing a node's annotations leaves: the holder, the diagnostics logged,
      and the exception, if any, that escapes the plugin. */
  datatype Report = Report(holder: Holder, diagnostics: seq<string>, crash: Option<Failure>)

  /** A caught failure is logged and processing goes on with the next annotation. */
  function Logged(r: Report, message: string): (r': Report)
    ensures r'.holder == r.holder && r'.crash == r.crash
    ensures r'.diagnostics == [message] + r.diagnostics
  {
    r.(diagnostics := [message] + r.diagnostics)
  }

  /** The annotation loop of the `process` callbacks: each annotation gets a processor
      from the factory and is processed; a plugin error is logged and the loop goes
      on, any other exception ends it. */
  function ProcessAnnotations(h: Holder, node: Node, attachments: seq<Attachment>, inputs: Inputs): (r: Report)
    ensures |r.diagnostics| <= |attachments|
    ensures r.crash.Some? ==> !r.crash.value.Caught()
    ensures |attachments| > 0 && GetProcessor(h, attachments[0].annotationName).result.Err? ==>
      r == Report(h.(canProcess := true), [], Some(NoEnumConstant<()>(AnnotationEnum, attachments[0].annotationName).error))
    ensures |attachments| == 0 ==> r == Report(h, [], None)
    ensures |attachments| > 0 && GetProcessor(h, attachments[0].annotationName).result.Ok? ==>
      var step := GetProcessor(h, attachments[0].annotationName);
      var o := Dispatch(step.holder, step.result.value, node, attachments[0].value, inputs);
      var rest := ProcessAnnotations(o.holder, node, attachments[1..], inputs);
      && (o.error.None? ==> r == rest)
      && (o.error.Some? && o.error.value.Caught() ==> r == Report(rest.holder, [o.error.value.message] + rest.diagnostics, rest.crash))
      && (o.error.Some? && !o.error.value.Caught() ==> r == Report(o.holder, [], o.error))
    decreases |attachments|
  {
    if |attachments| == 0 then Report(h, [], None)
    else
      var step := GetProcessor(h, attachments[0].annotationName);
      match step.result
      case Err(e) => Report(step.holder, [], Some(e))
      case Ok(a) =>
        var o := Dispatch(step.holder, a, node, attachments[0].value, inputs);
        match o.error
        case None => ProcessAnnotations(o.holder, node, attachments[1..], inputs)
        case Some(e) =>
          if e.Caught() then Logged(ProcessAnnotations(o.holder, node, attachments[1..], inputs), e.message)
          else Report(o.holder, [], Some(e))
  }

  /** `process(SimpleVariableNode, ...)`: annotations on a variable that is not a
      listener are refused with one diagnostic and no processor runs. */
  function ProcessVariableNode(h: Holder, node: Node, attachments: seq<Attachment>, inputs: Inputs): (r: Report)
    requires node.VariableNode?
    ensures !node.listener ==> r == Report(h, [ListenerOnly], None)
    ensures node.listener ==> r == ProcessAnnotations(h, node, attachments, inputs)
  {
    if !node.listener then Report(h, [ListenerOnly], None)
    else ProcessAnnotations(h, node, attachments, inputs)
  }

  /** Processing a refused variable changes nothing, not even `canProcess`. */
  lemma {:induction false} NonListenerUntouched(h: Holder, name: string, init: Option<Value>, attachments: seq<Attachment>, inputs: Inputs)
    ensures ProcessVariableNode(h, VariableNode(name, false, init), attachments, inputs).holder == h
    ensures |ProcessVariableNode(h, VariableNode(name, false, init), attachments, inputs).diagnostics| == 1
  {
  }

  // ---------------------------------------------------------------------------
  // validateDeploymentDependencies

  const Cyclic: string := "@kubernetes:Deployment{} contains cyclic dependencies"

  /** The deployments a service's `dependsOn` aliases name, in alias order, or why
      there are none: an alias that names no deployment, or one that names the
      service's own deployment. */
  datatype Resolution = Resolved(deps: seq<string>) | Unresolved | SelfReference

  /** The aliases before index `k` all name some other deployment. */
  predicate ResolvedBefore(current: string, aliases: seq<string>, deploymentOf: map<string, string>, k: int)
    requires 0 <= k <= |aliases|
  {
    forall i :: 0 <= i < k ==> aliases[i] in deploymentOf && deploymentOf[aliases[i]] != current
  }

  /** The alias at `i` names no deployment, or the service's own. */
  predicate Stops(current: string, aliases: seq<string>, deploymentOf: map<string, string>, i: int)
    requires 0 <= i < |aliases|
  {
    aliases[i] !in deploymentOf || deploymentOf[aliases[i]] == current
  }

  /** The position of the first alias that stops the resolution, or the number of
      aliases when none does. */
  function FirstStop(current: string, aliases: seq<string>, deploymentOf: map<string, string>): (k: nat)
    ensures k <= |aliases| && ResolvedBefore(current, aliases, deploymentOf, k)
    ensures k < |aliases| ==> Stops(current, aliases, deploymentOf, k)
    decreases |aliases|
  {
    if |aliases| == 0 || Stops(current, aliases, deploymentOf, 0) then 0
    else
      var k := FirstStop(current, aliases[1..], deploymentOf);
      assert forall i :: 1 <= i <= k ==> aliases[i] == aliases[1..][i - 1];
      k + 1
  }

  /** Only the first alias that stops the resolution has all aliases before it resolved. */
  lemma FirstStopUnique(current: string, aliases: seq<string>, deploymentOf: map<string, string>, j: int)
    requires 0 <= j < |aliases| && ResolvedBefore(current, aliases, deploymentOf, j) && Stops(current, aliases, deploymentOf, j)
    ensures j == FirstStop(current, aliases, deploymentOf)
  {
  }

  /** The deployments of all aliases, when each names one other than the service's. */
  function Deployments(current: string, aliases: seq<string>, deploymentOf: map<string, string>): (deps: seq<string>)
    requires ResolvedBefore(current, aliases, deploymentOf, |aliases|)
    ensures |deps| == |aliases| && forall i :: 0 <= i < |aliases| ==> deps[i] == deploymentOf[aliases[i]]
    decreases |aliases|
  {
    if |aliases| == 0 then []
    else
      assert forall i :: 1 <= i < |aliases| ==> aliases[i] == aliases[1..][i - 1];
      [deploymentOf[aliases[0]]] + Deployments(current, aliases[1..], deploymentOf)
  }

  function Resolve(current: string, aliases: seq<string>, deploymentOf: map<string, string>): (r: Resolution)
    ensures r.Resolved? <==> ResolvedBefore(current, aliases, deploymentOf, |aliases|)
    ensures r.Resolved? ==> |r.deps| == |aliases| && forall i :: 0 <= i < |aliases| ==> r.deps[i] == deploymentOf[aliases[i]]
    ensures r.Unresolved? <==> exists k :: 0 <= k < |aliases| && ResolvedBefore(current, aliases, deploymentOf, k) && aliases[k] !in deploymentOf
    ensures r.SelfReference? <==> exists k :: (0 <= k < |aliases| && ResolvedBefore(current, aliases, deploymentOf, k)
      && aliases[k] in deploymentOf && deploymentOf[aliases[k]] == current)
  {
    var k := FirstStop(current, aliases, deploymentOf);
    ResolveStopsAt(current, aliases, deploymentOf, k);
    if k == |aliases| then Resolved(Deployments(current, aliases, deploymentOf))
    else if aliases[k] !in deploymentOf then Unresolved
    else SelfReference
  }

  /** Every stopping alias with all aliases before it resolved is the one at `k`. */
  lemma ResolveStopsAt(current: string, aliases: seq<string>, deploymentOf: map<string, string>, k: nat)
    requires k == FirstStop(current, aliases, deploymentOf)
    ensures forall j :: 0 <= j < |aliases| && ResolvedBefore(current, aliases, deploymentOf, j) && Stops(current, aliases, deploymentOf, j) ==> j == k
    ensures k < |aliases| ==> !ResolvedBefore(current, aliases, deploymentOf, |aliases|)
  {
    forall j | 0 <= j < |aliases| && ResolvedBefore(current, aliases, deploymentOf, j) && Stops(current, aliases, deploymentOf, j)
      ensures j == k
    {
      FirstStopUnique(current, aliases, deploymentOf, j);
    }
    if k < |aliases| {
      assert Stops(current, aliases, deploymentOf, k);
    }
  }

  /** `validateDeploymentDependencies`, as a reference definition over the holders in
      the order the map yields them. A holder without a service name, or an alias
      without a deployment, ends the whole validation successfully; an alias naming
      the service's own deployment, or a name sequence the validator refuses, fails
      it. The validator (`DependencyValidator`, not part of this model) is `valid`. */
  function ValidateHolders(holders: seq<Holder>, deploymentOf: map<string, string>, valid: seq<string> -> bool): (r: Result<()>)
    ensures r.Err? ==> r.error == Failure(PluginError, Cyclic) || r.error.kind == NullPointer
    ensures |holders| > 0 && holders[0].serviceModel.Some? && holders[0].serviceModel.value.name.None? ==> r == Ok(())
    ensures |holders| > 0 && holders[0].serviceModel.Some? && holders[0].serviceModel.value.name.Some? ==> (
      var current := holders[0].serviceModel.value.name.value;
      var res := Resolve(current, holders[0].serviceModel.value.dependsOn, deploymentOf);
      && (res.Unresolved? ==> r == Ok(()))
      && (res.SelfReference? ==> r == Err(Failure(PluginError, Cyclic)))
      && (res.Resolved? && !valid([current] + res.deps) ==> r == Err(Failure(PluginError, Cyclic))))
    decreases |holders|
  {
    if |holders| == 0 then Ok(())
    else match holders[0].serviceModel
      case None => Err(Failure(NullPointer, "service model is null"))
      case Some(m) =>
        match m.name
        case None => Ok(())
        case Some(current) =>
          match Resolve(current, m.dependsOn, deploymentOf)
          case Unresolved => Ok(())
          case SelfReference => PluginFailure(Cyclic)
          case Resolved(deps) =>
            if !valid([current] + deps) then PluginFailure(Cyclic)
            else ValidateHolders(holders[1..], deploymentOf, valid)
  }

  /** A validation that passes every holder in full gives the validator, for each
      service, its own name followed by its dependencies' names in alias order. */
  lemma {:induction false} ValidationPassesEveryHolder(holders: seq<Holder>, deploymentOf: map<string, string>, valid: seq<string> -> bool)
    requires forall i :: 0 <= i < |holders| ==> holders[i].serviceModel.Some? && holders[i].serviceModel.value.name.Some?
    requires forall i :: 0 <= i < |holders| ==> (
      var m := holders[i].serviceModel.value;
      && ResolvedBefore(m.name.value, m.dependsOn, deploymentOf, |m.dependsOn|)
      && valid([m.name.value] + Resolve(m.name.value, m.dependsOn, deploymentOf).deps))
    ensures ValidateHolders(holders, deploymentOf, valid) == Ok(())
    decreases |holders|
  {
    if |holders| > 0 {
      assert forall i :: 1 <= i < |holders| ==> holders[i] == holders[1..][i - 1];
      ValidationPassesEveryHolder(holders[1..], deploymentOf, valid);
    }
  }

  /** The loops of `validateDeploymentDependencies`, with their early returns. */
  method ValidateDeploymentDependencies(holders: seq<Holder>, deploymentOf: map<string, string>, valid: seq<string> -> bool)
    returns (r: Result<()>)
    ensures r == ValidateHolders(holders, deploymentOf, valid)
  {
    var n := 0;
    while n < |holders|
      invariant 0 <= n <= |holders|
      invariant ValidateHolders(holders, deploymentOf, valid) == ValidateHolders(holders[n..], deploymentOf, valid)
      decreases |holders| - n
    {
      assert holders[n..][1..] == holders[n + 1..];
      if holders[n].serviceModel.None? {
        return Err(Failure(NullPointer, "service model is null"));
      }
      var m := holders[n].serviceModel.value;
      if m.name.None? {
        return Ok(());
      }
      var current := m.name.value;
      var res, dependencies := CollectDependencies(current, m.dependsOn, deploymentOf);
      if res.Unresolved? {
        return Ok(());
      }
      if res.SelfReference? || !valid(dependencies) {
        return Err(Failure(PluginError, Cyclic));
      }
      n := n + 1;
    }
    return Ok(());
  }

  /** The inner loop of `validateDeploymentDependencies`: the deployment names of the
      aliases after the service's own, stopping at an unknown alias or at the service
      itself. */
  method CollectDependencies(current: string, aliases: seq<string>, deploymentOf: map<string, string>)
    returns (res: Resolution, dependencies: seq<string>)
    ensures res == Resolve(current, aliases, deploymentOf)
    ensures res.Resolved? ==> dependencies == [current] + res.deps
  {
    dependencies := [current];
    var j := 0;
    while j < |aliases|
      invariant 0 <= j <= |aliases|
      invariant ResolvedBefore(current, aliases, deploymentOf, j)
      invariant |dependencies| == j + 1 && dependencies[0] == current
      invariant forall i :: 0 <= i < j ==> dependencies[i + 1] == deploymentOf[aliases[i]]
      decreases |aliases| - j
    {
      var alias := aliases[j];
      if alias !in deploymentOf {
        assert Resolve(current, aliases, deploymentOf).Unresolved?;
        return Unresolved, dependencies;
      }
      var dependent := deploymentOf[alias];
      if dependent != current {
        dependencies := dependencies + [dependent];
      } else {
        assert Resolve(current, aliases, deploymentOf).SelfReference?;
        return SelfReference, dependencies;
      }
      j := j + 1;
    }
    res := Resolve(current, aliases, deploymentOf);
    assert dependencies == [current] + res.deps;
  }

  // ---------------------------------------------------------------------------
  // codeGenerated

  /** The steps of artifact generation, in the order `codeGenerated` runs them. */
  datatype Stage = CleanOutput | PopulateModel | Validate | Create | CleanAfterFailure

  datatype Generation =
    | Skipped                   // no knative annotation was processed
    | NoLocation(message: string)
    | Generated
    | Failed(message: string)   // a plugin error, printed with the module id
    | Crashed(failure: Failure) // any other exception escapes the plugin

  const NoLocationMessage: string := "error in resolving docker generation location."

  /** The position of the first failed step, or the number of steps when none failed. */
  function FirstFailure(steps: seq<(Stage, Result<()>)>): (k: nat)
    ensures k <= |steps|
    ensures forall i :: 0 <= i < k ==> steps[i].1.Ok?
    ensures k < |steps| ==> steps[k].1.Err?
    decreases |steps|
  {
    if |steps| == 0 || steps[0].1.Err? then 0
    else
      var k := FirstFailure(steps[1..]);
      assert forall i :: 1 <= i <= k ==> steps[i] == steps[1..][i - 1];
      k + 1
  }

  /** The stages of the steps, in order. */
  function StagesOf(steps: seq<(Stage, Result<()>)>): (r: seq<Stage>)
    ensures |r| == |steps| && forall i :: 0 <= i < |steps| ==> r[i] == steps[i].0
  {
    seq(|steps|, i requires 0 <= i < |steps| => steps[i].0)
  }

  /** Runs the steps in order up to the first failure; returns the stages that ran
      and that failure. */
  function RunStages(steps: seq<(Stage, Result<()>)>): (r: (seq<Stage>, Option<Failure>))
    ensures |r.0| <= |steps|
    ensures forall i :: 0 <= i < |r.0| ==> r.0[i] == steps[i].0
    ensures r.1.None? <==> forall i :: 0 <= i < |steps| ==> steps[i].1.Ok?
    ensures r.1.None? ==> |r.0| == |steps|
    ensures r.1.Some? ==> (|r.0| > 0 && steps[|r.0| - 1].1 == Err(r.1.value)
      && forall i :: 0 <= i < |r.0| - 1 ==> steps[i].1.Ok?)
  {
    var k := FirstFailure(steps);
    if k == |steps| then (StagesOf(steps), None)
    else (StagesOf(steps[..k + 1]), Some(steps[k].1.error))
  }

  /** Of four distinct stages, the last runs only when the three before it succeeded. */
  lemma {:induction false} FourStages(steps: seq<(Stage, Result<()>)>)
    requires |steps| == 4 && steps[3].0 != steps[0].0 && steps[3].0 != steps[1].0 && steps[3].0 != steps[2].0
    ensures RunStages(steps).1.None? <==> steps[0].1.Ok? && steps[1].1.Ok? && steps[2].1.Ok? && steps[3].1.Ok?
    ensures steps[3].0 in RunStages(steps).0 ==> |RunStages(steps).0| == 4 && forall i :: 0 <= i < 4 ==> RunStages(steps).0[i] == steps[i].0
  {
    var run := RunStages(steps);
    assert (forall i :: 0 <= i < |steps| ==> steps[i].1.Ok?) <==>
      steps[0].1.Ok? && steps[1].1.Ok? && steps[2].1.Ok? && steps[3].1.Ok?;
    if steps[3].0 in run.0 {
      var i :| 0 <= i < |run.0| && run.0[i] == steps[3].0;
      assert steps[i].0 == steps[3].0;
      assert i == 3 && |run.0| == 4;
    }
  }

  /** `codeGenerated`: with something to process and the executable present, the
      output directory is cleaned, the deployment model populated, the dependencies
      validated and the artifacts created, in that order, each only after the one
      before succeeded. A plugin error is printed with the module id and the output
      directory is deleted again; any other exception escapes. Cleaning, populating
      and creating are outside this model and given by their results. */
  function CodeGenerated(moduleId: string, h: Holder, executableExists: bool,
                         clean: Result<()>, populate: Result<()>, create: Result<()>,
                         holders: seq<Holder>, deploymentOf: map<string, string>, valid: seq<string> -> bool): (r: (seq<Stage>, Generation))
    ensures !h.canProcess ==> r == ([], Skipped)
    ensures h.canProcess && !executableExists ==> r == ([], NoLocation(NoLocationMessage))
    ensures r.1.Generated? <==> (h.canProcess && executableExists && clean.Ok? && populate.Ok?
      && ValidateHolders(holders, deploymentOf, valid).Ok? && create.Ok?)
    ensures Create in r.0 ==> (ValidateHolders(holders, deploymentOf, valid).Ok?
      && |r.0| >= 4 && r.0[0] == CleanOutput && r.0[1] == PopulateModel && r.0[2] == Validate && r.0[3] == Create)
    ensures r.1.Failed? ==> |r.0| > 0 && r.0[|r.0| - 1] == CleanAfterFailure
    ensures r.1.Crashed? ==> CleanAfterFailure !in r.0 && !r.1.failure.Caught()
  {
    if !h.canProcess then ([], Skipped)
    else if !executableExists then ([], NoLocation(NoLocationMessage))
    else
      var steps := [(CleanOutput, clean), (PopulateModel, populate),
                    (Validate, ValidateHolders(holders, deploymentOf, valid)), (Create, create)];
      Generate(moduleId, steps)
  }

  /** The generation steps run in order, with the clean-up after a plugin error. */
  function Generate(moduleId: string, steps: seq<(Stage, Result<()>)>): (r: (seq<Stage>, Generation))
    requires |steps| == 4 && forall i :: 0 <= i < 4 ==> steps[i].0 != CleanAfterFailure
    requires steps[3].0 != steps[0].0 && steps[3].0 != steps[1].0 && steps[3].0 != steps[2].0
    ensures r.1.Generated? <==> steps[0].1.Ok? && steps[1].1.Ok? && steps[2].1.Ok? && steps[3].1.Ok?
    ensures steps[3].0 in r.0 ==> (steps[0].1.Ok? && steps[1].1.Ok? && steps[2].1.Ok?
      && |r.0| >= 4 && forall i :: 0 <= i < 4 ==> r.0[i] == steps[i].0)
    ensures r.1.Failed? ==> |r.0| > 0 && r.0[|r.0| - 1] == CleanAfterFailure
    ensures r.1.Crashed? ==> CleanAfterFailure !in r.0 && !r.1.failure.Caught()
    ensures r.1.Generated? || r.1.Failed? || r.1.Crashed?
  {
    var run := RunStages(steps);
    FourStages(steps);
    match run.1
    case None => (run.0, Generated)
    case Some(e) =>
      if e.Caught() then (run.0 + [CleanAfterFailure], Failed("module [" + moduleId + "] " + e.message))
      else (run.0, Crashed(e))
  }
}
