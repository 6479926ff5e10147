/** `KnativeServiceAnnotationProcessor`: the `@knative:Service` annotation on a
    service, a listener variable or the `main` function becomes the module's
    service model. */
module ServiceProcessor {
  import opened Wrappers
  import opened Text
  import opened EnvResolve
  import opened Collections
  import opened Ast
  import opened Models
  import opened Utils

  const ServiceEnum: string := "org.ballerinax.knative.processors.KnativeServiceAnnotationProcessor.ServiceConfiguration"
  const ProbeEnum: string := "org.ballerinax.knative.processors.KnativeServiceAnnotationProcessor.ProbeConfiguration"
  const TolerationEnum: string := "org.ballerinax.knative.processors.KnativeServiceAnnotationProcessor.PodTolerationConfiguration"

  /** The annotation fields `ServiceConfiguration` declares. */
  const ServiceKeys: set<string> := {
    "name", "labels", "annotations", "dockerHost", "dockerCertPath", "registry", "username",
    "password", "baseImage", "image", "buildImage", "port", "push", "cmd", "copyFiles",
    "singleYAML", "namespace", "replicas", "livenessProbe", "readinessProbe", "imagePullPolicy",
    "env", "podAnnotations", "podTolerations", "buildExtension", "dependsOn", "imagePullSecrets",
    "containerConcurrency", "timeoutSeconds"}

  const ProbeKeys: set<string> := {"port", "initialDelaySeconds", "periodSeconds"}

  const TolerationKeys: set<string> := {"key", "operator", "value", "effect", "tolerationSeconds"}

  const MainFunction: string := "main"
  const KnativeSvcPostfix: string := "-knative-svc"
  const DockerHostVar: string := "DOCKER_HOST"
  const DockerCertPathVar: string := "DOCKER_CERT_PATH"

  /** The ports the Knative serving sidecar and activator listen on, which a listener
      must not take. */
  const ReservedPorts: set<int> := {9090, 9091, 8013, 8012}

  const NonMainFunction: string := "@kubernetes:Deployment{} annotation cannot be attached to a non main function."
  const PortConflict: string := "listner port is conflicts with knative port"

  /** One probe field; a name `ProbeConfiguration` does not declare makes
      `valueOf` throw before the switch is reached. */
  function ProbeField(p: Probe, f: Field, env: Env): (r: Result<Probe>)
    ensures f.key !in ProbeKeys ==> r == NoEnumConstant(ProbeEnum, f.key)
    ensures f.key in ProbeKeys ==> (r.Ok? <==> GetIntValue(f.value, env).Ok?)
    ensures f.key == "port" && r.Ok? ==> r.value == p.(port := GetIntValue(f.value, env).value)
    ensures f.key == "initialDelaySeconds" && r.Ok? ==> r.value == p.(initialDelaySeconds := Some(GetIntValue(f.value, env).value))
    ensures f.key == "periodSeconds" && r.Ok? ==> r.value == p.(periodSeconds := Some(GetIntValue(f.value, env).value))
    ensures r.Ok? && f.key != "port" ==> r.value.port == p.port
  {
    match f.key
    case "port" =>
      var n :- GetIntValue(f.value, env);
      Ok(p.(port := n))
    case "initialDelaySeconds" =>
      var n :- GetIntValue(f.value, env);
      Ok(p.(initialDelaySeconds := Some(n)))
    case "periodSeconds" =>
      var n :- GetIntValue(f.value, env);
      Ok(p.(periodSeconds := Some(n)))
    case _ => NoEnumConstant(ProbeEnum, f.key)
  }

  function ProbeFields(p: Probe, fields: seq<Field>, env: Env): (r: Result<Probe>)
    ensures r.Ok? ==> forall i :: 0 <= i < |fields| ==> fields[i].key in ProbeKeys
    ensures r.Ok? && (forall i :: 0 <= i < |fields| ==> fields[i].key != "port") ==> r.value.port == p.port
    decreases |fields|
  {
    if |fields| == 0 then Ok(p)
    else
      var p' :- ProbeField(p, fields[0], env);
      var r :- ProbeFields(p', fields[1..], env);
      assert forall i :: 1 <= i < |fields| ==> fields[i] == fields[1..][i - 1];
      Ok(r)
  }

  /** `p` holds what probe `fields` give over `start`: each setting comes from the
      last field with its key, and keeps its value in `start` without one. */
  ghost predicate ProbeMatches(p: Probe, start: Probe, fields: seq<Field>, env: Env) {
    && (var i := LastFieldIndex(fields, "port");
      && (i >= 0 ==> GetIntValue(fields[i].value, env).Ok?)
      && p.port == if i < 0 then start.port else GetIntValue(fields[i].value, env).value)
    && (var i := LastFieldIndex(fields, "initialDelaySeconds");
      && (i >= 0 ==> GetIntValue(fields[i].value, env).Ok?)
      && p.initialDelaySeconds == if i < 0 then start.initialDelaySeconds else Some(GetIntValue(fields[i].value, env).value))
    && (var i := LastFieldIndex(fields, "periodSeconds");
      && (i >= 0 ==> GetIntValue(fields[i].value, env).Ok?)
      && p.periodSeconds == if i < 0 then start.periodSeconds else Some(GetIntValue(fields[i].value, env).value))
  }

  /** The last field of each probe key decides that setting. */
  lemma {:induction false} ProbeFieldsLastWins(p: Probe, fields: seq<Field>, env: Env)
    requires ProbeFields(p, fields, env).Ok?
    ensures ProbeMatches(ProbeFields(p, fields, env).value, p, fields, env)
    decreases |fields|
  {
    if |fields| > 0 {
      var p' := ProbeField(p, fields[0], env).value;
      assert ProbeFields(p, fields, env) == ProbeFields(p', fields[1..], env);
      ProbeFieldsLastWins(p', fields[1..], env);
      forall k | k in ProbeKeys
        ensures var t := LastFieldIndex(fields[1..], k); t >= 0 ==> fields[t + 1] == fields[1..][t]
      {
        LastFieldIndexTail(fields, k);
      }
      LastFieldIndexTail(fields, "port");
      LastFieldIndexTail(fields, "initialDelaySeconds");
      LastFieldIndexTail(fields, "periodSeconds");
    }
  }

  /** `parseProbeConfiguration`: a literal or variable that reads as `true` is the
      default probe, a record sets the probe's fields, and anything else (a `false`
      included) is no probe at all. */
  function ParseProbe(v: Value, env: Env): (r: Result<Option<Probe>>)
    ensures (v.Lit? || v.VarRef?) ==> (r.Ok? <==> GetStringValue(v, env).Ok?)
    ensures (v.Lit? || v.VarRef?) && r.Ok? ==>
      (r.value.Some? <==> GetBooleanValue(v, env) == Ok(true)) && (r.value.Some? ==> r.value.value == NewProbe)
    ensures v.Record? ==> (r.Ok? <==> ProbeFields(NewProbe, v.fields, env).Ok?)
    ensures v.Record? && r.Ok? ==> r.value.Some? && forall i :: 0 <= i < |v.fields| ==> v.fields[i].key in ProbeKeys
    ensures v.Record? && r.Ok? ==> r.value.Some? && ProbeMatches(r.value.value, NewProbe, v.fields, env)
    ensures !v.Lit? && !v.VarRef? && !v.Record? ==> r == Ok(None)
  {
    if v.Lit? || v.VarRef? then
      var b :- GetBooleanValue(v, env);
      Ok(if b then Some(NewProbe) else None)
    else if v.Record? then
      var p :- ProbeFields(NewProbe, v.fields, env);
      ProbeFieldsLastWins(NewProbe, v.fields, env);
      Ok(Some(p))
    else Ok(None)
  }

  function TolerationField(t: Toleration, f: Field, env: Env): (r: Result<Toleration>)
    ensures f.key !in TolerationKeys ==> r == NoEnumConstant(TolerationEnum, f.key)
    ensures f.key in TolerationKeys - {"tolerationSeconds"} ==> (r.Ok? <==> GetStringValue(f.value, env).Ok?)
    ensures f.key == "tolerationSeconds" ==> (r.Ok? <==> GetIntValue(f.value, env).Ok?)
    ensures f.key == "key" && r.Ok? ==> r.value == t.(key := Some(GetStringValue(f.value, env).value))
    ensures f.key == "operator" && r.Ok? ==> r.value == t.(operator := Some(GetStringValue(f.value, env).value))
    ensures f.key == "value" && r.Ok? ==> r.value == t.(value := Some(GetStringValue(f.value, env).value))
    ensures f.key == "effect" && r.Ok? ==> r.value == t.(effect := Some(GetStringValue(f.value, env).value))
    ensures f.key == "tolerationSeconds" && r.Ok? ==> r.value == t.(tolerationSeconds := Some(GetIntValue(f.value, env).value))
  {
    match f.key
    case "key" =>
      var s :- GetStringValue(f.value, env);
      Ok(t.(key := Some(s)))
    case "operator" =>
      var s :- GetStringValue(f.value, env);
      Ok(t.(operator := Some(s)))
    case "value" =>
      var s :- GetStringValue(f.value, env);
      Ok(t.(value := Some(s)))
    case "effect" =>
      var s :- GetStringValue(f.value, env);
      Ok(t.(effect := Some(s)))
    case "tolerationSeconds" =>
      var n :- GetIntValue(f.value, env);
      Ok(t.(tolerationSeconds := Some(n)))
    case _ => NoEnumConstant(TolerationEnum, f.key)
  }

  function TolerationFields(t: Toleration, fields: seq<Field>, env: Env): (r: Result<Toleration>)
    ensures r.Ok? ==> forall i :: 0 <= i < |fields| ==> fields[i].key in TolerationKeys
    decreases |fields|
  {
    if |fields| == 0 then Ok(t)
    else
      var t' :- TolerationField(t, fields[0], env);
      var r :- TolerationFields(t', fields[1..], env);
      assert forall i :: 1 <= i < |fields| ==> fields[i] == fields[1..][i - 1];
      Ok(r)
  }

  /** `t` holds what toleration `fields` give over `start`: each setting comes from
      the last field with its key, and keeps its value in `start` without one. */
  ghost predicate TolerationMatches(t: Toleration, start: Toleration, fields: seq<Field>, env: Env) {
    && (var i := LastFieldIndex(fields, "key");
      && (i >= 0 ==> GetStringValue(fields[i].value, env).Ok?)
      && t.key == if i < 0 then start.key else Some(GetStringValue(fields[i].value, env).value))
    && (var i := LastFieldIndex(fields, "operator");
      && (i >= 0 ==> GetStringValue(fields[i].value, env).Ok?)
      && t.operator == if i < 0 then start.operator else Some(GetStringValue(fields[i].value, env).value))
    && (var i := LastFieldIndex(fields, "value");
      && (i >= 0 ==> GetStringValue(fields[i].value, env).Ok?)
      && t.value == if i < 0 then start.value else Some(GetStringValue(fields[i].value, env).value))
    && (var i := LastFieldIndex(fields, "effect");
      && (i >= 0 ==> GetStringValue(fields[i].value, env).Ok?)
      && t.effect == if i < 0 then start.effect else Some(GetStringValue(fields[i].value, env).value))
    && (var i := LastFieldIndex(fields, "tolerationSeconds");
      && (i >= 0 ==> GetIntValue(fields[i].value, env).Ok?)
      && t.tolerationSeconds == if i < 0 then start.tolerationSeconds else Some(GetIntValue(fields[i].value, env).value))
  }

  /** The last `key` field decides the toleration's `key`. */
  lemma {:induction false} TolerationFieldsKey(t: Toleration, fields: seq<Field>, env: Env)
    requires TolerationFields(t, fields, env).Ok?
    ensures var i := LastFieldIndex(fields, "key");
      && (i >= 0 ==> GetStringValue(fields[i].value, env).Ok?)
      && TolerationFields(t, fields, env).value.key == if i < 0 then t.key else Some(GetStringValue(fields[i].value, env).value)
    decreases |fields|
  {
    if |fields| > 0 {
      var t' := TolerationField(t, fields[0], env).value;
      assert TolerationFields(t, fields, env) == TolerationFields(t', fields[1..], env);
      TolerationFieldsKey(t', fields[1..], env);
      LastFieldIndexTail(fields, "key");
      var j := LastFieldIndex(fields[1..], "key");
      if j >= 0 {
        assert fields[j + 1] == fields[1..][j];
      }
    }
  }

  /** The last `operator` field decides the toleration's `operator`. */
  lemma {:induction false} TolerationFieldsOperator(t: Toleration, fields: seq<Field>, env: Env)
    requires TolerationFields(t, fields, env).Ok?
    ensures var i := LastFieldIndex(fields, "operator");
      && (i >= 0 ==> GetStringValue(fields[i].value, env).Ok?)
      && TolerationFields(t, fields, env).value.operator == if i < 0 then t.operator else Some(GetStringValue(fields[i].value, env).value)
    decreases |fields|
  {
    if |fields| > 0 {
      var t' := TolerationField(t, fields[0], env).value;
      assert TolerationFields(t, fields, env) == TolerationFields(t', fields[1..], env);
      TolerationFieldsOperator(t', fields[1..], env);
      LastFieldIndexTail(fields, "operator");
      var j := LastFieldIndex(fields[1..], "operator");
      if j >= 0 {
        assert fields[j + 1] == fields[1..][j];
      }
    }
  }

  /** The last `value` field decides the toleration's `value`. */
  lemma {:induction false} TolerationFieldsValue(t: Toleration, fields: seq<Field>, env: Env)
    requires TolerationFields(t, fields, env).Ok?
    ensures var i := LastFieldIndex(fields, "value");
      && (i >= 0 ==> GetStringValue(fields[i].value, env).Ok?)
      && TolerationFields(t, fields, env).value.value == if i < 0 then t.value else Some(GetStringValue(fields[i].value, env).value)
    decreases |fields|
  {
    if |fields| > 0 {
      var t' := TolerationField(t, fields[0], env).value;
      assert TolerationFields(t, fields, env) == TolerationFields(t', fields[1..], env);
      TolerationFieldsValue(t', fields[1..], env);
      LastFieldIndexTail(fields, "value");
      var j := LastFieldIndex(fields[1..], "value");
      if j >= 0 {
        assert fields[j + 1] == fields[1..][j];
      }
    }
  }

  /** The last `effect` field decides the toleration's `effect`. */
  lemma {:induction false} TolerationFieldsEffect(t: Toleration, fields: seq<Field>, env: Env)
    requires TolerationFields(t, fields, env).Ok?
    ensures var i := LastFieldIndex(fields, "effect");
      && (i >= 0 ==> GetStringValue(fields[i].value, env).Ok?)
      && TolerationFields(t, fields, env).value.effect == if i < 0 then t.effect else Some(GetStringValue(fields[i].value, env).value)
    decreases |fields|
  {
    if |fields| > 0 {
      var t' := TolerationField(t, fields[0], env).value;
      assert TolerationFields(t, fields, env) == TolerationFields(t', fields[1..], env);
      TolerationFieldsEffect(t', fields[1..], env);
      LastFieldIndexTail(fields, "effect");
      var j := LastFieldIndex(fields[1..], "effect");
      if j >= 0 {
        assert fields[j + 1] == fields[1..][j];
      }
    }
  }

  /** The last `tolerationSeconds` field decides the toleration's `tolerationSeconds`. */
  lemma {:induction false} TolerationFieldsSeconds(t: Toleration, fields: seq<Field>, env: Env)
    requires TolerationFields(t, fields, env).Ok?
    ensures var i := LastFieldIndex(fields, "tolerationSeconds");
      && (i >= 0 ==> GetIntValue(fields[i].value, env).Ok?)
      && TolerationFields(t, fields, env).value.tolerationSeconds == if i < 0 then t.tolerationSeconds else Some(GetIntValue(fields[i].value, env).value)
    decreases |fields|
  {
    if |fields| > 0 {
      var t' := TolerationField(t, fields[0], env).value;
      assert TolerationFields(t, fields, env) == TolerationFields(t', fields[1..], env);
      TolerationFieldsSeconds(t', fields[1..], env);
      LastFieldIndexTail(fields, "tolerationSeconds");
      var j := LastFieldIndex(fields[1..], "tolerationSeconds");
      if j >= 0 {
        assert fields[j + 1] == fields[1..][j];
      }
    }
  }

  /** The last field of each toleration key decides that setting. */
  lemma TolerationFieldsLastWins(t: Toleration, fields: seq<Field>, env: Env)
    requires TolerationFields(t, fields, env).Ok?
    ensures TolerationMatches(TolerationFields(t, fields, env).value, t, fields, env)
  {
    TolerationFieldsKey(t, fields, env);
    TolerationFieldsOperator(t, fields, env);
    TolerationFieldsValue(t, fields, env);
    TolerationFieldsEffect(t, fields, env);
    TolerationFieldsSeconds(t, fields, env);
  }

  function Tolerations(items: seq<Value>, env: Env): (r: Result<seq<Toleration>>)
    ensures r.Ok? ==> |r.value| == |items|
    ensures r.Ok? ==> forall i :: 0 <= i < |items| ==>
      items[i].Record? && TolerationFields(NewToleration, items[i].fields, env) == Ok(r.value[i])
    ensures r.Ok? ==> forall i :: 0 <= i < |items| ==> TolerationMatches(r.value[i], NewToleration, items[i].fields, env)
    decreases |items|
  {
    if |items| == 0 then Ok([])
    else
      var fields :- RecordFields(items[0]);
      var t :- TolerationFields(NewToleration, fields, env);
      TolerationFieldsLastWins(NewToleration, fields, env);
      var rest :- Tolerations(items[1..], env);
      assert forall i :: 1 <= i < |items| ==> items[i] == items[1..][i - 1];
      Ok([t] + rest)
  }

  /** `parsePodTolerationConfiguration`: one toleration per record of the list, in
      order, duplicates kept. */
  function ParseTolerations(v: Value, env: Env): (r: Result<seq<Toleration>>)
    ensures r.Ok? ==> v.List? && |r.value| == |v.items|
    ensures !v.List? ==> r.Err? && r.error.kind == ClassCast
  {
    var items :- ListItems(v);
    Tolerations(items, env)
  }

  /** `getDependsOn`: the source text of every list item, as a set. */
  function GetDependsOn(v: Value): (r: Result<seq<string>>)
    ensures r.Ok? <==> v.List?
    ensures r.Ok? ==> DistinctBy(r.value, (x: string) => x)
  {
    var items :- ListItems(v);
    var rendered := seq(|items|, i requires 0 <= i < |items| => Render(items[i]));
    assert DistinctBy([], (x: string) => x);
    Ok(AddAllBy([], rendered, (x: string) => x))
  }

  /** The `dependsOn` set holds exactly the rendered list items. */
  lemma GetDependsOnContents(v: Value, d: string)
    requires v.List?
    ensures d in GetDependsOn(v).value <==> exists i :: 0 <= i < |v.items| && Render(v.items[i]) == d
  {
    var rendered := seq(|v.items|, i requires 0 <= i < |v.items| => Render(v.items[i]));
    var empty: seq<string> := [];
    AddAllByCovers(empty, rendered, (x: string) => x);
    AddAllByFrom(empty, rendered, (x: string) => x);
    var r := GetDependsOn(v).value;
    if d in r {
      var i :| 0 <= i < |rendered| && rendered[i] == d;
    }
    if exists i :: 0 <= i < |v.items| && Render(v.items[i]) == d {
      var i :| 0 <= i < |v.items| && Render(v.items[i]) == d;
      assert rendered[i] == d;
    }
  }

  /** The setter the switch calls for one declared field; `namespace` and
      `buildExtension` leave the model alone. */
  function SetServiceField(m: ServiceModel, f: Field, env: Env): (r: Result<ServiceModel>)
    ensures r.Ok? ==> r.value.ports == m.ports && r.value.secrets == m.secrets && r.value.configMaps == m.configMaps
    ensures f.key == "name" ==> (r.Ok? <==> GetStringValue(f.value, env).Ok?)
    ensures f.key == "name" && r.Ok? ==> r.value.name == Some(ValidName(GetStringValue(f.value, env).value))
    ensures f.key != "name" && r.Ok? ==> r.value.name == m.name
    ensures f.key == "port" ==> (r.Ok? <==> GetIntValue(f.value, env).Ok?)
    ensures f.key == "port" && r.Ok? ==> r.value.port == GetIntValue(f.value, env).value
    ensures f.key != "port" && r.Ok? ==> r.value.port == m.port
  {
    if f.key == "name" then
      var s :- GetStringValue(f.value, env);
      Ok(m.(name := Some(ValidName(s))))
    else if f.key == "port" then
      var n :- GetIntValue(f.value, env);
      Ok(m.(port := n))
    else if f.key in ScalarKeys then SetScalarField(m, f, env)
    else SetStructuredField(m, f, env)
  }

  /** The fields set from one string, boolean or integer. */
  const ScalarKeys: set<string> := {
    "dockerHost", "dockerCertPath", "registry", "username", "password", "baseImage", "image",
    "buildImage", "push", "cmd", "singleYAML", "replicas", "imagePullPolicy",
    "containerConcurrency", "timeoutSeconds"}

  /** The setters of the scalar fields other than `name` and `port`: each stores the
      string, boolean or integer value of the field in its own slot. */
  function SetScalarField(m: ServiceModel, f: Field, env: Env): (r: Result<ServiceModel>)
    ensures f.key !in ScalarKeys ==> r == Ok(m)
    ensures (f.key == "dockerHost" || f.key == "dockerCertPath" || f.key == "registry" || f.key == "username" || f.key == "password" || f.key == "baseImage" || f.key == "image" || f.key == "cmd" || f.key == "imagePullPolicy") ==>
      (r.Ok? <==> GetStringValue(f.value, env).Ok?)
    ensures (f.key == "buildImage" || f.key == "push" || f.key == "singleYAML") ==> (r.Ok? <==> GetBooleanValue(f.value, env).Ok?)
    ensures (f.key == "replicas" || f.key == "containerConcurrency" || f.key == "timeoutSeconds") ==> (r.Ok? <==> GetIntValue(f.value, env).Ok?)
    ensures f.key == "dockerHost" && r.Ok? ==> r.value == m.(dockerHost := Some(GetStringValue(f.value, env).value))
    ensures f.key == "dockerCertPath" && r.Ok? ==> r.value == m.(dockerCertPath := Some(GetStringValue(f.value, env).value))
    ensures f.key == "registry" && r.Ok? ==> r.value == m.(registry := Some(GetStringValue(f.value, env).value))
    ensures f.key == "username" && r.Ok? ==> r.value == m.(username := Some(GetStringValue(f.value, env).value))
    ensures f.key == "password" && r.Ok? ==> r.value == m.(password := Some(GetStringValue(f.value, env).value))
    ensures f.key == "baseImage" && r.Ok? ==> r.value == m.(baseImage := Some(GetStringValue(f.value, env).value))
    ensures f.key == "image" && r.Ok? ==> r.value == m.(image := Some(GetStringValue(f.value, env).value))
    ensures f.key == "cmd" && r.Ok? ==> r.value == m.(cmd := Some(GetStringValue(f.value, env).value))
    ensures f.key == "imagePullPolicy" && r.Ok? ==> r.value == m.(imagePullPolicy := Some(GetStringValue(f.value, env).value))
    ensures f.key == "buildImage" && r.Ok? ==> r.value == m.(buildImage := Some(GetBooleanValue(f.value, env).value))
    ensures f.key == "push" && r.Ok? ==> r.value == m.(push := Some(GetBooleanValue(f.value, env).value))
    ensures f.key == "singleYAML" && r.Ok? ==> r.value == m.(singleYAML := Some(GetBooleanValue(f.value, env).value))
    ensures f.key == "replicas" && r.Ok? ==> r.value == m.(replicas := Some(GetIntValue(f.value, env).value))
    ensures f.key == "containerConcurrency" && r.Ok? ==> r.value == m.(containerConcurrency := Some(GetIntValue(f.value, env).value))
    ensures f.key == "timeoutSeconds" && r.Ok? ==> r.value == m.(timeoutSeconds := Some(GetIntValue(f.value, env).value))
    ensures r.Ok? ==> r.value == m.(dockerHost := r.value.dockerHost, dockerCertPath := r.value.dockerCertPath,
      registry := r.value.registry, username := r.value.username, password := r.value.password,
      baseImage := r.value.baseImage, image := r.value.image, buildImage := r.value.buildImage,
      push := r.value.push, cmd := r.value.cmd, singleYAML := r.value.singleYAML, replicas := r.value.replicas,
      imagePullPolicy := r.value.imagePullPolicy, containerConcurrency := r.value.containerConcurrency,
      timeoutSeconds := r.value.timeoutSeconds)
  {
    match f.key
    case "dockerHost" =>
      var s :- GetStringValue(f.value, env);
      Ok(m.(dockerHost := Some(s)))
    case "dockerCertPath" =>
      var s :- GetStringValue(f.value, env);
      Ok(m.(dockerCertPath := Some(s)))
    case "registry" =>
      var s :- GetStringValue(f.value, env);
      Ok(m.(registry := Some(s)))
    case "username" =>
      var s :- GetStringValue(f.value, env);
      Ok(m.(username := Some(s)))
    case "password" =>
      var s :- GetStringValue(f.value, env);
      Ok(m.(password := Some(s)))
    case "baseImage" =>
      var s :- GetStringValue(f.value, env);
      Ok(m.(baseImage := Some(s)))
    case "image" =>
      var s :- GetStringValue(f.value, env);
      Ok(m.(image := Some(s)))
    case "buildImage" =>
      var b :- GetBooleanValue(f.value, env);
      Ok(m.(buildImage := Some(b)))
    case "push" =>
      var b :- GetBooleanValue(f.value, env);
      Ok(m.(push := Some(b)))
    case "cmd" =>
      var s :- GetStringValue(f.value, env);
      Ok(m.(cmd := Some(s)))
    case "singleYAML" =>
      var b :- GetBooleanValue(f.value, env);
      Ok(m.(singleYAML := Some(b)))
    case "replicas" =>
      var n :- GetIntValue(f.value, env);
      Ok(m.(replicas := Some(n)))
    case "imagePullPolicy" =>
      var s :- GetStringValue(f.value, env);
      Ok(m.(imagePullPolicy := Some(s)))
    case "containerConcurrency" =>
      var n :- GetIntValue(f.value, env);
      Ok(m.(containerConcurrency := Some(n)))
    case "timeoutSeconds" =>
      var n :- GetIntValue(f.value, env);
      Ok(m.(timeoutSeconds := Some(n)))
    case _ => Ok(m)
  }

  /** The fields read from records and lists. */
  const StructuredKeys: set<string> := {
    "labels", "annotations", "copyFiles", "livenessProbe", "readinessProbe", "env", "podAnnotations",
    "podTolerations", "dependsOn", "imagePullSecrets"}

  /** The setters of the fields read from records and lists: each stores what its
      reader makes of the field's value. */
  function SetStructuredField(m: ServiceModel, f: Field, env: Env): (r: Result<ServiceModel>)
    ensures f.key !in StructuredKeys ==> r == Ok(m)
    ensures f.key == "labels" ==> (r.Ok? <==> GetMap(f.value, env).Ok?)
    ensures f.key == "labels" && r.Ok? ==> r.value == m.(labels := Some(GetMap(f.value, env).value))
    ensures f.key == "annotations" ==> (r.Ok? <==> GetMap(f.value, env).Ok?)
    ensures f.key == "annotations" && r.Ok? ==> r.value == m.(annotations := Some(GetMap(f.value, env).value))
    ensures f.key == "podAnnotations" ==> (r.Ok? <==> GetMap(f.value, env).Ok?)
    ensures f.key == "podAnnotations" && r.Ok? ==> r.value == m.(podAnnotations := Some(GetMap(f.value, env).value))
    ensures f.key == "copyFiles" ==> (r.Ok? <==> GetExternalFileMap(f.value, env).Ok?)
    ensures f.key == "copyFiles" && r.Ok? ==> r.value == m.(copyFiles := Some(GetExternalFileMap(f.value, env).value))
    ensures f.key == "livenessProbe" ==> (r.Ok? <==> ParseProbe(f.value, env).Ok?)
    ensures f.key == "livenessProbe" && r.Ok? ==> r.value == m.(livenessProbe := ParseProbe(f.value, env).value)
    ensures f.key == "readinessProbe" ==> (r.Ok? <==> ParseProbe(f.value, env).Ok?)
    ensures f.key == "readinessProbe" && r.Ok? ==> r.value == m.(readinessProbe := ParseProbe(f.value, env).value)
    ensures f.key == "env" ==> (r.Ok? <==> GetEnvVarMap(f.value, env).Ok?)
    ensures f.key == "env" && r.Ok? ==> r.value == m.(env := Some(GetEnvVarMap(f.value, env).value))
    ensures f.key == "podTolerations" ==> (r.Ok? <==> ParseTolerations(f.value, env).Ok?)
    ensures f.key == "podTolerations" && r.Ok? ==> r.value == m.(podTolerations := Some(ParseTolerations(f.value, env).value))
    ensures f.key == "dependsOn" ==> (r.Ok? <==> f.value.List?)
    ensures f.key == "dependsOn" && r.Ok? ==> r.value == m.(dependsOn := GetDependsOn(f.value).value)
    ensures f.key == "imagePullSecrets" ==> (r.Ok? <==> GetImagePullSecrets(f.value, env).Ok?)
    ensures f.key == "imagePullSecrets" && r.Ok? ==> r.value == m.(imagePullSecrets := Some(GetImagePullSecrets(f.value, env).value))
    ensures r.Ok? ==> r.value == m.(labels := r.value.labels, annotations := r.value.annotations,
      copyFiles := r.value.copyFiles, livenessProbe := r.value.livenessProbe,
      readinessProbe := r.value.readinessProbe, env := r.value.env, podAnnotations := r.value.podAnnotations,
      podTolerations := r.value.podTolerations, dependsOn := r.value.dependsOn,
      imagePullSecrets := r.value.imagePullSecrets)
  {
    match f.key
    case "labels" =>
      var x :- GetMap(f.value, env);
      Ok(m.(labels := Some(x)))
    case "annotations" =>
      var x :- GetMap(f.value, env);
      Ok(m.(annotations := Some(x)))
    case "copyFiles" =>
      var x :- GetExternalFileMap(f.value, env);
      Ok(m.(copyFiles := Some(x)))
    case "livenessProbe" =>
      var p :- ParseProbe(f.value, env);
      Ok(m.(livenessProbe := p))
    case "readinessProbe" =>
      var p :- ParseProbe(f.value, env);
      Ok(m.(readinessProbe := p))
    case "env" =>
      var x :- GetEnvVarMap(f.value, env);
      Ok(m.(env := Some(x)))
    case "podAnnotations" =>
      var x :- GetMap(f.value, env);
      Ok(m.(podAnnotations := Some(x)))
    case "podTolerations" =>
      var x :- ParseTolerations(f.value, env);
      Ok(m.(podTolerations := Some(x)))
    case "dependsOn" =>
      var x :- GetDependsOn(f.value);
      Ok(m.(dependsOn := x))
    case "imagePullSecrets" =>
      var x :- GetImagePullSecrets(f.value, env);
      Ok(m.(imagePullSecrets := Some(x)))
    case _ => Ok(m)
  }

  /** One iteration of the field loop: `valueOf` first, then the setter; the
      namespace goes straight to the holder. */
  function ApplyServiceField(h: Holder, m: ServiceModel, f: Field, env: Env): (r: Step<ServiceModel>)
    ensures f.key !in ServiceKeys ==> r == Step(h, NoEnumConstant(ServiceEnum, f.key))
    ensures f.key != "namespace" ==> r.holder == h
    ensures f.key == "namespace" ==> (r.result.Ok? <==> GetStringValue(f.value, env).Ok?)
    ensures f.key == "namespace" && r.result.Ok? ==>
      r.result.value == m && r.holder == h.(namespace := Some(GetStringValue(f.value, env).value))
    ensures f.key == "namespace" && r.result.Err? ==> r.holder == h
    ensures f.key in ServiceKeys && f.key != "namespace" ==> r.result == SetServiceField(m, f, env)
  {
    if f.key !in ServiceKeys then Step(h, NoEnumConstant(ServiceEnum, f.key))
    else if f.key == "namespace" then
      match GetStringValue(f.value, env)
      case Err(e) => Step(h, Err(e))
      case Ok(s) => Step(h.(namespace := Some(s)), Ok(m))
    else Step(h, SetServiceField(m, f, env))
  }

  /** The field loop of `processService`, stopping at the first failure. */
  function ServiceFields(h: Holder, m: ServiceModel, fields: seq<Field>, env: Env): (r: Step<ServiceModel>)
    ensures r.holder == h.(namespace := r.holder.namespace)
    ensures r.result.Ok? ==> forall i :: 0 <= i < |fields| ==> fields[i].key in ServiceKeys
    ensures r.result.Ok? ==>
      r.result.value.ports == m.ports && r.result.value.secrets == m.secrets && r.result.value.configMaps == m.configMaps
    decreases |fields|
  {
    if |fields| == 0 then Step(h, Ok(m))
    else
      var s := ApplyServiceField(h, m, fields[0], env);
      match s.result
      case Err(e) => Step(s.holder, Err(e))
      case Ok(m') =>
        var r := ServiceFields(s.holder, m', fields[1..], env);
        assert forall i :: 1 <= i < |fields| ==> fields[i] == fields[1..][i - 1];
        r
  }

  /** The value of an environment variable, None when it is not set. */
  function GetEnv(env: Env, name: string): (r: Option<string>)
    ensures r.Some? <==> name in env
  {
    if name in env then Some(env[name]) else None
  }

  /** A non-blank `DOCKER_HOST` or `DOCKER_CERT_PATH` in the environment overrides
      the annotation's value. */
  function DockerOverride(m: ServiceModel, env: Env): (r: ServiceModel)
    ensures r == m.(dockerHost := r.dockerHost, dockerCertPath := r.dockerCertPath)
    ensures r.dockerHost == if IsBlank(GetEnv(env, DockerHostVar)) then m.dockerHost else GetEnv(env, DockerHostVar)
    ensures r.dockerCertPath == if IsBlank(GetEnv(env, DockerCertPathVar)) then m.dockerCertPath else GetEnv(env, DockerCertPathVar)
  {
    var host := GetEnv(env, DockerHostVar);
    var cert := GetEnv(env, DockerCertPathVar);
    var m1 := if IsBlank(host) then m else m.(dockerHost := host);
    if IsBlank(cert) then m1 else m1.(dockerCertPath := cert)
  }

  /** `processService`: a fresh model filled from the annotation record and stored in
      the holder; a failure leaves the holder's model as it was, but a namespace set
      before the failure stays set. */
  function ProcessService(h: Holder, attachment: Value, env: Env): (r: Step<ServiceModel>)
    ensures !attachment.Record? ==> r.holder == h && r.result.Err? && r.result.error.kind == ClassCast
    ensures r.result.Ok? ==> r.holder.serviceModel == Some(r.result.value)
    ensures r.result.Ok? ==> r.holder == h.(namespace := r.holder.namespace, serviceModel := r.holder.serviceModel)
    ensures r.result.Err? ==> r.holder == h.(namespace := r.holder.namespace)
    ensures r.result.Ok? ==> forall i :: 0 <= i < |attachment.fields| ==> attachment.fields[i].key in ServiceKeys
    ensures r.result.Ok? ==> r.result.value.ports == [] && r.result.value.secrets == [] && r.result.value.configMaps == []
    ensures r.result.Ok? && !IsBlank(GetEnv(env, DockerHostVar)) ==> r.result.value.dockerHost == GetEnv(env, DockerHostVar)
    ensures r.result.Ok? && !IsBlank(GetEnv(env, DockerCertPathVar)) ==> r.result.value.dockerCertPath == GetEnv(env, DockerCertPathVar)
    ensures attachment.Record? ==> (r.result.Ok? <==> ServiceFields(h, NewService, attachment.fields, env).result.Ok?)
    ensures attachment.Record? && r.result.Ok? ==>
      r.result.value == DockerOverride(ServiceFields(h, NewService, attachment.fields, env).result.value, env)
    ensures r.result.Ok? ==> var fs := attachment.fields; var i := LastFieldIndex(fs, "name");
      && (i >= 0 ==> GetStringValue(fs[i].value, env).Ok?)
      && r.result.value.name == if i < 0 then None else Some(ValidName(GetStringValue(fs[i].value, env).value))
    ensures r.result.Ok? ==> var fs := attachment.fields; var i := LastFieldIndex(fs, "port");
      && (i >= 0 ==> GetIntValue(fs[i].value, env).Ok?)
      && r.result.value.port == if i < 0 then DefaultPort else GetIntValue(fs[i].value, env).value
    ensures r.result.Ok? ==> var fs := attachment.fields; var i := LastFieldIndex(fs, "namespace");
      && (i >= 0 ==> GetStringValue(fs[i].value, env).Ok?)
      && r.holder.namespace == if i < 0 then h.namespace else Some(GetStringValue(fs[i].value, env).value)
  {
    match RecordFields(attachment)
    case Err(e) => Step(h, Err(e))
    case Ok(fields) =>
      var s := ServiceFields(h, NewService, fields, env);
      match s.result
      case Err(e) => s
      case Ok(m) =>
        ServiceFieldsName(h, NewService, fields, env);
        ServiceFieldsPort(h, NewService, fields, env);
        ServiceFieldsNamespace(h, NewService, fields, env);
        var m1 := DockerOverride(m, env);
        Step(s.holder.(serviceModel := Some(m1)), Ok(m1))
  }

  /** The last `name` field decides the name, which stays unset without one. */
  lemma {:induction false} ServiceFieldsName(h: Holder, m: ServiceModel, fields: seq<Field>, env: Env)
    requires ServiceFields(h, m, fields, env).result.Ok?
    ensures var i := LastFieldIndex(fields, "name");
      i >= 0 ==> GetStringValue(fields[i].value, env).Ok?
    ensures var i := LastFieldIndex(fields, "name");
      ServiceFields(h, m, fields, env).result.value.name ==
        if i < 0 then m.name else Some(ValidName(GetStringValue(fields[i].value, env).value))
    decreases |fields|
  {
    if |fields| > 0 {
      var s := ApplyServiceField(h, m, fields[0], env);
      ServiceFieldsName(s.holder, s.result.value, fields[1..], env);
      LastFieldIndexTail(fields, "name");
      var t := LastFieldIndex(fields[1..], "name");
      if t >= 0 {
        assert fields[t + 1] == fields[1..][t];
      }
    }
  }

  /** The last `port` field decides the port, which keeps its initial value without one. */
  lemma {:induction false} ServiceFieldsPort(h: Holder, m: ServiceModel, fields: seq<Field>, env: Env)
    requires ServiceFields(h, m, fields, env).result.Ok?
    ensures var i := LastFieldIndex(fields, "port");
      i >= 0 ==> GetIntValue(fields[i].value, env).Ok?
    ensures var i := LastFieldIndex(fields, "port");
      ServiceFields(h, m, fields, env).result.value.port ==
        if i < 0 then m.port else GetIntValue(fields[i].value, env).value
    decreases |fields|
  {
    if |fields| > 0 {
      var s := ApplyServiceField(h, m, fields[0], env);
      ServiceFieldsPort(s.holder, s.result.value, fields[1..], env);
      LastFieldIndexTail(fields, "port");
      var t := LastFieldIndex(fields[1..], "port");
      if t >= 0 {
        assert fields[t + 1] == fields[1..][t];
      }
    }
  }

  /** On success the last `namespace` field decides the holder's namespace. */
  lemma {:induction false} ServiceFieldsNamespace(h: Holder, m: ServiceModel, fields: seq<Field>, env: Env)
    requires ServiceFields(h, m, fields, env).result.Ok?
    ensures var i := LastFieldIndex(fields, "namespace");
      i >= 0 ==> GetStringValue(fields[i].value, env).Ok?
    ensures var i := LastFieldIndex(fields, "namespace");
      ServiceFields(h, m, fields, env).holder.namespace ==
        if i < 0 then h.namespace else Some(GetStringValue(fields[i].value, env).value)
    decreases |fields|
  {
    if |fields| > 0 {
      var s := ApplyServiceField(h, m, fields[0], env);
      ServiceFieldsNamespace(s.holder, s.result.value, fields[1..], env);
      LastFieldIndexTail(fields, "namespace");
      var t := LastFieldIndex(fields[1..], "namespace");
      if t >= 0 {
        assert fields[t + 1] == fields[1..][t];
      }
    }
  }

  /** A service model with a blank name is named after the annotated node. */
  function DefaultName(m: ServiceModel, nodeName: string): (r: ServiceModel)
    ensures !IsBlank(r.name)
    ensures !IsBlank(m.name) ==> r == m
    ensures IsBlank(m.name) ==> r == m.(name := Some(ValidName(nodeName) + KnativeSvcPostfix))
  {
    if IsBlank(m.name) then
      var n := ValidName(nodeName) + KnativeSvcPostfix;
      assert n[|n| - 1] == 'c' && !IsWhitespace(n[|n| - 1]);
      m.(name := Some(n))
    else m
  }

  /** `extractPort`: the first constructor argument of the listener read as an
      integer; a listener without arguments fails outside the `try`. */
  function ExtractPort(args: seq<Value>): (r: Result<int>)
    ensures |args| == 0 ==> r.Err? && r.error.kind == IndexOutOfBounds
    ensures |args| > 0 ==> (r.Ok? <==> ParseInt(Render(args[0])).Ok?)
    ensures |args| > 0 && r.Ok? ==> r.value == ParseInt(Render(args[0])).value
    ensures |args| > 0 && r.Err? ==>
      r.error == Failure(PluginError, "unable to parse port/targetPort for the service: " + Render(args[0]))
  {
    if |args| == 0 then Err(Failure(IndexOutOfBounds, "Index: 0, Size: 0"))
    else match ParseInt(Render(args[0]))
      case Ok(n) => Ok(n)
      case Err(_) => PluginFailure("unable to parse port/targetPort for the service: " + Render(args[0]))
  }

  /** A listener built with a numeric literal port gives that port back. */
  lemma ExtractPortLiteral(n: nat, rest: seq<Value>)
    requires n <= IntMax
    ensures ExtractPort([Lit(ShowNat(n))] + rest) == Ok(n)
  {
    ParseShowNat(n);
  }

  /** `processAnnotation(FunctionNode, ...)`: only `main` may carry the annotation;
      no default name is given. */
  function ProcessFunction(h: Holder, functionName: string, attachment: Value, env: Env): (r: Outcome)
    ensures functionName != MainFunction ==> r == Outcome(h, Some(Failure(PluginError, NonMainFunction)))
    ensures functionName == MainFunction ==> (r.error.None? <==> ProcessService(h, attachment, env).result.Ok?)
    ensures functionName == MainFunction ==> r.holder == ProcessService(h, attachment, env).holder
  {
    if functionName != MainFunction then Outcome(h, Some(Failure(PluginError, NonMainFunction)))
    else
      var s := ProcessService(h, attachment, env);
      Outcome(s.holder, if s.result.Err? then Some(s.result.error) else None)
  }

  /** The service model in the holder after `f` has changed it in place. */
  function Update(h: Holder, m: ServiceModel): Holder {
    h.(serviceModel := Some(m))
  }

  /** The inline-listener half of `processAnnotation(ServiceNode, ...)`, after the
      model `m` has been named: the first attached expression must be the listener
      construction, and when the annotation gives no port the listener's port is
      taken, unless Knative reserves it. */
  function InlineListenerPort(h: Holder, m: ServiceModel, attached: seq<Value>): (r: Outcome)
    ensures r.holder == h.(serviceModel := r.holder.serviceModel)
    ensures r.holder.serviceModel.Some? && r.holder.serviceModel.value == m.(ports := r.holder.serviceModel.value.ports)
    ensures r.error.None? && m.port == DefaultPort ==>
      |attached| > 0 && attached[0].TypeInit? && exists p :: p !in ReservedPorts && ExtractPort(attached[0].args) == Ok(p) && r.holder.serviceModel.value.ports == AddPort(m, p).ports
    ensures r.error.None? && m.port != DefaultPort ==> r.holder.serviceModel.value.ports == m.ports
    ensures |attached| > 0 && attached[0].TypeInit? && m.port == DefaultPort && ExtractPort(attached[0].args).Ok? ==>
      (r.error.Some? <==> ExtractPort(attached[0].args).value in ReservedPorts) &&
      (r.error.Some? ==> r.error.value == Failure(PluginError, PortConflict))
  {
    var h1 := Update(h, m);
    if |attached| == 0 then Outcome(h1, Some(Failure(IndexOutOfBounds, "Index: 0, Size: 0")))
    else if !attached[0].TypeInit? then Outcome(h1, Some(Failure(ClassCast, "cannot be cast to BLangTypeInit")))
    else if m.port != DefaultPort then Outcome(h1, None)
    else match ExtractPort(attached[0].args)
      case Err(e) => Outcome(h1, Some(e))
      case Ok(p) =>
        if p in ReservedPorts then Outcome(h1, Some(Failure(PluginError, PortConflict)))
        else Outcome(Update(h1, AddPort(m, p)), None)
  }

  /** One of the service's attached expressions names a listener variable. */
  predicate ListenerRef(attached: seq<Value>) {
    exists i :: 0 <= i < |attached| && attached[i].VarRef?
  }

  /** `processAnnotation(ServiceNode, ...)`. A service attached to a listener variable
      takes the annotation's port as its port. A service with an inline listener
      takes the listener's port when the annotation gives none, and that port must
      not be one Knative reserves. Either way a blank name is replaced by the
      service's name. */
  function ProcessServiceNode(h: Holder, serviceName: string, attached: seq<Value>, attachment: Value, env: Env): (r: Outcome)
    ensures ProcessService(h, attachment, env).result.Err? ==>
      r == Outcome(ProcessService(h, attachment, env).holder, Some(ProcessService(h, attachment, env).result.error))
    ensures ProcessService(h, attachment, env).result.Ok? ==>
      r.holder.serviceModel.Some? && !IsBlank(r.holder.serviceModel.value.name)
    ensures ProcessService(h, attachment, env).result.Ok? && ListenerRef(attached) ==>
      r.error.None? && r.holder.serviceModel.value.ports == [ProcessService(h, attachment, env).result.value.port]
    ensures ProcessService(h, attachment, env).result.Ok? && !ListenerRef(attached) ==>
      r == InlineListenerPort(ProcessService(h, attachment, env).holder,
        DefaultName(ProcessService(h, attachment, env).result.value, serviceName), attached)
    ensures ProcessService(h, attachment, env).result.Ok? ==>
      r.holder == ProcessService(h, attachment, env).holder.(serviceModel := r.holder.serviceModel)
    ensures ProcessService(h, attachment, env).result.Ok? ==> var m := ProcessService(h, attachment, env).result.value;
      r.holder.serviceModel.value == m.(name := r.holder.serviceModel.value.name, ports := r.holder.serviceModel.value.ports)
      && r.holder.serviceModel.value.name == if IsBlank(m.name) then Some(ValidName(serviceName) + KnativeSvcPostfix) else m.name
  {
    var s := ProcessService(h, attachment, env);
    match s.result
    case Err(e) => Outcome(s.holder, Some(e))
    case Ok(m) =>
      if ListenerRef(attached) then
        var m1 := DefaultName(AddPort(m, m.port), serviceName);
        Outcome(Update(s.holder, m1), None)
      else
        InlineListenerPort(s.holder, DefaultName(m, serviceName), attached)
  }

  /** With an inline listener and no port in the annotation, a successful service
      gets exactly the listener's port, which is none of the reserved ones; a
      listener port that parses fails the service exactly when it is reserved. */
  lemma InlineListenerPorts(h: Holder, serviceName: string, attached: seq<Value>, attachment: Value, env: Env)
    requires ProcessService(h, attachment, env).result.Ok?
    requires !ListenerRef(attached)
    ensures var r := ProcessServiceNode(h, serviceName, attached, attachment, env);
      var m := r.holder.serviceModel.value;
      r.error.None? ==>
        if m.port == DefaultPort then
          exists p :: p !in ReservedPorts && ExtractPort(attached[0].args) == Ok(p) && m.ports == [p]
        else m.ports == []
    ensures var r := ProcessServiceNode(h, serviceName, attached, attachment, env);
      |attached| > 0 && attached[0].TypeInit? && ExtractPort(attached[0].args).Ok? &&
        ProcessService(h, attachment, env).result.value.port == DefaultPort ==>
          (r.error.Some? <==> ExtractPort(attached[0].args).value in ReservedPorts)
  {
    var s := ProcessService(h, attachment, env);
    var m0 := DefaultName(s.result.value, serviceName);
    assert m0.ports == [] && m0.port == s.result.value.port;
    assert ProcessServiceNode(h, serviceName, attached, attachment, env) == InlineListenerPort(s.holder, m0, attached);
  }

  /** `processAnnotation(SimpleVariableNode, ...)`: a listener variable takes the
      listener's port when the annotation gives none; unlike the service overload it
      does not check the port against the reserved ones. A variable without an
      initializer casts as null and fails only when its port is read. */
  function ProcessVariable(h: Holder, variableName: string, initializer: Option<Value>, attachment: Value, env: Env): (r: Outcome)
    ensures ProcessService(h, attachment, env).result.Err? ==>
      r == Outcome(ProcessService(h, attachment, env).holder, Some(ProcessService(h, attachment, env).result.error))
    ensures ProcessService(h, attachment, env).result.Ok? ==>
      r.holder.serviceModel.Some? && !IsBlank(r.holder.serviceModel.value.name)
    ensures r.error.None? ==>
      var m := r.holder.serviceModel.value;
      if m.port == DefaultPort then
        initializer.Some? && initializer.value.TypeInit? && |m.ports| == 1 && ExtractPort(initializer.value.args) == Ok(m.ports[0])
      else m.ports == []
    ensures ProcessService(h, attachment, env).result.Ok? ==>
      r.holder == ProcessService(h, attachment, env).holder.(serviceModel := r.holder.serviceModel)
    ensures ProcessService(h, attachment, env).result.Ok? ==> var m := ProcessService(h, attachment, env).result.value;
      r.holder.serviceModel.value == m.(name := r.holder.serviceModel.value.name, ports := r.holder.serviceModel.value.ports)
      && r.holder.serviceModel.value.name == if IsBlank(m.name) then Some(ValidName(variableName) + KnativeSvcPostfix) else m.name
  {
    var s := ProcessService(h, attachment, env);
    match s.result
    case Err(e) => Outcome(s.holder, Some(e))
    case Ok(m) =>
      var m1 := DefaultName(m, variableName);
      var h1 := Update(s.holder, m1);
      if initializer.Some? && !initializer.value.TypeInit? then
        Outcome(h1, Some(Failure(ClassCast, "cannot be cast to BLangTypeInit")))
      else if m1.port != DefaultPort then Outcome(h1, None)
      else if initializer.None? then Outcome(h1, Some(Failure(NullPointer, "bListener is null")))
      else match ExtractPort(initializer.value.args)
        case Err(e) => Outcome(h1, Some(e))
        case Ok(p) => Outcome(Update(h1, AddPort(m1, p)), None)
  }
}
