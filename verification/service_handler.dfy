/** `KnativeServiceHandler`: the knative `Service` descriptor and the image name the
    docker build uses, synthesised from the service model. The descriptor is a plain
    datatype; writing it as YAML is not part of this model. */
module ServiceHandler {
  import opened Wrappers
  import opened Text
  import opened Models
  import opened Utils

  const Protocol: string := "TCP"
  const VolumeSuffix: string := "-volume"
  const InitImage: string := "busybox"
  const LatestTag: string := "latest"

  /** `DockerGenConstants.REGISTRY_SEPARATOR`, which is not part of this model; a
      registry and an image name are joined with a slash. */
  const RegistrySeparator: string := "/"

  datatype ContainerPort = ContainerPort(containerPort: int, protocol: string)

  datatype VolumeMount = VolumeMount(mountPath: Option<string>, name: string, readOnly: bool)

  datatype VolumeSource = SecretVolume(secretName: Option<string>) | ConfigMapVolume(configMapName: Option<string>)

  datatype Volume = Volume(name: string, source: VolumeSource)

  /** A TCP-socket probe. */
  datatype ProbeSpec = ProbeSpec(initialDelaySeconds: Option<int>, periodSeconds: Option<int>, tcpPort: int)

  datatype Container = Container(
    name: Option<string>,
    image: Option<string>,
    command: seq<string>,
    ports: seq<ContainerPort>,
    env: seq<EnvVar>,
    volumeMounts: seq<VolumeMount>,
    livenessProbe: Option<ProbeSpec>,
    readinessProbe: Option<ProbeSpec>)

  /** The knative serving `Service`: metadata, then the revision template's spec. */
  datatype KnativeService = KnativeService(
    name: Option<string>,
    namespace: Option<string>,
    annotations: Option<seq<(string, string)>>,
    labels: Option<seq<(string, string)>>,
    containerConcurrency: Option<int>,
    timeoutSeconds: Option<int>,
    containers: seq<Container>,
    initContainers: seq<Container>,
    volumes: seq<Volume>)

  /** The docker image name and tag. */
  datatype ImageName = ImageName(name: string, tag: string)

  /** `populatePorts`: one TCP container port per service port, in order. */
  function PopulatePorts(ports: seq<int>): (r: seq<ContainerPort>)
    ensures |r| == |ports|
    ensures forall i :: 0 <= i < |r| ==> r[i].containerPort == ports[i] && r[i].protocol == Protocol
  {
    if |ports| == 0 then [] else [ContainerPort(ports[0], Protocol)] + PopulatePorts(ports[1..])
  }

  /** The volume of a secret or config map is its name, possibly Java's "null", and `-volume`. */
  function VolumeName(name: Option<string>): (r: string)
    ensures name.Some? ==> r == name.value + VolumeSuffix
    ensures name.None? ==> r == "null" + VolumeSuffix
  {
    JavaString(name) + VolumeSuffix
  }

  function SecretMounts(ss: seq<SecretModel>): (r: seq<VolumeMount>)
    ensures |r| == |ss|
    ensures forall i :: 0 <= i < |r| ==> r[i] == VolumeMount(ss[i].mountPath, VolumeName(ss[i].name), ss[i].readOnly)
  {
    if |ss| == 0 then [] else [VolumeMount(ss[0].mountPath, VolumeName(ss[0].name), ss[0].readOnly)] + SecretMounts(ss[1..])
  }

  function ConfigMapMounts(cs: seq<ConfigMapModel>): (r: seq<VolumeMount>)
    ensures |r| == |cs|
    ensures forall i :: 0 <= i < |r| ==> r[i] == VolumeMount(cs[i].mountPath, VolumeName(cs[i].name), cs[i].readOnly)
  {
    if |cs| == 0 then [] else [VolumeMount(cs[0].mountPath, VolumeName(cs[0].name), cs[0].readOnly)] + ConfigMapMounts(cs[1..])
  }

  /** `populateVolumeMounts`: the secrets' mounts, then the config maps'. */
  function PopulateVolumeMounts(m: ServiceModel): (r: seq<VolumeMount>)
    ensures |r| == |m.secrets| + |m.configMaps|
    ensures forall i :: 0 <= i < |m.secrets| ==>
      r[i].name == VolumeName(m.secrets[i].name) && r[i].mountPath == m.secrets[i].mountPath && r[i].readOnly == m.secrets[i].readOnly
    ensures forall j :: 0 <= j < |m.configMaps| ==> (
      var c := m.configMaps[j];
      r[|m.secrets| + j].name == VolumeName(c.name) && r[|m.secrets| + j].mountPath == c.mountPath && r[|m.secrets| + j].readOnly == c.readOnly)
  {
    SecretMounts(m.secrets) + ConfigMapMounts(m.configMaps)
  }

  function SecretVolumes(ss: seq<SecretModel>): (r: seq<Volume>)
    ensures |r| == |ss|
    ensures forall i :: 0 <= i < |r| ==> r[i] == Volume(VolumeName(ss[i].name), SecretVolume(ss[i].name))
  {
    if |ss| == 0 then [] else [Volume(VolumeName(ss[0].name), SecretVolume(ss[0].name))] + SecretVolumes(ss[1..])
  }

  function ConfigMapVolumes(cs: seq<ConfigMapModel>): (r: seq<Volume>)
    ensures |r| == |cs|
    ensures forall i :: 0 <= i < |r| ==> r[i] == Volume(VolumeName(cs[i].name), ConfigMapVolume(cs[i].name))
  {
    if |cs| == 0 then [] else [Volume(VolumeName(cs[0].name), ConfigMapVolume(cs[0].name))] + ConfigMapVolumes(cs[1..])
  }

  /** `populateVolume`: a secret volume per secret, then a config-map volume per config map. */
  function PopulateVolumes(m: ServiceModel): (r: seq<Volume>)
    ensures |r| == |m.secrets| + |m.configMaps|
    ensures forall i :: 0 <= i < |m.secrets| ==> r[i].source == SecretVolume(m.secrets[i].name)
    ensures forall j :: 0 <= j < |m.configMaps| ==> r[|m.secrets| + j].source == ConfigMapVolume(m.configMaps[j].name)
  {
    SecretVolumes(m.secrets) + ConfigMapVolumes(m.configMaps)
  }

  /** Each volume mount has the volume at its position: same name, and the volume
      refers to the secret or config map the mount was made for. */
  lemma MountsMatchVolumes(m: ServiceModel)
    ensures var mounts := PopulateVolumeMounts(m);
      var volumes := PopulateVolumes(m);
      && |mounts| == |volumes|
      && forall i :: 0 <= i < |mounts| ==> mounts[i].name == volumes[i].name && mounts[i].name == VolumeName(SourceName(volumes[i].source))
  {
    var mounts := PopulateVolumeMounts(m);
    var volumes := PopulateVolumes(m);
    forall i | 0 <= i < |mounts|
      ensures mounts[i].name == volumes[i].name && mounts[i].name == VolumeName(SourceName(volumes[i].source))
    {
      if i >= |m.secrets| {
        var j := i - |m.secrets|;
        assert mounts[i] == ConfigMapMounts(m.configMaps)[j];
        assert volumes[i] == ConfigMapVolumes(m.configMaps)[j];
      }
    }
  }

  function SourceName(s: VolumeSource): Option<string> {
    match s
    case SecretVolume(n) => n
    case ConfigMapVolume(n) => n
  }

  /** The shell loop an init container runs until `service` resolves. */
  function WaitCommand(service: string): seq<string> {
    ["sh", "-c", "until nslookup " + service + "; do echo waiting for " + service + "; sleep 2; done;"]
  }

  /** `generateInitContainer`: a busybox container per `dependsOn` alias, waiting for
      the service the alias names; an alias with no service reads as "null". */
  function InitContainers(dependsOn: seq<string>, serviceNameOf: map<string, string>): (r: seq<Container>)
    ensures |r| == |dependsOn|
    ensures forall i :: 0 <= i < |r| ==> (
      var s := JavaString(if dependsOn[i] in serviceNameOf then Some(serviceNameOf[dependsOn[i]]) else None);
      && r[i].name == Some("wait-for-" + s)
      && r[i].image == Some(InitImage)
      && r[i].command == WaitCommand(s))
  {
    if |dependsOn| == 0 then []
    else
      var a := dependsOn[0];
      var s := JavaString(if a in serviceNameOf then Some(serviceNameOf[a]) else None);
      [Container(Some("wait-for-" + s), Some(InitImage), WaitCommand(s), [], [], [], None, None)]
        + InitContainers(dependsOn[1..], serviceNameOf)
  }

  /** The container image: prefixed with the registry when one is given and not empty. */
  function ContainerImage(registry: Option<string>, image: Option<string>): (r: Option<string>)
    ensures registry.Some? && registry.value != "" ==> r == Some(registry.value + RegistrySeparator + JavaString(image))
    ensures registry.None? || registry.value == "" ==> r == image
  {
    if registry.Some? && registry.value != "" then Some(registry.value + RegistrySeparator + JavaString(image))
    else image
  }

  /** `generateProbe`: a TCP-socket probe on the model's port; no model, no probe. */
  function GenerateProbe(p: Option<Probe>): (r: Option<ProbeSpec>)
    ensures r.Some? <==> p.Some?
    ensures p.Some? ==> (r.value.tcpPort == p.value.port && r.value.initialDelaySeconds == p.value.initialDelaySeconds
      && r.value.periodSeconds == p.value.periodSeconds)
  {
    match p
    case None => None
    case Some(q) => Some(ProbeSpec(q.initialDelaySeconds, q.periodSeconds, q.port))
  }

  /** `generateContainer`: the one container of the template, named after the service. */
  function GenerateContainer(m: ServiceModel): (r: Container)
    ensures r.name == m.name
    ensures r.image == ContainerImage(m.registry, m.image)
    ensures |r.ports| == |m.ports|
    ensures |r.volumeMounts| == |m.secrets| + |m.configMaps|
    ensures r.env == PopulateEnvVar(m.env)
    ensures r.ports == PopulatePorts(m.ports)
    ensures r.volumeMounts == PopulateVolumeMounts(m)
    ensures r.livenessProbe == GenerateProbe(m.livenessProbe) && r.readinessProbe == GenerateProbe(m.readinessProbe)
  {
    Container(m.name, ContainerImage(m.registry, m.image), [], PopulatePorts(m.ports), PopulateEnvVar(m.env),
      PopulateVolumeMounts(m), GenerateProbe(m.livenessProbe), GenerateProbe(m.readinessProbe))
  }

  /** `generate`: the service descriptor, in the holder's namespace. */
  function Generate(m: ServiceModel, namespace: Option<string>, serviceNameOf: map<string, string>): (r: KnativeService)
    ensures r.name == m.name && r.namespace == namespace
    ensures r.labels == m.labels && r.annotations == m.annotations
    ensures |r.containers| == 1 && r.containers[0].name == m.name
    ensures r.containerConcurrency == m.containerConcurrency && r.timeoutSeconds == m.timeoutSeconds
    ensures |r.initContainers| == |m.dependsOn|
    ensures |r.volumes| == |r.containers[0].volumeMounts| == |m.secrets| + |m.configMaps|
    ensures r.containers == [GenerateContainer(m)]
    ensures r.initContainers == InitContainers(m.dependsOn, serviceNameOf)
    ensures r.volumes == PopulateVolumes(m)
  {
    KnativeService(m.name, namespace, m.annotations, m.labels, m.containerConcurrency, m.timeoutSeconds,
      [GenerateContainer(m)], InitContainers(m.dependsOn, serviceNameOf), PopulateVolumes(m))
  }

  /** A probe whose port is 0 takes the first service port; without ports there is
      no first one and `iterator().next()` throws. */
  function DefaultProbePort(p: Option<Probe>, ports: seq<int>): (r: Result<Option<Probe>>)
    ensures r.Err? <==> p.Some? && p.value.port == 0 && |ports| == 0
    ensures r.Err? ==> r.error.kind == NoSuchElement
    ensures r.Ok? ==> (r.value.Some? <==> p.Some?)
    ensures r.Ok? && p.Some? && p.value.port == 0 ==> r.value == Some(p.value.(port := ports[0]))
    ensures p.Some? && p.value.port != 0 ==> r == Ok(p)
  {
    match p
    case None => Ok(None)
    case Some(q) =>
      if q.port != 0 then Ok(p)
      else if |ports| == 0 then Err(Failure(NoSuchElement, "no first port"))
      else Ok(Some(q.(port := ports[0])))
  }

  /** The image-tag split of `getDockerModel`: the text after the last colon is the
      tag, or "latest" when there is no colon. */
  function SplitImage(image: string): (r: ImageName)
    ensures (exists i :: 0 <= i < |image| && image[i] == ':') ==> r.name + ":" + r.tag == image
    ensures forall i :: 0 <= i < |r.tag| ==> r.tag[i] != ':' || r.tag == LatestTag
    ensures (forall i :: 0 <= i < |image| ==> image[i] != ':') ==> r == ImageName(image, LatestTag)
  {
    var k := LastIndexOf(image, ':');
    if k < 0 then ImageName(image, LatestTag)
    else
      assert image[..k] + ":" + image[k + 1..] == image by {
        assert image == image[..k] + [image[k]] + image[k + 1..];
      }
      ImageName(image[..k], image[k + 1..])
  }

  /** The descriptor and image name `createArtifacts` produces. */
  datatype Artifacts = Artifacts(service: KnativeService, image: ImageName)

  /** Both probes with their ports defaulted. */
  function WithDefaultProbes(m: ServiceModel): (r: Result<ServiceModel>)
    ensures r.Ok? <==> DefaultProbePort(m.livenessProbe, m.ports).Ok? && DefaultProbePort(m.readinessProbe, m.ports).Ok?
    ensures r.Err? ==> r.error.kind == NoSuchElement
    ensures r.Ok? ==> r.value == m.(livenessProbe := r.value.livenessProbe, readinessProbe := r.value.readinessProbe)
    ensures r.Ok? ==> r.value.livenessProbe == DefaultProbePort(m.livenessProbe, m.ports).value
    ensures r.Ok? ==> r.value.readinessProbe == DefaultProbePort(m.readinessProbe, m.ports).value
  {
    var liveness :- DefaultProbePort(m.livenessProbe, m.ports);
    var readiness :- DefaultProbePort(m.readinessProbe, m.ports);
    Ok(m.(livenessProbe := liveness, readinessProbe := readiness))
  }

  /** `createArtifacts`: the holder's secrets and config maps are attached to its
      service model, probes with port 0 get the first port, the descriptor is
      generated and the image name is split into name and tag. */
  function CreateArtifacts(h: Holder, serviceNameOf: map<string, string>): (r: Result<Artifacts>)
    ensures h.serviceModel.None? ==> r.Err? && r.error.kind == NullPointer
    ensures h.serviceModel.Some? ==> (r.Ok? <==> WithDefaultProbes(h.serviceModel.value).Ok? && h.serviceModel.value.image.Some?)
    ensures r.Ok? ==> r.value.image == SplitImage(h.serviceModel.value.image.value)
    ensures r.Ok? ==> |r.value.service.volumes| == |h.secrets| + |h.configMaps|
    ensures r.Ok? ==> r.value.service.namespace == h.namespace && r.value.service.name == h.serviceModel.value.name
    ensures r.Ok? ==> |r.value.service.containers| == 1 && ProbesDefaulted(h.serviceModel.value, r.value.service.containers[0])
    ensures r.Ok? ==>
      r.value.service == Generate(WithDefaultProbes(h.serviceModel.value).value.(secrets := h.secrets, configMaps := h.configMaps), h.namespace, serviceNameOf)
  {
    match h.serviceModel
    case None => Err(Failure(NullPointer, "service model is null"))
    case Some(m) =>
      var m' :- WithDefaultProbes(m);
      var service := Generate(m'.(secrets := h.secrets, configMaps := h.configMaps), h.namespace, serviceNameOf);
      match m.image
      case None => Err(Failure(NullPointer, "image is null"))
      case Some(image) => Ok(Artifacts(service, SplitImage(image)))
  }

  /** In the descriptor, a probe the model gave port 0 listens on the first service
      port, any other probe on its own port, and a missing probe stays missing. */
  ghost predicate ProbesDefaulted(m: ServiceModel, c: Container) {
    && (c.livenessProbe.Some? <==> m.livenessProbe.Some?)
    && (c.readinessProbe.Some? <==> m.readinessProbe.Some?)
    && (m.livenessProbe.Some? ==> c.livenessProbe.value.tcpPort == ProbePort(m.livenessProbe.value, m.ports))
    && (m.readinessProbe.Some? ==> c.readinessProbe.value.tcpPort == ProbePort(m.readinessProbe.value, m.ports))
  }

  /** The port a probe ends up on. */
  function ProbePort(p: Probe, ports: seq<int>): int {
    if p.port != 0 then p.port else if |ports| > 0 then ports[0] else 0
  }
}
