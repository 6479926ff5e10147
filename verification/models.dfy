/** The model classes the processors fill in and the handler reads, and the
    per-module data holder they are kept in.

    `ServiceModel`, `SecretModel`, `ProbeModel`, `PodTolerationModel`,
    `EnvVarValueModel`, `CopyFileModel` and `KnativeDataHolder` are not part of this
    model's sources; their fields are the setters the processors call, and a field
    whose initial value cannot be seen is an `Option` whose None stands for it. */
module Models {
  import opened Wrappers
  import opened Collections
  import opened Paths
  import opened EnvResolve
  import Base64

  type Bytes = seq<Base64.byte>

  /** File contents by path, as the plugin names the file; an absent path is a file
      that does not exist or is a directory. */
  type Files = map<Path, Bytes>

  /** `KnativeUtils.readFileContent`. */
  function ReadFile(files: Files, p: Path): (r: Result<Bytes>)
    ensures r.Ok? <==> p in files
    ensures r.Ok? ==> r.value == files[p]
    ensures r.Err? ==> r.error == Failure(PluginError, "unable to read contents of the file " + Show(p))
  {
    if p in files then Ok(files[p]) else PluginFailure("unable to read contents of the file " + Show(p))
  }

  datatype CopyFile = CopyFile(source: Option<string>, target: Option<string>)

  /** A probe; port 0 means "the first service port". */
  datatype Probe = Probe(port: int, initialDelaySeconds: Option<int>, periodSeconds: Option<int>)

  const NewProbe: Probe := Probe(0, None, None)

  datatype Toleration = Toleration(
    key: Option<string>, operator: Option<string>, value: Option<string>,
    effect: Option<string>, tolerationSeconds: Option<int>)

  const NewToleration: Toleration := Toleration(None, None, None, None, None)

  /** The `valueFrom` variants of an environment variable. */
  datatype EnvRef =
    | FieldRef(fieldPath: Option<string>)
    | SecretKeyRef(secretName: Option<string>, secretKey: Option<string>)
    | ResourceFieldRef(containerName: Option<string>, resource: Option<string>)
    | ConfigMapKeyRef(configMapName: Option<string>, configMapKey: Option<string>)

  datatype EnvVarValue = EnvVarValue(value: Option<string>, valueFrom: Option<EnvRef>)

  /** The environment map; a None value is the null `getEnvVarMap` stores for an
      entry it does not recognise. */
  type EnvMap = OrderedMap<Option<EnvVarValue>>

  datatype ConfigMapModel = ConfigMapModel(
    name: Option<string>,
    labels: Option<OrderedMap<string>>,
    annotations: Option<OrderedMap<string>>,
    mountPath: Option<string>,
    readOnly: bool,
    data: Option<OrderedMap<Bytes>>,
    ballerinaConf: Option<string>)

  /** `new ConfigMapModel()`: read-only unless told otherwise. */
  const NewConfigMap: ConfigMapModel := ConfigMapModel(None, None, None, None, true, None, None)

  datatype SecretModel = SecretModel(
    name: Option<string>,
    labels: Option<OrderedMap<string>>,
    annotations: Option<OrderedMap<string>>,
    mountPath: Option<string>,
    readOnly: bool,
    data: Option<OrderedMap<string>>)

  /** `new SecretModel()`: no forced read-only default, so a Java `false`. */
  const NewSecret: SecretModel := SecretModel(None, None, None, None, false, None)

  datatype ServiceModel = ServiceModel(
    name: Option<string>,
    labels: Option<OrderedMap<string>>,
    annotations: Option<OrderedMap<string>>,
    dockerHost: Option<string>,
    dockerCertPath: Option<string>,
    registry: Option<string>,
    username: Option<string>,
    password: Option<string>,
    baseImage: Option<string>,
    image: Option<string>,
    buildImage: Option<bool>,
    push: Option<bool>,
    cmd: Option<string>,
    copyFiles: Option<seq<CopyFile>>,
    singleYAML: Option<bool>,
    replicas: Option<int>,
    livenessProbe: Option<Probe>,
    readinessProbe: Option<Probe>,
    imagePullPolicy: Option<string>,
    env: Option<EnvMap>,
    podAnnotations: Option<OrderedMap<string>>,
    podTolerations: Option<seq<Toleration>>,
    dependsOn: seq<string>,
    imagePullSecrets: Option<seq<string>>,
    containerConcurrency: Option<int>,
    timeoutSeconds: Option<int>,
    port: int,
    ports: seq<int>,
    secrets: seq<SecretModel>,
    configMaps: seq<ConfigMapModel>)

  /** The port a service model starts with: 8080, which also means "no port given". */
  const DefaultPort: int := 8080

  const NewService: ServiceModel := ServiceModel(
    None, None, None, None, None, None, None, None, None, None, None, None, None, None, None, None,
    None, None, None, None, None, None, [], None, None, None, DefaultPort, [], [], [])

  /** `ServiceModel.addPort`: the ports form an insertion-ordered set. */
  function AddPort(s: ServiceModel, p: int): (r: ServiceModel)
    ensures r == s.(ports := r.ports)
    ensures p in s.ports ==> r.ports == s.ports
    ensures p !in s.ports ==> r.ports == s.ports + [p]
  {
    s.(ports := AddBy(s.ports, p, (x: int) => x))
  }

  /** The identity of a config map or secret in a `HashSet`: its mount path. */
  function ConfigMapKey(c: ConfigMapModel): Option<string> {
    c.mountPath
  }

  function SecretKey(s: SecretModel): Option<string> {
    s.mountPath
  }

  /** `KnativeDataHolder` of the module being compiled. */
  datatype Holder = Holder(
    sourceRoot: Path,
    namespace: Option<string>,
    serviceModel: Option<ServiceModel>,
    secrets: seq<SecretModel>,
    configMaps: seq<ConfigMapModel>,
    canProcess: bool)

  function NewHolder(sourceRoot: Path): Holder {
    Holder(sourceRoot, None, None, [], [], false)
  }

  /** `addConfigMaps`: set union by mount path. */
  function AddConfigMaps(h: Holder, cms: seq<ConfigMapModel>): (r: Holder)
    ensures r == h.(configMaps := r.configMaps)
    ensures DistinctBy(h.configMaps, ConfigMapKey) ==> DistinctBy(r.configMaps, ConfigMapKey)
  {
    h.(configMaps := AddAllBy(h.configMaps, cms, ConfigMapKey))
  }

  /** `addSecrets`: set union by mount path. */
  function AddSecrets(h: Holder, ss: seq<SecretModel>): (r: Holder)
    ensures r == h.(secrets := r.secrets)
    ensures DistinctBy(h.secrets, SecretKey) ==> DistinctBy(r.secrets, SecretKey)
  {
    h.(secrets := AddAllBy(h.secrets, ss, SecretKey))
  }

  /** A step that may fail after it has already changed the holder: the holder is
      shared, so what was set before a throw stays set. */
  datatype Step<+T> = Step(holder: Holder, result: Result<T>)

  /** What processing one annotation leaves behind: the holder and the failure, if any. */
  datatype Outcome = Outcome(holder: Holder, error: Option<Failure>)

  /** The inputs the plugin reads outside the syntax tree: the
      process environment, the files, and the two `KnativeContext` look-ups from a
      `dependsOn` alias (a listener name) to a deployment name and to a service name. */
  datatype Inputs = Inputs(
    env: Env,
    files: Files,
    deploymentOf: map<string, string>,
    serviceNameOf: map<string, string>)
}
