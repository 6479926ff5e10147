# The knative compiler extension's configuration model, in Dafny

The Ballerina knative extension is a compiler plugin. It reads the `@knative:Service`,
`@knative:Secret` and `@knative:ConfigMap` annotations of a module. It turns them into a
per-module data holder of service, secret and config-map models. After code generation it
validates the services' `dependsOn` dependencies and builds a knative serving `Service`
descriptor from the holder.

This project models that path as pure functions over immutable data:

- `Wrappers`: `Option`, `Result` and `Failure`. A failure records which Java exception it
  stands for. Only a `KnativePluginException` (`PluginError`) is caught by the plugin; every
  other kind escapes it.
- `Text`, `EnvResolve`, `Paths`, `Base64`, `Collections`: the library behaviour the plugin
  relies on, stated on its own terms:
  - `isBlank`, `getValidName`, `String.trim`, `indexOf`, `Integer.parseInt` and
    `Boolean.parseBoolean`;
  - `$env{}` resolution;
  - `Paths.get`, `resolve`, `normalize` and `getFileName`;
  - Base64 as section 4 of RFC 4648 defines it;
  - insertion-ordered maps and sets that identify elements by their `equals`.
- `Ast`, `Utils`: the `KnativeUtils` accessors over annotation values:
  - string, boolean, integer and map values;
  - environment variables;
  - image-pull secrets;
  - copy files;
  - `populateEnvVar`.
- `Models`, `Identity`: the model classes and the data holder. `Identity` covers the
  `equals`/`hashCode` of `KnativeModel` and `ConfigMapModel`.
- `Factory`, `ServiceProcessor`, `SecretProcessor`, `ConfigMapProcessor`: the processor
  factory and the three annotation processors. Each returns the holder it leaves behind
  together with its failure, if any.
- `ServiceHandler`: `KnativeServiceHandler`, from the holder to the service descriptor and
  the docker image name.
- `Plugin`: the `process` callbacks with their per-annotation error handling, the listener
  check, `validateDeploymentDependencies` and the step order of `codeGenerated`.

The process environment, the file system and the `KnativeContext` look-ups are inputs:
`Env`, `Files` and `Inputs`. Nothing is read from outside.

Source cells cite the repository's files by path and line.

## Model

| member | source | states |
|---|---|---|
| Text.IsBlank | knative-extension/src/main/java/org/ballerinax/knative/utils/KnativeUtils.java:177-187 | A string is blank exactly when it is null or every character is a Java whitespace character. |
| Text.ValidName | knative-extension/src/main/java/org/ballerinax/knative/utils/KnativeUtils.java:288-290 | The result has the input's length. It holds no upper-case letter, `_` or `.`. `_` and `.` become `-`, upper-case letters become lower-case, and every other character is kept. |
| Text.ValidNameFixesValidNames | knative-extension/src/main/java/org/ballerinax/knative/utils/KnativeUtils.java:288-290 | A name that is already valid is left unchanged. |
| Text.ValidNameIdempotent | knative-extension/src/main/java/org/ballerinax/knative/utils/KnativeUtils.java:288-290 | Normalising a name twice gives the same result as normalising it once. |
| Text.IndexOf | knative-extension/src/main/java/org/ballerinax/knative/utils/KnativeUtils.java:197 | Returns the first occurrence at or after the start index. It returns -1 exactly when there is no occurrence from there. |
| Text.IndexOfChar | knative-extension/src/main/java/org/ballerinax/knative/utils/KnativeUtils.java:198 | Returns the first index holding the character at or after the start, or -1 when there is none. |
| Text.LastIndexOf | knative-extension/src/main/java/org/ballerinax/knative/handlers/KnativeServiceHandler.java:242-245 | Returns the last index holding the character, or -1. No later index holds it. |
| Text.TrimKeepsVisibleCore | knative-extension/src/main/java/org/ballerinax/knative/utils/KnativeUtils.java:200 | `trim` keeps one slice of the input. The slice begins and ends above U+0020 and contains every input character above U+0020. |
| Text.ParseBoolean | knative-extension/src/main/java/org/ballerinax/knative/utils/KnativeUtils.java:240-242 | Returns true exactly for "true" in any ASCII case. |
| Text.ParseInt | knative-extension/src/main/java/org/ballerinax/knative/utils/KnativeUtils.java:251-253 | A parsed value lies in the 32-bit range. Any other input is a NumberFormatException. |
| Text.ParseShowNat | knative-extension/src/main/java/org/ballerinax/knative/utils/KnativeUtils.java:251-253 | Parsing the numeral of an in-range natural number gives the number back. |
| Text.ParseNegativeShowNat | knative-extension/src/main/java/org/ballerinax/knative/utils/KnativeUtils.java:251-253 | Parsing `-` followed by a numeral gives its negation, down to the 32-bit minimum. |
| EnvResolve.FirstPlaceholderIsFirst | knative-extension/src/main/java/org/ballerinax/knative/utils/KnativeUtils.java:196-198 | The place-holder found starts at the first `$env{` and ends at the first `}` after it. None means there is no `$env{`, or no `}` after it. |
| EnvResolve.ResolveValue | knative-extension/src/main/java/org/ballerinax/knative/utils/KnativeUtils.java:195-216 | Every failure of resolution is a plugin error. |
| EnvResolve.ResolveSubstitutesFirstPlaceholder | knative-extension/src/main/java/org/ballerinax/knative/utils/KnativeUtils.java:199-213 | An unset variable in the first place-holder is reported by its trimmed name. On success the text before the place-holder is copied and the variable's value follows verbatim. The rest is the resolution of the text after the `}`. |
| EnvResolve.ResolveStep | knative-extension/src/main/java/org/ballerinax/knative/utils/KnativeUtils.java:199-213 | Resolution succeeds exactly when the first variable is set and the rest of the text resolves. |
| EnvResolve.ResolveOkIffAllSet | knative-extension/src/main/java/org/ballerinax/knative/utils/KnativeUtils.java:195-216 | Resolution succeeds exactly when every place-holder it visits names a set variable. |
| EnvResolve.ResolveReportsFirstUnset | knative-extension/src/main/java/org/ballerinax/knative/utils/KnativeUtils.java:201-203 | A failed resolution names the first visited place-holder whose variable is unset. |
| EnvResolve.ResolveWithOwnPlaceholders | knative-extension/src/main/java/org/ballerinax/knative/utils/KnativeUtils.java:195-216 | When each variable maps to its own place-holder text, resolution is the identity. So the text outside place-holders is copied verbatim. |
| EnvResolve.SubstitutionIsNotRescanned | knative-extension/src/main/java/org/ballerinax/knative/utils/KnativeUtils.java:205-206 | Wherever the substituted value contains the `$env{` marker, the result contains it at the same place shifted by the place-holder's start: the inserted text is not scanned again. |
| Ast.ListItems | knative-extension/src/main/java/org/ballerinax/knative/utils/KnativeUtils.java:384 | The cast to a list succeeds exactly on a list and yields its items. Anything else is a ClassCastException. |
| Ast.RecordFields | knative-extension/src/main/java/org/ballerinax/knative/utils/KnativeUtils.java:489-492 | The cast to a record succeeds exactly on a record and yields its fields. Anything else is a ClassCastException. |
| Ast.GetStringValue | knative-extension/src/main/java/org/ballerinax/knative/utils/KnativeUtils.java:262-281 | A literal's text, or a compile-time constant's value, is `$env{}`-resolved. Any other expression is "unable to parse value". Every failure is a plugin error. |
| Ast.PlainLiteral | knative-extension/src/main/java/org/ballerinax/knative/utils/KnativeUtils.java:278-279 | A literal without `$env{` reads back verbatim. |
| Ast.GetBooleanValue | knative-extension/src/main/java/org/ballerinax/knative/utils/KnativeUtils.java:240-242 | Succeeds exactly when the string value does. The result is true exactly for "true" in any case. It fails with the same error as the string value. |
| Ast.GetIntValue | knative-extension/src/main/java/org/ballerinax/knative/utils/KnativeUtils.java:251-253 | A result lies in the 32-bit range. A failure is the string value's plugin error or a NumberFormatException. |
| Ast.StringEntries | knative-extension/src/main/java/org/ballerinax/knative/utils/KnativeUtils.java:225-227 | Keeps the fields' keys and string values in order. On failure it returns the error of a field whose value failed. |
| Ast.GetMap | knative-extension/src/main/java/org/ballerinax/knative/utils/KnativeUtils.java:218-232 | A non-record cannot be parsed. A parsed map has distinct keys, and every failure is a plugin error. |
| Ast.GetMapLastFieldWins | knative-extension/src/main/java/org/ballerinax/knative/utils/KnativeUtils.java:224-228 | Every key of the map holds the string value of the last field with that key. A key no field has is absent. |
| Collections.Get | knative-extension/src/main/java/org/ballerinax/knative/utils/KnativeUtils.java:227 | Finds a value exactly when the key is present, and that value is the key's entry. |
| Collections.Put | knative-extension/src/main/java/org/ballerinax/knative/utils/KnativeUtils.java:227 | After `put` the key holds the new value and every other key is unchanged. A present key keeps its position, a new key is appended, and keys stay distinct. |
| Collections.PutAllLastWins | knative-extension/src/main/java/org/ballerinax/knative/utils/KnativeUtils.java:225-228 | After a sequence of `put`s, the last `put` of a key decides its value. A key never put keeps its earlier value. |
| Collections.AddBy | knative-extension/src/main/java/org/ballerinax/knative/processors/KnativeConfigMapAnnotationProcessor.java:146 | `HashSet.add` drops an element equal to one already present and appends any other. It keeps the set free of equal elements. |
| Collections.AddAllBy | knative-extension/src/main/java/org/ballerinax/knative/processors/KnativeConfigMapAnnotationProcessor.java:158 | `addAll` keeps the existing elements in front and keeps the set free of equal elements. |
| Collections.AddAllByCovers | knative-extension/src/main/java/org/ballerinax/knative/processors/KnativeConfigMapAnnotationProcessor.java:158 | Every added element is represented in the union by an equal element. |
| Collections.AddAllByFrom | knative-extension/src/main/java/org/ballerinax/knative/processors/KnativeConfigMapAnnotationProcessor.java:158 | The union holds only elements of its two operands. |
| Collections.AddAllByAppend | knative-extension/src/main/java/org/ballerinax/knative/processors/KnativeConfigMapAnnotationProcessor.java:84-158 | Adding two sequences one after the other adds their concatenation, so the sets of successive fields can be merged as one sequence. |
| Collections.AddAllByNested | knative-extension/src/main/java/org/ballerinax/knative/processors/KnativeConfigMapAnnotationProcessor.java:81-158 | Building a set from a sequence and then adding it to the holder's set gives the same result as adding the sequence directly. |
| Paths.Parse | knative-extension/src/main/java/org/ballerinax/knative/processors/KnativeConfigMapAnnotationProcessor.java:109-112 | `Paths.get` refuses exactly the strings holding NUL. A path is absolute exactly when the text starts with `/`. |
| Paths.ParseShow | knative-extension/src/main/java/org/ballerinax/knative/processors/KnativeConfigMapAnnotationProcessor.java:110-112 | Parsing the text of a well-formed path gives the path back. |
| Paths.ParseTrailingSlash | knative-extension/src/main/java/org/ballerinax/knative/processors/KnativeConfigMapAnnotationProcessor.java:109-113 | A trailing slash does not change the parsed path. |
| Paths.FileName | knative-extension/src/main/java/org/ballerinax/knative/processors/KnativeConfigMapAnnotationProcessor.java:168 | The file name is the last name element. Only the root has none. |
| Paths.Resolve | knative-extension/src/main/java/org/ballerinax/knative/processors/KnativeConfigMapAnnotationProcessor.java:165-167 | An absolute argument replaces the base, and an empty one leaves the base. Otherwise the argument's names follow the base's. |
| Paths.Normalize | knative-extension/src/main/java/org/ballerinax/knative/processors/KnativeConfigMapAnnotationProcessor.java:183-184 | The result keeps absoluteness and has no `.`. An absolute result has no `..`. |
| Paths.NormalizeIdempotent | knative-extension/src/main/java/org/ballerinax/knative/processors/KnativeConfigMapAnnotationProcessor.java:183-184 | Normalising twice is normalising once. |
| Base64.DecodeEncode | knative-extension/src/main/java/org/ballerinax/knative/processors/KnativeSecretAnnotationProcesser.java:125 | Decoding an encoded file content gives the bytes back. |
| Base64.EncodeLength | knative-extension/src/main/java/org/ballerinax/knative/processors/KnativeSecretAnnotationProcesser.java:125 | Every started group of three bytes takes four characters. |
| Base64.EncodeAlphabet | knative-extension/src/main/java/org/ballerinax/knative/processors/KnativeSecretAnnotationProcesser.java:125 | An encoding uses only alphabet characters, apart from at most two trailing `=`. |
| Models.ReadFile | knative-extension/src/main/java/org/ballerinax/knative/utils/KnativeUtils.java:119-130 | Reading succeeds exactly for an existing file and yields its content. Otherwise it fails with "unable to read contents of the file" and the path. |
| Models.AddPort | knative-extension/src/main/java/org/ballerinax/knative/processors/KnativeServiceAnnotationProcessor.java:86 | A port already present leaves the ports as they were. A new port is appended. Nothing else changes. |
| Models.AddConfigMaps | knative-extension/src/main/java/org/ballerinax/knative/processors/KnativeConfigMapAnnotationProcessor.java:158 | Only the holder's config maps change, and they stay free of two entries with one mount path. |
| Models.AddSecrets | knative-extension/src/main/java/org/ballerinax/knative/processors/KnativeSecretAnnotationProcesser.java:117 | Only the holder's secrets change, and they stay free of two entries with one mount path. |
| Identity.KnativeModelEquals | knative-extension/src/main/java/org/ballerinax/knative/models/KnativeModel.java:66-76 | One reference is equal to itself, and a non-model is unequal. Otherwise the names are compared. A null receiver name throws a NullPointerException. |
| Identity.ConfigMapEquals | knative-extension/src/main/java/org/ballerinax/knative/models/ConfigMapModel.java:70-81 | Two config maps are equal exactly when they are one object or have equal mount paths, two nulls included. A non-config-map is unequal. |
| Identity.HashCode | knative-extension/src/main/java/org/ballerinax/knative/models/ConfigMapModel.java:83-86 | The hash is `Objects.hash` of the field `equals` compares: the mount path of a config map, the name of a model. |
| Identity.ConfigMapHashConsistent | knative-extension/src/main/java/org/ballerinax/knative/models/ConfigMapModel.java:70-86 | Equal config maps have equal hash codes. |
| Identity.ConfigMapEqualsReflexiveSymmetric | knative-extension/src/main/java/org/ballerinax/knative/models/ConfigMapModel.java:70-81 | Config-map equality is reflexive and symmetric. |
| Identity.ConfigMapEqualsIsKey | knative-extension/src/main/java/org/ballerinax/knative/models/ConfigMapModel.java:70-81 | Distinct config-map objects are equal exactly when their mount paths are, so the mount path is the set identity. |
| Identity.KnativeModelHashConsistent | knative-extension/src/main/java/org/ballerinax/knative/models/KnativeModel.java:66-81 | Equal knative models have equal hash codes. |
| Utils.FirstField | knative-extension/src/main/java/org/ballerinax/knative/utils/KnativeUtils.java:318-319 | `get(0)` succeeds exactly on a non-empty record and yields its first field. Otherwise it throws IndexOutOfBounds. |
| Utils.PairFields | knative-extension/src/main/java/org/ballerinax/knative/utils/KnativeUtils.java:331-338 | It succeeds exactly when every field with one of the two keys has a string value. Each of the pair is the string value of the last field with its key, or unset without one. Other keys are ignored. |
| Utils.EnvRefOf | knative-extension/src/main/java/org/ballerinax/knative/utils/KnativeUtils.java:316-363 | Only the first field picks the variant: `fieldRef`, `secretKeyRef`, `resourceFieldRef` or `configMapKeyRef`, and a non-record value there is a ClassCastException. An unknown key gives null, and an empty record throws IndexOutOfBounds. `fieldRef` takes the string value of the first inner field; the other variants take the last inner fields of their two keys. |
| Utils.EnvEntry | knative-extension/src/main/java/org/ballerinax/knative/utils/KnativeUtils.java:308-365 | A literal is a plain value equal to its string value. A record is a `valueFrom` reference: it succeeds exactly when the reference is read, is null exactly when the reference is, and holds that reference. Any other expression is stored as null. |
| Utils.EnvEntries | knative-extension/src/main/java/org/ballerinax/knative/utils/KnativeUtils.java:305-367 | It succeeds exactly when every field's entry is read. The map keeps distinct keys and gains at most one entry per field. |
| Utils.EnvEntriesLastWins | knative-extension/src/main/java/org/ballerinax/knative/utils/KnativeUtils.java:305-367 | A key of the map holds the entry of the last field with that key; a key no field has keeps its earlier value. |
| Utils.GetEnvVarMap | knative-extension/src/main/java/org/ballerinax/knative/utils/KnativeUtils.java:298-373 | A non-record gives an empty map. A record is read exactly when every field's entry is, giving at most one entry per field, with distinct keys. |
| Utils.GetEnvVarMapLastFieldWins | knative-extension/src/main/java/org/ballerinax/knative/utils/KnativeUtils.java:298-373 | Each key holds the entry of the last field with that key; a name no field has is absent. |
| Utils.GetImagePullSecrets | knative-extension/src/main/java/org/ballerinax/knative/utils/KnativeUtils.java:381-389 | It succeeds exactly on a list whose every item has a string value. The result holds distinct strings, each the string value of an item, and the string value of every item is in it. |
| Utils.CopyFileOf | knative-extension/src/main/java/org/ballerinax/knative/utils/KnativeUtils.java:404-419 | Only a record gives a copy-file model. |
| Utils.GetExternalFileMap | knative-extension/src/main/java/org/ballerinax/knative/utils/KnativeUtils.java:398-433 | A list gives one copy-file model per record. Each has a non-blank source and target read from its record. |
| Utils.CopyFiles | knative-extension/src/main/java/org/ballerinax/knative/utils/KnativeUtils.java:402-431 | It succeeds exactly when every item is a record with a non-blank source and target. Each accepted model is the record's model with neither path blank. |
| Utils.CopyFilesFirstRefusal | knative-extension/src/main/java/org/ballerinax/knative/utils/KnativeUtils.java:402-431 | The first item that does not pass decides the failure: its own read failure, else "source" when its source is blank, else "target". A blank source is refused before the target is looked at. |
| Utils.ToEnvVar | knative-extension/src/main/java/org/ballerinax/knative/utils/KnativeUtils.java:441-478 | A plain value wins over a reference. Each reference variant maps to its own selector with the same fields. An entry with neither builds nothing. |
| Utils.EntriesVarsAppend | knative-extension/src/main/java/org/ballerinax/knative/utils/KnativeUtils.java:440-484 | The variables follow the order of the map's entries. |
| Utils.EntriesVarsComplete | knative-extension/src/main/java/org/ballerinax/knative/utils/KnativeUtils.java:440-484 | Every non-null entry with a value or a reference yields a variable of its name. |
| Utils.PopulateEnvVar | knative-extension/src/main/java/org/ballerinax/knative/utils/KnativeUtils.java:435-487 | A null map gives no variables. Otherwise each variable is the one built for a non-null entry of the map. This is the corrected build, which skips null entries. |
| Utils.EntriesVarsFrom | knative-extension/src/main/java/org/ballerinax/knative/utils/KnativeUtils.java:440-484 | Every variable built from the entries is the one built for some non-null entry. |
| Utils.PopulateEnvVarAsWritten | knative-extension/src/main/java/org/ballerinax/knative/utils/KnativeUtils.java:435-487 | As written, the build throws a NullPointerException exactly when the map holds a null entry. |
| Utils.PopulateEnvVarAgrees | knative-extension/src/main/java/org/ballerinax/knative/utils/KnativeUtils.java:435-487 | Wherever the written build does not throw, it agrees with the corrected build. |
| Utils.ConstantEnvVarThrows | knative-extension/src/main/java/org/ballerinax/knative/utils/KnativeUtils.java:310-443 | An environment variable given by a constant is stored as null. The written build then throws on it, and the corrected build leaves it out. |
| Factory.AnnotationOf | knative-extension/src/main/java/org/ballerinax/knative/processors/KnativeAnnotationProcessorFactory.java:33 | `valueOf` finds the constant of that name. Every other name is refused with "No enum constant". |
| Factory.EveryAnnotationDispatched | knative-extension/src/main/java/org/ballerinax/knative/processors/KnativeAnnotationProcessorFactory.java:33-44 | Every constant is found by its name, so the factory's default branch cannot be reached. |
| Factory.GetProcessor | knative-extension/src/main/java/org/ballerinax/knative/processors/KnativeAnnotationProcessorFactory.java:30-45 | `canProcess` is set even when the name is refused. Exactly the names Service, Secret and ConfigMap get a processor. A refusal is an IllegalArgumentException that the plugin does not catch. |
| ServiceProcessor.ProbeField | knative-extension/src/main/java/org/ballerinax/knative/processors/KnativeServiceAnnotationProcessor.java:298-314 | A key outside `ProbeConfiguration` throws "No enum constant". A known key succeeds exactly when its value reads as an integer, and sets exactly its own setting to that integer. |
| ServiceProcessor.ProbeFields | knative-extension/src/main/java/org/ballerinax/knative/processors/KnativeServiceAnnotationProcessor.java:298-316 | A parsed probe had only known keys. Without a `port` field it keeps its port. |
| ServiceProcessor.ProbeFieldsLastWins | knative-extension/src/main/java/org/ballerinax/knative/processors/KnativeServiceAnnotationProcessor.java:298-316 | Each of port, initial delay and period is the integer of the last field with its key, or keeps its starting value without one. |
| ServiceProcessor.ParseProbe | knative-extension/src/main/java/org/ballerinax/knative/processors/KnativeServiceAnnotationProcessor.java:289-320 | A literal or reference is read as a boolean: true gives a default probe, false gives null. A record is read exactly when its fields are, and gives a probe whose port, initial delay and period come from the last field of each key, with port 0 and no delays otherwise. Any other expression gives null. |
| ServiceProcessor.TolerationField | knative-extension/src/main/java/org/ballerinax/knative/processors/KnativeServiceAnnotationProcessor.java:253-275 | A key outside `PodTolerationConfiguration` throws "No enum constant". `key`, `operator`, `value` and `effect` succeed exactly when the value has a string value, and `tolerationSeconds` when it has an integer value. Each sets exactly its own setting to that value. |
| ServiceProcessor.TolerationFields | knative-extension/src/main/java/org/ballerinax/knative/processors/KnativeServiceAnnotationProcessor.java:253-276 | A parsed toleration had only known keys. |
| ServiceProcessor.TolerationFieldsKey | knative-extension/src/main/java/org/ballerinax/knative/processors/KnativeServiceAnnotationProcessor.java:253-276 | The last `key` field gives the toleration's key, or the starting one without one. |
| ServiceProcessor.TolerationFieldsOperator | knative-extension/src/main/java/org/ballerinax/knative/processors/KnativeServiceAnnotationProcessor.java:253-276 | The last `operator` field gives the operator. |
| ServiceProcessor.TolerationFieldsValue | knative-extension/src/main/java/org/ballerinax/knative/processors/KnativeServiceAnnotationProcessor.java:253-276 | The last `value` field gives the value. |
| ServiceProcessor.TolerationFieldsEffect | knative-extension/src/main/java/org/ballerinax/knative/processors/KnativeServiceAnnotationProcessor.java:253-276 | The last `effect` field gives the effect. |
| ServiceProcessor.TolerationFieldsSeconds | knative-extension/src/main/java/org/ballerinax/knative/processors/KnativeServiceAnnotationProcessor.java:253-276 | The last `tolerationSeconds` field gives the seconds as an integer. |
| ServiceProcessor.TolerationFieldsLastWins | knative-extension/src/main/java/org/ballerinax/knative/processors/KnativeServiceAnnotationProcessor.java:253-276 | Every setting of a parsed toleration comes from the last field with its key. |
| ServiceProcessor.Tolerations | knative-extension/src/main/java/org/ballerinax/knative/processors/KnativeServiceAnnotationProcessor.java:247-279 | One toleration per record, in order. Each is parsed from its record's fields, with every setting from the last field of its key. |
| ServiceProcessor.ParseTolerations | knative-extension/src/main/java/org/ballerinax/knative/processors/KnativeServiceAnnotationProcessor.java:245-280 | Only a list is read, giving one toleration per item. Anything else is a ClassCastException. |
| ServiceProcessor.GetDependsOn | knative-extension/src/main/java/org/ballerinax/knative/processors/KnativeServiceAnnotationProcessor.java:322-329 | Only a list is read. The result is a set of distinct strings. |
| ServiceProcessor.GetDependsOnContents | knative-extension/src/main/java/org/ballerinax/knative/processors/KnativeServiceAnnotationProcessor.java:322-329 | A string is in the set exactly when it is the text of some item. |
| ServiceProcessor.SetServiceField | knative-extension/src/main/java/org/ballerinax/knative/processors/KnativeServiceAnnotationProcessor.java:136-223 | `name` sets the normalised string value, and `port` sets the integer value. Every other key leaves name and port, and no key touches the ports, secrets or config maps. |
| ServiceProcessor.SetScalarField | knative-extension/src/main/java/org/ballerinax/knative/processors/KnativeServiceAnnotationProcessor.java:146-196 | Each scalar key succeeds exactly when its value has the string, boolean or integer value its setter needs, and sets exactly that setting to that value. Any other key leaves the model unchanged. |
| ServiceProcessor.SetStructuredField | knative-extension/src/main/java/org/ballerinax/knative/processors/KnativeServiceAnnotationProcessor.java:140-210 | Each structured key succeeds exactly when its accessor reads the value, and sets exactly that setting to what the accessor read: `getMap` for the label and annotation maps, the probes, the env map, tolerations, `dependsOn`, image-pull secrets and copy files. Any other key leaves the model unchanged. |
| ServiceProcessor.ApplyServiceField | knative-extension/src/main/java/org/ballerinax/knative/processors/KnativeServiceAnnotationProcessor.java:134-223 | An unknown key throws "No enum constant" with the holder untouched. `namespace` goes to the holder and nothing else does. |
| ServiceProcessor.ServiceFields | knative-extension/src/main/java/org/ballerinax/knative/processors/KnativeServiceAnnotationProcessor.java:133-224 | Only the holder's namespace changes. A parsed annotation had only known keys. |
| ServiceProcessor.ServiceFieldsName | knative-extension/src/main/java/org/ballerinax/knative/processors/KnativeServiceAnnotationProcessor.java:137-139 | The last `name` field decides the name, normalised. Without one the name is unchanged. |
| ServiceProcessor.ServiceFieldsPort | knative-extension/src/main/java/org/ballerinax/knative/processors/KnativeServiceAnnotationProcessor.java:218-220 | The last `port` field decides the port. Without one the port is unchanged. |
| ServiceProcessor.ServiceFieldsNamespace | knative-extension/src/main/java/org/ballerinax/knative/processors/KnativeServiceAnnotationProcessor.java:182-184 | The last `namespace` field decides the holder's namespace. Without one it is unchanged. |
| ServiceProcessor.DockerOverride | knative-extension/src/main/java/org/ballerinax/knative/processors/KnativeServiceAnnotationProcessor.java:226-233 | A non-blank `DOCKER_HOST` or `DOCKER_CERT_PATH` overrides the annotation's value. Nothing else changes. |
| ServiceProcessor.ProcessService | knative-extension/src/main/java/org/ballerinax/knative/processors/KnativeServiceAnnotationProcessor.java:129-236 | A non-record annotation is a ClassCastException. A record is read exactly when its fields are. The model is the fields' model with both docker environment overrides applied, stored in the holder with no ports, secrets or config maps. Its name and port come from the last such fields (none, and 8080, without one), and so does the holder's namespace. |
| ServiceProcessor.DefaultName | knative-extension/src/main/java/org/ballerinax/knative/processors/KnativeServiceAnnotationProcessor.java:95-97 | A blank name becomes the node's valid name plus `-knative-svc`. A non-blank one is kept, so the name is never blank. |
| ServiceProcessor.ExtractPort | knative-extension/src/main/java/org/ballerinax/knative/processors/KnativeServiceAnnotationProcessor.java:331-338 | The first argument is parsed as an integer. A missing argument throws IndexOutOfBounds, and a non-number is a plugin error naming the argument. |
| ServiceProcessor.ExtractPortLiteral | knative-extension/src/main/java/org/ballerinax/knative/processors/KnativeServiceAnnotationProcessor.java:331-338 | A listener built with a numeric literal yields that port. |
| ServiceProcessor.ProcessFunction | knative-extension/src/main/java/org/ballerinax/knative/processors/KnativeServiceAnnotationProcessor.java:66-74 | On any function but `main` the annotation is refused. On `main` it is processed. |
| ServiceProcessor.InlineListenerPort | knative-extension/src/main/java/org/ballerinax/knative/processors/KnativeServiceAnnotationProcessor.java:102-109 | With the default port 8080, the listener port is added unless it is 9090, 9091, 8013 or 8012, which are refused. With another port the ports are unchanged. |
| ServiceProcessor.ProcessServiceNode | knative-extension/src/main/java/org/ballerinax/knative/processors/KnativeServiceAnnotationProcessor.java:76-110 | A service attached to a listener reference gets its own port. An inline listener's port is added. In both cases a blank name becomes the service's valid name with `-knative-svc`, and nothing else of the model or holder changes. |
| ServiceProcessor.InlineListenerPorts | knative-extension/src/main/java/org/ballerinax/knative/processors/KnativeServiceAnnotationProcessor.java:94-109 | For an inline listener, the stored model is the defaulted model with the listener port handled as `InlineListenerPort` states. |
| ServiceProcessor.ProcessVariable | knative-extension/src/main/java/org/ballerinax/knative/processors/KnativeServiceAnnotationProcessor.java:112-127 | With the default port the listener variable's port is added, with no reserved-port check. A blank name becomes the variable's valid name with `-knative-svc`, and nothing else of the model or holder changes. |
| SecretProcessor.SecretDataFile | knative-extension/src/main/java/org/ballerinax/knative/processors/KnativeSecretAnnotationProcesser.java:123-126 | A data file is read where its string value points, keyed by its file name. It fails exactly when the string, the path or the file is missing. |
| SecretProcessor.SecretDataFiles | knative-extension/src/main/java/org/ballerinax/knative/processors/KnativeSecretAnnotationProcesser.java:120-129 | It succeeds exactly when every listed file is read. The map is the files' (file name, encoded content) entries put in order, with distinct keys. |
| SecretProcessor.SecretDataEntries | knative-extension/src/main/java/org/ballerinax/knative/processors/KnativeSecretAnnotationProcesser.java:122-127 | Each listed file in order as its file name and encoded content; it fails exactly when some file is not read. |
| SecretProcessor.SecretDataFilesLastWins | knative-extension/src/main/java/org/ballerinax/knative/processors/KnativeSecretAnnotationProcesser.java:120-129 | A key is the file name of the last listed file with that name and holds its content Base64-encoded, which decodes back to the content. A name no file has is absent. |
| SecretProcessor.SecretDataFilesRead | knative-extension/src/main/java/org/ballerinax/knative/processors/KnativeSecretAnnotationProcesser.java:120-129 | The data are read exactly when every listed file can be read. |
| SecretProcessor.SecretDataDecodable | knative-extension/src/main/java/org/ballerinax/knative/processors/KnativeSecretAnnotationProcesser.java:120-129 | Every value of a secret's data is a decodable Base64 text. |
| SecretProcessor.PutDecodable | knative-extension/src/main/java/org/ballerinax/knative/processors/KnativeSecretAnnotationProcesser.java:125-126 | Storing an encoded content keeps every value decodable, and the new value decodes to that content. |
| SecretProcessor.SecretField | knative-extension/src/main/java/org/ballerinax/knative/processors/KnativeSecretAnnotationProcesser.java:84-109 | An unknown key throws "No enum constant". Each known key succeeds exactly when its value is read, and sets its slot: the valid name, the map read from the label source, the mount path, the flag, or the data map of the listed files. Every other slot is unchanged. |
| SecretProcessor.SecretFields | knative-extension/src/main/java/org/ballerinax/knative/processors/KnativeSecretAnnotationProcesser.java:84-110 | A parsed secret had only known keys, decodable data, and `readOnly` unchanged unless given. |
| SecretProcessor.SecretFieldsName | knative-extension/src/main/java/org/ballerinax/knative/processors/KnativeSecretAnnotationProcesser.java:84-110 | The last `name` field gives the valid name; without one the name is the starting one. |
| SecretProcessor.SecretFieldsMountPath | knative-extension/src/main/java/org/ballerinax/knative/processors/KnativeSecretAnnotationProcesser.java:84-110 | The last `mountPath` field gives the mount path. |
| SecretProcessor.SecretFieldsReadOnly | knative-extension/src/main/java/org/ballerinax/knative/processors/KnativeSecretAnnotationProcesser.java:84-110 | The last `readOnly` field gives the flag. |
| SecretProcessor.SecretFieldsData | knative-extension/src/main/java/org/ballerinax/knative/processors/KnativeSecretAnnotationProcesser.java:84-110 | The last `data` field gives the data map of its listed files. |
| SecretProcessor.SecretFieldsLabels | knative-extension/src/main/java/org/ballerinax/knative/processors/KnativeSecretAnnotationProcesser.java:84-110 | The last `labels` field gives the map read from its label source. |
| SecretProcessor.SecretFieldsAnnotations | knative-extension/src/main/java/org/ballerinax/knative/processors/KnativeSecretAnnotationProcesser.java:84-110 | The last `annotations` field gives the map read from its label source. |
| SecretProcessor.DefaultSecretName | knative-extension/src/main/java/org/ballerinax/knative/processors/KnativeSecretAnnotationProcesser.java:111-113 | A blank name becomes exactly `ValidName(node) + "-secret"` and nothing else changes. A non-blank name is kept. |
| SecretProcessor.SecretEntry | knative-extension/src/main/java/org/ballerinax/knative/processors/KnativeSecretAnnotationProcesser.java:80-114 | A non-record entry is a ClassCastException. An entry is read exactly when its fields are. The name is the valid name of the last `name` field, or the node's name with `-secret` when that is missing or blank. The flag is the last `readOnly` value, clear without one. Mount path, data, labels and annotations come from the last such fields, labels and annotations read from their label source. |
| SecretProcessor.EntrySlots | knative-extension/src/main/java/org/ballerinax/knative/processors/KnativeSecretAnnotationProcesser.java:80-114 | The slots of a parsed entry after naming: name, flag, mount path, data, labels and annotations as the last fields give them. |
| SecretProcessor.KeepSecret | knative-extension/src/main/java/org/ballerinax/knative/processors/KnativeSecretAnnotationProcesser.java:114 | A secret is added unless one with its mount path is present. |
| SecretProcessor.SecretList | knative-extension/src/main/java/org/ballerinax/knative/processors/KnativeSecretAnnotationProcesser.java:79-115 | A list reads exactly when each of its items does. Then it has one secret per item, and the secret at each position is the one that item reads as. |
| SecretProcessor.SecretEntries | knative-extension/src/main/java/org/ballerinax/knative/processors/KnativeSecretAnnotationProcesser.java:79-115 | The list is read exactly when every item reads as a secret (`SecretList`). The result is then the set it was given with the items' secrets added in order, each unless its mount path is already there (`AddAllBy`). A list that was read holds only records. |
| SecretProcessor.TopLevelFields | knative-extension/src/main/java/org/ballerinax/knative/processors/KnativeSecretAnnotationProcesser.java:78-116 | Whatever its key, every top-level field must be a list of secrets. The annotation is read exactly when all of its lists are (`AnnotationSecrets`). The result is then the given set with all of the annotation's secrets added in order by mount path. |
| SecretProcessor.AnnotationSecrets | knative-extension/src/main/java/org/ballerinax/knative/processors/KnativeSecretAnnotationProcesser.java:78-116 | The annotation is read exactly when every top-level field is a list whose items all read as secrets. |
| SecretProcessor.AnnotationSecretsCover | knative-extension/src/main/java/org/ballerinax/knative/processors/KnativeSecretAnnotationProcesser.java:78-116 | Every item of every list reads as a secret, and that secret is one of the annotation's. |
| SecretProcessor.AnnotationSecretsFrom | knative-extension/src/main/java/org/ballerinax/knative/processors/KnativeSecretAnnotationProcesser.java:78-116 | Every secret of the annotation is the one that some item of some list reads as. |
| SecretProcessor.ProcessSecretsWith | knative-extension/src/main/java/org/ballerinax/knative/processors/KnativeSecretAnnotationProcesser.java:73-118 | On failure the holder is unchanged. On success only its secrets grow, and they keep distinct mount paths. A non-record annotation is a ClassCastException. A record succeeds exactly when the annotation is read whole, and the holder's secrets then become its old ones with the annotation's secrets added in order by mount path. |
| SecretProcessor.ProcessSecrets | knative-extension/src/main/java/org/ballerinax/knative/processors/KnativeSecretAnnotationProcesser.java:73-118 | With labels read from each entry: on failure the holder is unchanged, otherwise only its secrets change, and they keep distinct mount paths. A record succeeds exactly when the annotation is read whole, and the holder's secrets then become its old ones with the annotation's secrets added by mount path. |
| SecretProcessor.ProcessSecretsAdds | knative-extension/src/main/java/org/ballerinax/knative/processors/KnativeSecretAnnotationProcesser.java:111-117 | After a successful read, every item of every list reads as a named secret whose data decode. A secret with its mount path is then in the holder. |
| SecretProcessor.ProcessSecretsOnly | knative-extension/src/main/java/org/ballerinax/knative/processors/KnativeSecretAnnotationProcesser.java:111-117 | After a successful read, every secret in the holder was there before or is the one that some item of the annotation reads as. |
| SecretProcessor.ProcessSecretsAsWritten | knative-extension/src/main/java/org/ballerinax/knative/processors/KnativeSecretAnnotationProcesser.java:73-118 | As written, a failure also leaves the holder unchanged. |
| SecretProcessor.LabelsReadFromList | knative-extension/src/main/java/org/ballerinax/knative/processors/KnativeSecretAnnotationProcesser.java:91-96 | As written, a secret with `labels` fails, because the list is read as the map. Read from the entry, the labels are accepted. |
| SecretProcessor.ProcessServiceSecrets | knative-extension/src/main/java/org/ballerinax/knative/processors/KnativeSecretAnnotationProcesser.java:57-61 | A service's secrets are processed under the service's name. |
| SecretProcessor.ProcessFunctionSecrets | knative-extension/src/main/java/org/ballerinax/knative/processors/KnativeSecretAnnotationProcesser.java:63-71 | Only `main` may carry the annotation. Any other function is refused with the holder unchanged. |
| ConfigMapProcessor.HomePathParses | knative-extension/src/main/java/org/ballerinax/knative/processors/KnativeConfigMapAnnotationProcessor.java:110 | `Paths.get` of ballerina home is the path /home/ballerina. |
| ConfigMapProcessor.RuntimePathParses | knative-extension/src/main/java/org/ballerinax/knative/processors/KnativeConfigMapAnnotationProcessor.java:111 | `Paths.get` of the runtime directory is the path /ballerina/runtime. |
| ConfigMapProcessor.ConfPathParses | knative-extension/src/main/java/org/ballerinax/knative/processors/KnativeConfigMapAnnotationProcessor.java:112 | `Paths.get` of the conf mount path drops its trailing slash. |
| ConfigMapProcessor.CheckMountPath | knative-extension/src/main/java/org/ballerinax/knative/processors/KnativeConfigMapAnnotationProcessor.java:109-127 | A mount path is refused exactly when it is not a path, or is, as a path, home, the runtime or the conf directory. Each refusal has its own message. |
| ConfigMapProcessor.HomeWithSlashRefused | knative-extension/src/main/java/org/ballerinax/knative/processors/KnativeConfigMapAnnotationProcessor.java:113-117 | Writing ballerina home with a trailing slash is refused too. |
| ConfigMapProcessor.DataPath | knative-extension/src/main/java/org/ballerinax/knative/processors/KnativeConfigMapAnnotationProcessor.java:164-167 | A relative data path is taken against the source root, and an absolute one is used as is. |
| ConfigMapProcessor.DataFile | knative-extension/src/main/java/org/ballerinax/knative/processors/KnativeConfigMapAnnotationProcessor.java:163-170 | A non-literal item is a ClassCastException. A literal's file is read and keyed by its file name, and fails exactly when the path or file is missing. |
| ConfigMapProcessor.DataFiles | knative-extension/src/main/java/org/ballerinax/knative/processors/KnativeConfigMapAnnotationProcessor.java:161-173 | It succeeds exactly when every listed file is read. The map is the files' (file name, content) entries put in order, with distinct keys. |
| ConfigMapProcessor.DataEntries | knative-extension/src/main/java/org/ballerinax/knative/processors/KnativeConfigMapAnnotationProcessor.java:164-171 | Each listed file in order as its file name and content; it fails exactly when some file is not read. |
| ConfigMapProcessor.DataFilesLastWins | knative-extension/src/main/java/org/ballerinax/knative/processors/KnativeConfigMapAnnotationProcessor.java:161-173 | A key is the file name of the last listed file with that name and holds its content. A name no file has is absent. |
| ConfigMapProcessor.DataFilesRead | knative-extension/src/main/java/org/ballerinax/knative/processors/KnativeConfigMapAnnotationProcessor.java:161-173 | The data are read exactly when every listed file can be read. |
| ConfigMapProcessor.ConfigMapField | knative-extension/src/main/java/org/ballerinax/knative/processors/KnativeConfigMapAnnotationProcessor.java:93-140 | An unknown key throws "No enum constant". Each known key succeeds exactly when its value is read, and sets its slot: the valid name, the map read from the label source, the mount path that passed the reserved-path check, the flag, or the data map of the listed files. Every other slot is unchanged. |
| ConfigMapProcessor.ConfigMapFields | knative-extension/src/main/java/org/ballerinax/knative/processors/KnativeConfigMapAnnotationProcessor.java:93-141 | A parsed entry had only known keys. `data` and `readOnly` stay unchanged unless given. |
| ConfigMapProcessor.DefaultConfigMapName | knative-extension/src/main/java/org/ballerinax/knative/processors/KnativeConfigMapAnnotationProcessor.java:142-144 | A blank name becomes exactly `ValidName(node) + "-config-map"` and nothing else changes. A non-blank name is kept. |
| ConfigMapProcessor.ConfigMapFieldsName | knative-extension/src/main/java/org/ballerinax/knative/processors/KnativeConfigMapAnnotationProcessor.java:93-141 | The last `name` field gives the valid name; without one the name is the starting one. |
| ConfigMapProcessor.ConfigMapFieldsMountPath | knative-extension/src/main/java/org/ballerinax/knative/processors/KnativeConfigMapAnnotationProcessor.java:93-141 | The last `mountPath` field gives the mount path, which passed the reserved-path check. |
| ConfigMapProcessor.ConfigMapFieldsReadOnly | knative-extension/src/main/java/org/ballerinax/knative/processors/KnativeConfigMapAnnotationProcessor.java:93-141 | The last `readOnly` field gives the flag. |
| ConfigMapProcessor.ConfigMapFieldsData | knative-extension/src/main/java/org/ballerinax/knative/processors/KnativeConfigMapAnnotationProcessor.java:93-141 | The last `data` field gives the data map of its listed files. |
| ConfigMapProcessor.ConfigMapFieldsLabels | knative-extension/src/main/java/org/ballerinax/knative/processors/KnativeConfigMapAnnotationProcessor.java:93-141 | The last `labels` and `annotations` fields give the maps read from their label sources. |
| ConfigMapProcessor.ConfigMapEntry | knative-extension/src/main/java/org/ballerinax/knative/processors/KnativeConfigMapAnnotationProcessor.java:89-144 | A non-record entry is a ClassCastException. An entry is read exactly when its fields are. The name is the valid name of the last `name` field, or the node's name with `-config-map` when that is missing or blank. The flag is the last `readOnly` value, set without one. Mount path, data, labels and annotations come from the last such fields, labels and annotations read from their label source. |
| ConfigMapProcessor.EntrySlots | knative-extension/src/main/java/org/ballerinax/knative/processors/KnativeConfigMapAnnotationProcessor.java:89-144 | The slots of a parsed entry after naming: name, flag, mount path, data, labels and annotations as the last fields give them. |
| ConfigMapProcessor.KeepEntry | knative-extension/src/main/java/org/ballerinax/knative/processors/KnativeConfigMapAnnotationProcessor.java:145-147 | A config map without data is dropped. One with data is appended when no config map with its mount path is present, and leaves the set unchanged when one is. |
| ConfigMapProcessor.WithData | knative-extension/src/main/java/org/ballerinax/knative/processors/KnativeConfigMapAnnotationProcessor.java:145-147 | The filter keeps exactly the config maps that have data. |
| ConfigMapProcessor.ConfigMapList | knative-extension/src/main/java/org/ballerinax/knative/processors/KnativeConfigMapAnnotationProcessor.java:88-148 | A `configMaps` list reads exactly when each of its items does. Then it has one config map per item, and the config map at each position is the one that item reads as. |
| ConfigMapProcessor.ConfigMapEntries | knative-extension/src/main/java/org/ballerinax/knative/processors/KnativeConfigMapAnnotationProcessor.java:88-148 | The list is read exactly when every item reads as a config map (`ConfigMapList`). The result is then the given set with those items' config maps that have data added in order, each unless its mount path is already there. A list that was read holds only records. |
| ConfigMapProcessor.ConfConfigMap | knative-extension/src/main/java/org/ballerinax/knative/processors/KnativeConfigMapAnnotationProcessor.java:175-193 | The `conf` file becomes a writable config map named `<name>-ballerina-conf-config-map`, mounted at the conf directory. Its one key `ballerina.conf` holds the file's content, so it always has data. It fails exactly when the file is missing. |
| ConfigMapProcessor.ConfFilePath | knative-extension/src/main/java/org/ballerinax/knative/processors/KnativeConfigMapAnnotationProcessor.java:181-185 | A relative conf path is resolved against the source root and normalised. |
| ConfigMapProcessor.TopLevelField | knative-extension/src/main/java/org/ballerinax/knative/processors/KnativeConfigMapAnnotationProcessor.java:84-156 | `configMaps` is read exactly when it is a list whose items all read. `conf` is read exactly when its file is, and then adds the conf config map by mount path. Any other top-level key is ignored. The result is the given set with the field's config maps (`FieldConfigMaps`) added in order by mount path. |
| ConfigMapProcessor.FieldConfigMaps | knative-extension/src/main/java/org/ballerinax/knative/processors/KnativeConfigMapAnnotationProcessor.java:86-156 | A `configMaps` field gives the config maps of its list that have data. A `conf` field gives the conf file's config map. Any other field gives none. Each given config map has data. |
| ConfigMapProcessor.TopLevelFields | knative-extension/src/main/java/org/ballerinax/knative/processors/KnativeConfigMapAnnotationProcessor.java:82-157 | The annotation is read exactly when every field is (`AnnotationConfigMaps`). The result is then the given set with all of the annotation's config maps added in order by mount path. |
| ConfigMapProcessor.AnnotationConfigMaps | knative-extension/src/main/java/org/ballerinax/knative/processors/KnativeConfigMapAnnotationProcessor.java:84-157 | The annotation is read exactly when each of its top-level fields is. |
| ConfigMapProcessor.AnnotationConfigMapsCover | knative-extension/src/main/java/org/ballerinax/knative/processors/KnativeConfigMapAnnotationProcessor.java:84-157 | Every item of every `configMaps` list reads as a config map, which belongs to the annotation when it has data. Every `conf` field's file config map belongs to it too. |
| ConfigMapProcessor.AnnotationConfigMapsFrom | knative-extension/src/main/java/org/ballerinax/knative/processors/KnativeConfigMapAnnotationProcessor.java:84-157 | Every config map of the annotation has data and is the one that some `configMaps` item or some `conf` field reads as. |
| ConfigMapProcessor.ProcessConfigMapsWith | knative-extension/src/main/java/org/ballerinax/knative/processors/KnativeConfigMapAnnotationProcessor.java:79-159 | On failure the holder is unchanged. On success only its config maps grow, and they keep distinct mount paths. A non-record annotation is a ClassCastException. A record succeeds exactly when the annotation is read whole, and the holder's config maps then become its old ones with the annotation's config maps added in order by mount path. |
| ConfigMapProcessor.ProcessConfigMaps | knative-extension/src/main/java/org/ballerinax/knative/processors/KnativeConfigMapAnnotationProcessor.java:79-159 | With labels read from each entry: on failure the holder is unchanged, otherwise only its config maps change, and they keep distinct mount paths. A record succeeds exactly when the annotation is read whole, and the holder's config maps then become its old ones with the annotation's config maps added by mount path. |
| ConfigMapProcessor.ProcessConfigMapsAdds | knative-extension/src/main/java/org/ballerinax/knative/processors/KnativeConfigMapAnnotationProcessor.java:84-158 | After a successful read, every item of every `configMaps` list reads as a named config map. When it has data, a config map with its mount path is then in the holder. So is one with the mount path of every `conf` file's config map. |
| ConfigMapProcessor.ProcessConfigMapsOnly | knative-extension/src/main/java/org/ballerinax/knative/processors/KnativeConfigMapAnnotationProcessor.java:142-158 | After a successful read, every config map in the holder was there before, or is one with data that some `configMaps` item or `conf` field reads as. |
| ConfigMapProcessor.ProcessConfigMapsAsWritten | knative-extension/src/main/java/org/ballerinax/knative/processors/KnativeConfigMapAnnotationProcessor.java:79-159 | As written, a failure also leaves the holder unchanged. |
| ConfigMapProcessor.LabelsReadFromList | knative-extension/src/main/java/org/ballerinax/knative/processors/KnativeConfigMapAnnotationProcessor.java:101-106 | As written, a config map with `labels` fails, because the `configMaps` list is read as the map. Read from the entry, the labels are accepted. |
| ConfigMapProcessor.ProcessServiceConfigMaps | knative-extension/src/main/java/org/ballerinax/knative/processors/KnativeConfigMapAnnotationProcessor.java:62-66 | A service's config maps are processed under the service's name. |
| ConfigMapProcessor.ProcessFunctionConfigMaps | knative-extension/src/main/java/org/ballerinax/knative/processors/KnativeConfigMapAnnotationProcessor.java:68-77 | Only `main` may carry the annotation. Any other function is refused with the holder unchanged. |
| ServiceHandler.PopulatePorts | knative-extension/src/main/java/org/ballerinax/knative/handlers/KnativeServiceHandler.java:63-73 | One TCP container port per service port, in order. |
| ServiceHandler.PopulateVolumeMounts | knative-extension/src/main/java/org/ballerinax/knative/handlers/KnativeServiceHandler.java:75-94 | The secrets' mounts come first, then the config maps'. Each carries the mount path, read-only flag and `-volume` name of its model. |
| ServiceHandler.PopulateVolumes | knative-extension/src/main/java/org/ballerinax/knative/handlers/KnativeServiceHandler.java:130-151 | A secret volume per secret, then a config-map volume per config map, in order. |
| ServiceHandler.MountsMatchVolumes | knative-extension/src/main/java/org/ballerinax/knative/handlers/KnativeServiceHandler.java:75-151 | Mounts and volumes pair up by position. Each mount names its volume, and that volume refers to the model the mount was made for. |
| ServiceHandler.InitContainers | knative-extension/src/main/java/org/ballerinax/knative/handlers/KnativeServiceHandler.java:96-111 | One busybox `wait-for-<service>` container per `dependsOn` alias, in order. Each runs the nslookup loop for the alias's service, or "null". |
| ServiceHandler.ContainerImage | knative-extension/src/main/java/org/ballerinax/knative/handlers/KnativeServiceHandler.java:114-118 | A non-empty registry prefixes the image with `/`. Otherwise the image is used as is. |
| ServiceHandler.GenerateProbe | knative-extension/src/main/java/org/ballerinax/knative/handlers/KnativeServiceHandler.java:153-165 | No model gives no probe. Otherwise the probe is a TCP probe on the model's port with its delays. |
| ServiceHandler.GenerateContainer | knative-extension/src/main/java/org/ballerinax/knative/handlers/KnativeServiceHandler.java:113-128 | The container is named after the service and uses the registry-prefixed image. Its ports, volume mounts and environment are the ones built from the model. Its liveness and readiness probes are the ones generated from the model's. |
| ServiceHandler.Generate | knative-extension/src/main/java/org/ballerinax/knative/handlers/KnativeServiceHandler.java:173-197 | The descriptor carries the service's name, labels and annotations, the holder's namespace, and the concurrency and timeout. Its one container is the generated container. It has one init container per dependency, built by `InitContainers`, and a volume per secret and config map, built by `PopulateVolumes`. |
| ServiceHandler.DefaultProbePort | knative-extension/src/main/java/org/ballerinax/knative/handlers/KnativeServiceHandler.java:215-223 | A probe on port 0 takes the first service port. Without ports it throws NoSuchElement. Other probes are unchanged. |
| ServiceHandler.SplitImage | knative-extension/src/main/java/org/ballerinax/knative/handlers/KnativeServiceHandler.java:240-245 | The image splits at its last colon into name and tag, which rejoin to the image. Without a colon the tag is `latest`. |
| ServiceHandler.WithDefaultProbes | knative-extension/src/main/java/org/ballerinax/knative/handlers/KnativeServiceHandler.java:215-223 | Both probes have their ports defaulted. Nothing else changes, and a failure is NoSuchElement. |
| ServiceHandler.CreateArtifacts | knative-extension/src/main/java/org/ballerinax/knative/handlers/KnativeServiceHandler.java:209-231 | No service model is a NullPointerException, and so is a missing image. Otherwise the descriptor is the one generated from the service model with its probes' ports defaulted and the holder's secrets and config maps attached, in the holder's namespace. It has a volume per holder secret and config map, and probes on their defaulted ports. The image name is split into name and tag. |
| Plugin.Dispatch | knative-extension/src/main/java/org/ballerinax/knative/KnativePlugin.java:102-144 | Each of the seven annotation and node-kind pairs goes to its processor's overload: the service processor on a service, function or variable, and the secret and config-map processors on a service or function. The secret and config-map processors do nothing on a variable. |
| Plugin.Logged | knative-extension/src/main/java/org/ballerinax/knative/KnativePlugin.java:109-111 | A caught failure adds its message as a diagnostic and changes nothing else. |
| Plugin.ProcessAnnotations | knative-extension/src/main/java/org/ballerinax/knative/KnativePlugin.java:102-113 | There is at most one diagnostic per annotation. An escaping exception is never a plugin error. An unknown annotation name escapes at once with `canProcess` set. Otherwise the annotation is dispatched. Success goes on with the rest. A plugin error is logged as the first diagnostic ahead of the rest's diagnostics, with the rest's holder and outcome. Any other failure ends processing with the holder as the dispatch left it. |
| Plugin.ProcessVariableNode | knative-extension/src/main/java/org/ballerinax/knative/KnativePlugin.java:115-131 | A non-listener variable gets one diagnostic and no processing. A listener's annotations are processed. |
| Plugin.NonListenerUntouched | knative-extension/src/main/java/org/ballerinax/knative/KnativePlugin.java:117-121 | Refusing a non-listener changes no part of the holder, not even `canProcess`. |
| Plugin.FirstStop | knative-extension/src/main/java/org/ballerinax/knative/KnativePlugin.java:217-228 | The alias loop runs up to the first alias that names no deployment or the service's own. Every alias before that names another deployment. |
| Plugin.Deployments | knative-extension/src/main/java/org/ballerinax/knative/KnativePlugin.java:222-223 | When every alias names another deployment, the dependencies are those deployments in alias order. |
| Plugin.Resolve | knative-extension/src/main/java/org/ballerinax/knative/KnativePlugin.java:216-228 | Resolution succeeds exactly when every alias names another deployment. It stops quietly exactly at a first alias without a deployment. It is a cycle exactly at a first alias naming the service's own deployment. |
| Plugin.ResolveStopsAt | knative-extension/src/main/java/org/ballerinax/knative/KnativePlugin.java:217-228 | Only the first stopping alias has all aliases before it resolved. |
| Plugin.ValidateHolders | knative-extension/src/main/java/org/ballerinax/knative/KnativePlugin.java:203-234 | A holder with no service name, or an unknown alias, ends validation successfully. A self-reference or a refused dependency list is "contains cyclic dependencies". |
| Plugin.ValidationPassesEveryHolder | knative-extension/src/main/java/org/ballerinax/knative/KnativePlugin.java:207-233 | When every service resolves and its list is valid, validation passes. Each list is the service's name followed by its dependencies in alias order. |
| Plugin.ValidateDeploymentDependencies | knative-extension/src/main/java/org/ballerinax/knative/KnativePlugin.java:203-234 | The loops with their early returns compute exactly the reference validation. |
| Plugin.CollectDependencies | knative-extension/src/main/java/org/ballerinax/knative/KnativePlugin.java:209-228 | The inner loop resolves the aliases. On success it has collected the service's name followed by the dependencies. |
| Plugin.RunStages | knative-extension/src/main/java/org/ballerinax/knative/KnativePlugin.java:181-195 | Steps run in order up to the first failure. The stages that ran are a prefix, and the failure reported is the last stage's. |
| Plugin.FourStages | knative-extension/src/main/java/org/ballerinax/knative/KnativePlugin.java:181-185 | The run succeeds exactly when all four steps do. The last stage runs only after the three before it, in order. |
| Plugin.Generate | knative-extension/src/main/java/org/ballerinax/knative/KnativePlugin.java:180-195 | Artifacts are generated exactly when all four steps succeed. A plugin error ends with the clean-up. Any other exception escapes without it. |
| Plugin.CodeGenerated | knative-extension/src/main/java/org/ballerinax/knative/KnativePlugin.java:146-201 | Nothing runs without `canProcess`, and a missing executable only reports the location error. Artifacts are created only after cleaning, populating and a passing validation, in that order. |

## Left out

- File I/O: `readFileContent` is a lookup in the `Files` map. `writeToFile`, `deleteDirectory`, the YAML serialisation and the printing helpers are not modelled. Their outcomes are the `clean`, `populate` and `create` parameters of `Plugin.CodeGenerated`.
- `KnativeArtifactManager`, `KnativeDockerHandler`, `KnativeContainerHandler` and docker image building are not part of this model. Only the image name/tag split of `getDockerModel` is.
- The fabric8 and knative-serving builders: the descriptor is a plain datatype with the fields the handler sets.
- `DependencyValidator` is not part of this model; it is the `valid` parameter. The iteration order of the package-to-holder map is the order of the `holders` sequence.
- `KnativeContext`'s two alias look-ups (listener to deployment, alias to service name) are input maps.
- The abstract base processor's variable overload, which the secret and config-map processors inherit, is not part of this model. It is taken to do nothing.
- `process(PackageNode)`, `setCompilerContext` and `init`: compiler wiring with no configuration logic.
- `codeGenerated`'s computation of output paths (`Ballerina.toml`, `target/kubernetes`, module jar) is not modelled; only the order of its steps is.
- The pod autoscaler model that `createArtifacts` copies is not modelled; the holder has none.
- Expression text: `Ast.Render` stands for the compiler's `toString` of an expression. It is exact for literals only.
- `HashMap` and `HashSet` iteration order is not modelled. Every map and set keeps insertion order.
- Secret and config-map content: UTF-8 decoding of config-map files is not modelled, so content stays bytes. Secret data are held as their Base64 text.
- `Text.ToLowerAscii`, `Text.ToLowerString`: only ASCII letters are lower-cased. `toLowerCase(Locale.getDefault())` depends on the locale.
- `Text.Trim`: its own contract states only that the result is no longer than the input. The full characterisation is `Text.TrimKeepsVisibleCore`.
- `EnvResolve.ResolveValue`: its own contract states only the failure kind. What it computes is stated by the lemmas listed with it.
- `Base64.Encode`: its own contract states only a lower bound on the length. The round trip, exact length and alphabet are separate lemmas.
- Relative secret data paths are resolved against the working directory, which is not an input. The model looks them up as given.
- Unseen model classes (`ServiceModel`, `SecretModel`, `ProbeModel`, `PodTolerationModel`, `EnvVarValueModel`, `CopyFileModel`, `KnativeDataHolder`) are not part of this model's sources. Their fields are the setters the processors call. A setting whose initial value cannot be seen starts as `None`, except that a service's ports, `dependsOn`, secrets and config maps start empty, its port at 8080, a probe's port at 0, and a secret's `readOnly` flag clear. Secrets, like config maps, are identified in a set by their mount path.
- `Identity.StringHash`: it hashes the Unicode scalar values of a Dafny string, while `String.hashCode` hashes UTF-16 code units. The two agree on strings without characters beyond the Basic Multilingual Plane.
- `ServiceHandler.GenerateContainer`, `ServiceHandler.Generate`, `ServiceHandler.CreateArtifacts`: they build environment variables with the corrected `Utils.PopulateEnvVar`, which leaves out null entries. The code as written throws a NullPointerException on them (see Findings), and these members do not promise that.
- `Plugin.Dispatch`: it routes to the corrected secret and config-map processors, which read an entry's labels from the entry itself. The code as written reads them from the whole list and fails (see Findings); `ProcessSecretsAsWritten` and `ProcessConfigMapsAsWritten` model that.
- `SecretProcessor.SecretDataDecodable`, `SecretProcessor.ProcessSecretsAdds`: they state only that every value decodes. What each value decodes to is stated by `SecretProcessor.SecretDataFilesLastWins`.
- `DockerGenConstants.REGISTRY_SEPARATOR` is not part of this model's sources. It is taken to be `/`.
- Unknown keys: the code ignores unknown annotation keys only at the top level of the config-map annotation. Unknown keys of the service annotation and of secret and config-map entries throw an `IllegalArgumentException` from `valueOf`, which the plugin does not catch. The model follows the code.
- Environment variables with an unrecognised source: the code stores null and then throws (see Findings). The corrected member drops them.
- `Text.ParseInt`: it accepts only the ASCII digits 0-9. Java's `Integer.parseInt` also accepts any other Unicode decimal digit, such as the Arabic-Indic digits of "٨٠٨٠"; those inputs are refused here and parsed by the source.

## Findings

| source | as written | input that shows it | evidently intended | confidence | as-written member | corrected member |
|---|---|---|---|---|---|---|
| knative-extension/src/main/java/org/ballerinax/knative/utils/KnativeUtils.java:435-487 | `getEnvVarMap` stores null for an env entry given by a constant, or by an unknown `valueFrom` key. `populateEnvVar` then calls `v.getValue()` on it and throws a NullPointerException that escapes the plugin. | `env: {X: C}` with `C` a constant | such entries are skipped | not executed | Utils.PopulateEnvVarAsWritten | Utils.PopulateEnvVar |
| knative-extension/src/main/java/org/ballerinax/knative/processors/KnativeConfigMapAnnotationProcessor.java:101-106 | `labels` and `annotations` of a config-map entry are read with `getMap(keyValue.getValue())`. That is the whole `configMaps` list, not the entry's field, so every entry with labels fails with "unable to parse value". | `configMaps: [{labels: {app: "web"}}]` | `getMap(annotation.getValue())` | not executed | ConfigMapProcessor.ProcessConfigMapsAsWritten | ConfigMapProcessor.ProcessConfigMaps |
| knative-extension/src/main/java/org/ballerinax/knative/processors/KnativeSecretAnnotationProcesser.java:91-96 | The same for secrets: labels and annotations are read from the list instead of the entry's field. | `secrets: [{labels: {app: "web"}}]` | `getMap(annotation.getValue())` | not executed | SecretProcessor.ProcessSecretsAsWritten | SecretProcessor.ProcessSecrets |

Each finding also has a lemma that shows the discrepancy on its input:

- `Utils.ConstantEnvVarThrows`
- `ConfigMapProcessor.LabelsReadFromList`
- `SecretProcessor.LabelsReadFromList`
