/** `KnativeConfigMapAnnotationProcessor`: the `@knative:ConfigMap` annotation adds
    config maps, built from files, to the module's holder. */
module ConfigMapProcessor {
  import opened Wrappers
  import opened Text
  import opened EnvResolve
  import opened Collections
  import opened Paths
  import opened Ast
  import opened Models

  const ConfigMapEnum: string := "org.ballerinax.knative.processors.KnativeConfigMapAnnotationProcessor.ConfigMapMountConfig"

  /** The entry fields `ConfigMapMountConfig` declares. */
  const MountKeys: set<string> := {"name", "labels", "annotations", "mountPath", "readOnly", "data"}

  const BallerinaHome: string := "/home/ballerina"
  const BallerinaRuntime: string := "/ballerina/runtime"
  const BallerinaConfMountPath: string := "/home/ballerina/conf/"
  const BallerinaConfFileName: string := "ballerina.conf"
  const ConfigMapPostfix: string := "-config-map"
  const MainFunction: string := "main"
  const NonMainFunction: string := "@kubernetes:ConfigMap{} annotation cannot be attached to a non main function."

  /** The three paths a config map may not be mounted at, as `Paths.get` reads them. */
  const HomePath: Path := Path(true, ["home", "ballerina"])
  const RuntimePath: Path := Path(true, ["ballerina", "runtime"])
  const ConfPath: Path := Path(true, ["home", "ballerina", "conf"])

  /** The path constants are what `Paths.get` makes of the three directory names. */
  lemma HomePathParses()
    ensures Parse(BallerinaHome) == Ok(HomePath)
  {
    ReservedPathsShow(HomePath);
    assert Join(HomePath.names) == "home" + "/" + Join(["ballerina"]);
    assert Show(HomePath) == BallerinaHome;
  }

  lemma RuntimePathParses()
    ensures Parse(BallerinaRuntime) == Ok(RuntimePath)
  {
    ReservedPathsShow(RuntimePath);
    assert Join(RuntimePath.names) == "ballerina" + "/" + Join(["runtime"]);
    assert Show(RuntimePath) == BallerinaRuntime;
  }

  lemma ConfPathParses()
    ensures Parse(BallerinaConfMountPath) == Ok(ConfPath)
  {
    var s := Show(ConfPath);
    ReservedPathsShow(ConfPath);
    ConfPathText();
    assert Parse(s).Ok?;
    ParseTrailingSlash(s);
  }

  lemma ConfPathText()
    ensures Show(ConfPath) + "/" == BallerinaConfMountPath
  {
    assert Join(["ballerina", "conf"]) == "ballerina" + "/" + Join(["conf"]);
    assert Join(ConfPath.names) == "home" + "/" + Join(["ballerina", "conf"]);
  }

  /** Each reserved path reads back from the string it shows as. */
  lemma ReservedPathsShow(p: Path)
    requires p in {HomePath, RuntimePath, ConfPath}
    ensures Parse(Show(p)) == Ok(p)
  {
    assert IsName("home") && IsName("ballerina") && IsName("runtime") && IsName("conf");
    ParseShow(p);
  }

  /** The mount-path check: a mount path naming ballerina home, the runtime or the
      conf directory is refused, compared as paths and not as strings. */
  function CheckMountPath(s: string): (r: Result<()>)
    ensures r.Ok? <==> Parse(s).Ok? && Parse(s).value != HomePath && Parse(s).value != RuntimePath && Parse(s).value != ConfPath
    ensures Parse(s) == Ok(HomePath) ==>
      r == PluginFailure("@kubernetes:ConfigMap{} mount path cannot be ballerina home: " + BallerinaHome)
    ensures Parse(s) == Ok(RuntimePath) ==>
      r == PluginFailure("@kubernetes:ConfigMap{} mount path cannot be ballerina runtime: " + BallerinaRuntime)
    ensures Parse(s) == Ok(ConfPath) ==>
      r == PluginFailure("@kubernetes:ConfigMap{} mount path cannot be ballerina conf file mount path: " + BallerinaConfMountPath)
  {
    var p :- Parse(s);
    if p == HomePath then
      PluginFailure("@kubernetes:ConfigMap{} mount path cannot be ballerina home: " + BallerinaHome)
    else if p == RuntimePath then
      PluginFailure("@kubernetes:ConfigMap{} mount path cannot be ballerina runtime: " + BallerinaRuntime)
    else if p == ConfPath then
      PluginFailure("@kubernetes:ConfigMap{} mount path cannot be ballerina conf file mount path: " + BallerinaConfMountPath)
    else Ok(())
  }

  /** Spelling the home directory with a trailing slash does not get past the check. */
  lemma HomeWithSlashRefused()
    ensures CheckMountPath(BallerinaHome + "/").Err?
  {
    HomePathParses();
    ParseTrailingSlash(BallerinaHome);
  }

  /** Where a data file is read from: a relative path is taken against the source root. */
  function DataPath(root: Path, p: Path): (r: Path)
    ensures p.absolute ==> r == p
    ensures !p.absolute ==> r == Resolve(root, p)
  {
    if p.absolute then p else Resolve(root, p)
  }

  /** One data file of an entry: a literal path, keyed by its file name. */
  function DataFile(root: Path, item: Value, files: Files): (r: Result<(string, Bytes)>)
    ensures !item.Lit? ==> r.Err? && r.error.kind == ClassCast
    ensures item.Lit? ==> (r.Ok? <==> Parse(item.text).Ok? && DataPath(root, Parse(item.text).value) in files)
    ensures r.Ok? ==> var q := DataPath(root, Parse(item.text).value);
      r.value == (JavaString(FileName(q)), files[q])
  {
    if !item.Lit? then ClassCastError("BLangLiteral")
    else
      var p :- Parse(item.text);
      var q := DataPath(root, p);
      var content :- ReadFile(files, q);
      Ok((JavaString(FileName(q)), content))
  }

  /** Each listed file as its (file name, content) pair, in order, or the first
      failure. */
  function DataEntries(root: Path, items: seq<Value>, files: Files): (r: Result<seq<(string, Bytes)>>)
    ensures r.Ok? <==> forall i :: 0 <= i < |items| ==> DataFile(root, items[i], files).Ok?
    ensures r.Ok? ==> |r.value| == |items| && forall i :: 0 <= i < |items| ==> DataFile(root, items[i], files) == Ok(r.value[i])
    decreases |items|
  {
    if |items| == 0 then Ok([])
    else
      assert forall i :: 1 <= i < |items| ==> items[1..][i - 1] == items[i];
      var kv :- DataFile(root, items[0], files);
      var rest :- DataEntries(root, items[1..], files);
      Ok([kv] + rest)
  }

  /** `getDataForConfigMap`: every listed file is put into the map under its file
      name, in order, so of two files with one name the later one wins. */
  function DataFiles(root: Path, items: seq<Value>, files: Files, acc: OrderedMap<Bytes>): (r: Result<OrderedMap<Bytes>>)
    requires UniqueKeys(acc)
    ensures r.Ok? ==> UniqueKeys(r.value)
    ensures r.Ok? && |items| > 0 ==> |r.value| > 0
    ensures r.Ok? <==> DataEntries(root, items, files).Ok?
    ensures r.Ok? ==> r.value == PutAll(acc, DataEntries(root, items, files).value)
    decreases |items|
  {
    if |items| == 0 then Ok(acc)
    else
      var kv :- DataFile(root, items[0], files);
      var r := DataFiles(root, items[1..], files, Put(acc, kv.0, kv.1));
      assert r.Ok? ==> var es := [kv] + DataEntries(root, items[1..], files).value; es[0] == kv && es[1..] == DataEntries(root, items[1..], files).value;
      r
  }

  /** A key of the data map is the file name of the last listed file with that name,
      and holds that file's content; a name no listed file has is absent. */
  lemma DataFilesLastWins(root: Path, items: seq<Value>, files: Files, k: string)
    requires DataFiles(root, items, files, []).Ok?
    ensures DataEntries(root, items, files).Ok?
    ensures var d, i := DataFiles(root, items, files, []).value, LastKeyIndex(DataEntries(root, items, files).value, k);
      && (i < 0 ==> Get(d, k).None? && forall j :: 0 <= j < |items| ==> DataFile(root, items[j], files).value.0 != k)
      && (i >= 0 ==> items[i].Lit? && var q := DataPath(root, Parse(items[i].text).value);
        && JavaString(FileName(q)) == k && Get(d, k) == Some(files[q])
        && forall j :: i < j < |items| ==> DataFile(root, items[j], files).value.0 != k)
  {
    var es := DataEntries(root, items, files).value;
    var empty: OrderedMap<Bytes> := [];
    PutAllLastWins(empty, es, k);
  }

  /** The data are read exactly when every listed file is. */
  lemma {:induction false} DataFilesRead(root: Path, items: seq<Value>, files: Files, acc: OrderedMap<Bytes>)
    requires UniqueKeys(acc)
    ensures DataFiles(root, items, files, acc).Ok? <==> forall i :: 0 <= i < |items| ==> DataFile(root, items[i], files).Ok?
    decreases |items|
  {
    if |items| > 0 {
      var d := DataFile(root, items[0], files);
      if d.Ok? {
        var rest := items[1..];
        var acc' := Put(acc, d.value.0, d.value.1);
        assert DataFiles(root, items, files, acc) == DataFiles(root, rest, files, acc');
        DataFilesRead(root, rest, files, acc');
        EachShifted(root, items, files);
      } else {
        assert !DataFiles(root, items, files, acc).Ok?;
      }
    }
  }

  /** Every item of a non-empty list is read exactly when the first one and every
      one of the rest are. */
  lemma EachShifted(root: Path, items: seq<Value>, files: Files)
    requires |items| > 0
    ensures (forall i :: 0 <= i < |items| ==> DataFile(root, items[i], files).Ok?) <==>
      DataFile(root, items[0], files).Ok? && forall i :: 0 <= i < |items[1..]| ==> DataFile(root, items[1..][i], files).Ok?
  {
    var rest := items[1..];
    if forall i :: 0 <= i < |items| ==> DataFile(root, items[i], files).Ok? {
      forall i | 0 <= i < |rest| ensures DataFile(root, rest[i], files).Ok? {
        assert rest[i] == items[i + 1];
      }
    }
    if DataFile(root, items[0], files).Ok? && forall i :: 0 <= i < |rest| ==> DataFile(root, rest[i], files).Ok? {
      forall i | 0 <= i < |items| ensures DataFile(root, items[i], files).Ok? {
        if i > 0 {
          assert items[i] == rest[i - 1];
        }
      }
    }
  }

  /** One entry field. `labels` and `annotations` are read by `getMap` from
      `labelSource`: the source passes the whole `configMaps` list there, where the
      entry's own value was evidently meant. */
  function ConfigMapField(m: ConfigMapModel, f: Field, labelSource: Value, root: Path, files: Files, env: Env): (r: Result<ConfigMapModel>)
    ensures f.key !in MountKeys ==> r == NoEnumConstant(ConfigMapEnum, f.key)
    ensures (f.key == "labels" || f.key == "annotations") && !labelSource.Record? ==> r == UnableToParse(labelSource)
    ensures f.key == "labels" ==> (r.Ok? <==> GetMap(labelSource, env).Ok?)
    ensures f.key == "labels" && r.Ok? ==> r.value.labels == Some(GetMap(labelSource, env).value)
    ensures f.key == "annotations" ==> (r.Ok? <==> GetMap(labelSource, env).Ok?)
    ensures f.key == "annotations" && r.Ok? ==> r.value.annotations == Some(GetMap(labelSource, env).value)
    ensures f.key == "name" ==> (r.Ok? <==> GetStringValue(f.value, env).Ok?)
    ensures f.key == "name" && r.Ok? ==> r.value.name == Some(ValidName(GetStringValue(f.value, env).value))
    ensures f.key == "mountPath" ==>
      (r.Ok? <==> GetStringValue(f.value, env).Ok? && CheckMountPath(GetStringValue(f.value, env).value).Ok?)
    ensures f.key == "readOnly" ==> (r.Ok? <==> GetBooleanValue(f.value, env).Ok?)
    ensures f.key == "readOnly" && r.Ok? ==> r.value.readOnly == GetBooleanValue(f.value, env).value
    ensures f.key == "data" ==> (r.Ok? <==> f.value.List? && DataFiles(root, f.value.items, files, []).Ok?)
    ensures f.key == "data" && r.Ok? ==> r.value.data == Some(DataFiles(root, f.value.items, files, []).value)
    ensures r.Ok? ==> r.value == m.(name := r.value.name, labels := r.value.labels, annotations := r.value.annotations,
      mountPath := r.value.mountPath, readOnly := r.value.readOnly, data := r.value.data)
    ensures r.Ok? && f.key != "data" ==> r.value.data == m.data
    ensures r.Ok? && f.key != "readOnly" ==> r.value.readOnly == m.readOnly
    ensures r.Ok? && f.key != "mountPath" ==> r.value.mountPath == m.mountPath
    ensures r.Ok? && f.key == "mountPath" ==> r.value.mountPath == Some(GetStringValue(f.value, env).value)
    ensures r.Ok? && f.key != "name" ==> r.value.name == m.name
    ensures r.Ok? && f.key != "labels" ==> r.value.labels == m.labels
    ensures r.Ok? && f.key != "annotations" ==> r.value.annotations == m.annotations
  {
    match f.key
    case "name" =>
      var s :- GetStringValue(f.value, env);
      Ok(m.(name := Some(ValidName(s))))
    case "labels" =>
      var x :- GetMap(labelSource, env);
      Ok(m.(labels := Some(x)))
    case "annotations" =>
      var x :- GetMap(labelSource, env);
      Ok(m.(annotations := Some(x)))
    case "mountPath" =>
      var s :- GetStringValue(f.value, env);
      var _ :- CheckMountPath(s);
      Ok(m.(mountPath := Some(s)))
    case "data" =>
      var items :- ListItems(f.value);
      var empty: OrderedMap<Bytes> := [];
      assert UniqueKeys(empty);
      var d :- DataFiles(root, items, files, empty);
      Ok(m.(data := Some(d)))
    case "readOnly" =>
      var b :- GetBooleanValue(f.value, env);
      Ok(m.(readOnly := b))
    case _ => NoEnumConstant(ConfigMapEnum, f.key)
  }

  /** Where an entry's labels are read from: the entry field's own value, or, as the
      source has it, the `configMaps` list. */
  function LabelSource(asWritten: bool, f: Field, outer: Value): Value {
    if asWritten then outer else f.value
  }

  function ConfigMapFields(m: ConfigMapModel, fields: seq<Field>, outer: Value, asWritten: bool, root: Path, files: Files, env: Env): (r: Result<ConfigMapModel>)
    ensures r.Ok? ==> forall i :: 0 <= i < |fields| ==> fields[i].key in MountKeys
    ensures r.Ok? && (forall i :: 0 <= i < |fields| ==> fields[i].key != "data") ==> r.value.data == m.data
    ensures r.Ok? && (forall i :: 0 <= i < |fields| ==> fields[i].key != "readOnly") ==> r.value.readOnly == m.readOnly
    decreases |fields|
  {
    if |fields| == 0 then Ok(m)
    else
      var m' :- ConfigMapField(m, fields[0], LabelSource(asWritten, fields[0], outer), root, files, env);
      var r :- ConfigMapFields(m', fields[1..], outer, asWritten, root, files, env);
      assert forall i :: 1 <= i < |fields| ==> fields[i] == fields[1..][i - 1];
      Ok(r)
  }

  /** A config map with a blank name is named after the annotated node. */
  function DefaultConfigMapName(c: ConfigMapModel, nodeName: string): (r: ConfigMapModel)
    ensures !IsBlank(r.name)
    ensures r == c.(name := r.name)
    ensures !IsBlank(c.name) ==> r == c
    ensures IsBlank(c.name) ==> r == c.(name := Some(ValidName(nodeName) + ConfigMapPostfix))
  {
    if IsBlank(c.name) then
      var n := ValidName(nodeName) + ConfigMapPostfix;
      assert n[|n| - 1] == 'p' && !IsWhitespace(n[|n| - 1]);
      c.(name := Some(n))
    else c
  }

  /** The last `name` field gives the valid name; without one the name stays as it was. */
  lemma {:induction false} ConfigMapFieldsName(m: ConfigMapModel, fields: seq<Field>, outer: Value, asWritten: bool, root: Path, files: Files, env: Env)
    requires ConfigMapFields(m, fields, outer, asWritten, root, files, env).Ok?
    ensures var i := LastFieldIndex(fields, "name"); i >= 0 ==> GetStringValue(fields[i].value, env).Ok?
    ensures var c, i := ConfigMapFields(m, fields, outer, asWritten, root, files, env).value, LastFieldIndex(fields, "name");
      c.name == if i < 0 then m.name else Some(ValidName(GetStringValue(fields[i].value, env).value))
    decreases |fields|
  {
    if |fields| > 0 {
      var m' := ConfigMapField(m, fields[0], LabelSource(asWritten, fields[0], outer), root, files, env).value;
      assert ConfigMapFields(m, fields, outer, asWritten, root, files, env) == ConfigMapFields(m', fields[1..], outer, asWritten, root, files, env);
      ConfigMapFieldsName(m', fields[1..], outer, asWritten, root, files, env);
      LastFieldIndexTail(fields, "name");
      var t0 := LastFieldIndex(fields[1..], "name");
      if t0 >= 0 {
        assert fields[t0 + 1] == fields[1..][t0];
      }
    }
  }

  /** The last `mountPath` field gives the mount path, which passed the reserved-path check. */
  lemma {:induction false} ConfigMapFieldsMountPath(m: ConfigMapModel, fields: seq<Field>, outer: Value, asWritten: bool, root: Path, files: Files, env: Env)
    requires ConfigMapFields(m, fields, outer, asWritten, root, files, env).Ok?
    ensures var i := LastFieldIndex(fields, "mountPath");
      i >= 0 ==> GetStringValue(fields[i].value, env).Ok? && CheckMountPath(GetStringValue(fields[i].value, env).value).Ok?
    ensures var c, i := ConfigMapFields(m, fields, outer, asWritten, root, files, env).value, LastFieldIndex(fields, "mountPath");
      c.mountPath == if i < 0 then m.mountPath else Some(GetStringValue(fields[i].value, env).value)
    decreases |fields|
  {
    if |fields| > 0 {
      var m' := ConfigMapField(m, fields[0], LabelSource(asWritten, fields[0], outer), root, files, env).value;
      assert ConfigMapFields(m, fields, outer, asWritten, root, files, env) == ConfigMapFields(m', fields[1..], outer, asWritten, root, files, env);
      ConfigMapFieldsMountPath(m', fields[1..], outer, asWritten, root, files, env);
      LastFieldIndexTail(fields, "mountPath");
      var t0 := LastFieldIndex(fields[1..], "mountPath");
      if t0 >= 0 {
        assert fields[t0 + 1] == fields[1..][t0];
      }
    }
  }

  /** The last `readOnly` field gives the flag. */
  lemma {:induction false} ConfigMapFieldsReadOnly(m: ConfigMapModel, fields: seq<Field>, outer: Value, asWritten: bool, root: Path, files: Files, env: Env)
    requires ConfigMapFields(m, fields, outer, asWritten, root, files, env).Ok?
    ensures var i := LastFieldIndex(fields, "readOnly"); i >= 0 ==> GetBooleanValue(fields[i].value, env).Ok?
    ensures var c, i := ConfigMapFields(m, fields, outer, asWritten, root, files, env).value, LastFieldIndex(fields, "readOnly");
      c.readOnly == if i < 0 then m.readOnly else GetBooleanValue(fields[i].value, env).value
    decreases |fields|
  {
    if |fields| > 0 {
      var m' := ConfigMapField(m, fields[0], LabelSource(asWritten, fields[0], outer), root, files, env).value;
      assert ConfigMapFields(m, fields, outer, asWritten, root, files, env) == ConfigMapFields(m', fields[1..], outer, asWritten, root, files, env);
      ConfigMapFieldsReadOnly(m', fields[1..], outer, asWritten, root, files, env);
      LastFieldIndexTail(fields, "readOnly");
      var t0 := LastFieldIndex(fields[1..], "readOnly");
      if t0 >= 0 {
        assert fields[t0 + 1] == fields[1..][t0];
      }
    }
  }

  /** The last `data` field gives the data map of its listed files. */
  lemma {:induction false} ConfigMapFieldsData(m: ConfigMapModel, fields: seq<Field>, outer: Value, asWritten: bool, root: Path, files: Files, env: Env)
    requires ConfigMapFields(m, fields, outer, asWritten, root, files, env).Ok?
    ensures var i := LastFieldIndex(fields, "data");
      i >= 0 ==> fields[i].value.List? && DataFiles(root, fields[i].value.items, files, []).Ok?
    ensures var c, i := ConfigMapFields(m, fields, outer, asWritten, root, files, env).value, LastFieldIndex(fields, "data");
      c.data == if i < 0 then m.data else Some(DataFiles(root, fields[i].value.items, files, []).value)
    decreases |fields|
  {
    if |fields| > 0 {
      var m' := ConfigMapField(m, fields[0], LabelSource(asWritten, fields[0], outer), root, files, env).value;
      assert ConfigMapFields(m, fields, outer, asWritten, root, files, env) == ConfigMapFields(m', fields[1..], outer, asWritten, root, files, env);
      ConfigMapFieldsData(m', fields[1..], outer, asWritten, root, files, env);
      LastFieldIndexTail(fields, "data");
      var t0 := LastFieldIndex(fields[1..], "data");
      if t0 >= 0 {
        assert fields[t0 + 1] == fields[1..][t0];
      } else if fields[0].key == "data" {
        assert m'.data == Some(DataFiles(root, fields[0].value.items, files, []).value);
      } else {
        assert m'.data == m.data;
      }
    }
  }

  /** The last `labels` and `annotations` fields give the maps read from their label sources. */
  lemma {:induction false} ConfigMapFieldsLabels(m: ConfigMapModel, fields: seq<Field>, outer: Value, asWritten: bool, root: Path, files: Files, env: Env)
    requires ConfigMapFields(m, fields, outer, asWritten, root, files, env).Ok?
    ensures var i := LastFieldIndex(fields, "labels"); i >= 0 ==> GetMap(LabelSource(asWritten, fields[i], outer), env).Ok?
    ensures var i := LastFieldIndex(fields, "annotations"); i >= 0 ==> GetMap(LabelSource(asWritten, fields[i], outer), env).Ok?
    ensures var c, i := ConfigMapFields(m, fields, outer, asWritten, root, files, env).value, LastFieldIndex(fields, "labels");
      c.labels == if i < 0 then m.labels else Some(GetMap(LabelSource(asWritten, fields[i], outer), env).value)
    ensures var c, i := ConfigMapFields(m, fields, outer, asWritten, root, files, env).value, LastFieldIndex(fields, "annotations");
      c.annotations == if i < 0 then m.annotations else Some(GetMap(LabelSource(asWritten, fields[i], outer), env).value)
    decreases |fields|
  {
    if |fields| > 0 {
      var m' := ConfigMapField(m, fields[0], LabelSource(asWritten, fields[0], outer), root, files, env).value;
      assert ConfigMapFields(m, fields, outer, asWritten, root, files, env) == ConfigMapFields(m', fields[1..], outer, asWritten, root, files, env);
      ConfigMapFieldsLabels(m', fields[1..], outer, asWritten, root, files, env);
      LastFieldIndexTail(fields, "labels");
      LastFieldIndexTail(fields, "annotations");
      var t0 := LastFieldIndex(fields[1..], "labels");
      if t0 >= 0 {
        assert fields[t0 + 1] == fields[1..][t0];
      }
      var t1 := LastFieldIndex(fields[1..], "annotations");
      if t1 >= 0 {
        assert fields[t1 + 1] == fields[1..][t1];
      }
    }
  }

  /** `c` holds what an entry's `fields` give: each slot comes from the last field
      with its key; without a `name` field, or with a blank one, the name is the
      node's, and without a `readOnly` field the flag is set. */
  ghost predicate EntryMatches(c: ConfigMapModel, nodeName: string, fields: seq<Field>, outer: Value, asWritten: bool, root: Path, files: Files, env: Env) {
    && (var n := LastFieldIndex(fields, "name");
      && (n >= 0 ==> GetStringValue(fields[n].value, env).Ok?)
      && (n >= 0 && !IsBlank(Some(ValidName(GetStringValue(fields[n].value, env).value))) ==>
        c.name == Some(ValidName(GetStringValue(fields[n].value, env).value)))
      && (n < 0 || IsBlank(Some(ValidName(GetStringValue(fields[n].value, env).value))) ==>
        c.name == Some(ValidName(nodeName) + ConfigMapPostfix)))
    && (var i := LastFieldIndex(fields, "readOnly");
      && (i >= 0 ==> GetBooleanValue(fields[i].value, env).Ok?)
      && c.readOnly == (i < 0 || GetBooleanValue(fields[i].value, env).value))
    && (var i := LastFieldIndex(fields, "mountPath");
      && (i >= 0 ==> GetStringValue(fields[i].value, env).Ok?)
      && c.mountPath == if i < 0 then None else Some(GetStringValue(fields[i].value, env).value))
    && (var i := LastFieldIndex(fields, "data");
      && (i >= 0 ==> fields[i].value.List? && DataFiles(root, fields[i].value.items, files, []).Ok?)
      && c.data == if i < 0 then None else Some(DataFiles(root, fields[i].value.items, files, []).value))
    && (var i := LastFieldIndex(fields, "labels");
      && (i >= 0 ==> GetMap(LabelSource(asWritten, fields[i], outer), env).Ok?)
      && c.labels == if i < 0 then None else Some(GetMap(LabelSource(asWritten, fields[i], outer), env).value))
    && (var i := LastFieldIndex(fields, "annotations");
      && (i >= 0 ==> GetMap(LabelSource(asWritten, fields[i], outer), env).Ok?)
      && c.annotations == if i < 0 then None else Some(GetMap(LabelSource(asWritten, fields[i], outer), env).value))
  }

  /** One record of the `configMaps` list: its last `name` field gives the valid
      name, or the node's name does; its last `readOnly` field gives the flag, which is
      set without one; its last `mountPath` and `data` fields give the mount path and
      the data. */
  function ConfigMapEntry(nodeName: string, item: Value, outer: Value, asWritten: bool, root: Path, files: Files, env: Env): (r: Result<ConfigMapModel>)
    ensures !item.Record? ==> r.Err? && r.error.kind == ClassCast
    ensures r.Ok? ==> !IsBlank(r.value.name)
    ensures r.Ok? && (forall i :: 0 <= i < |item.fields| ==> item.fields[i].key != "readOnly") ==> r.value.readOnly
    ensures r.Ok? <==> item.Record? && ConfigMapFields(NewConfigMap, item.fields, outer, asWritten, root, files, env).Ok?
    ensures r.Ok? ==> EntryMatches(r.value, nodeName, item.fields, outer, asWritten, root, files, env)
  {
    var fields :- RecordFields(item);
    var c :- ConfigMapFields(NewConfigMap, fields, outer, asWritten, root, files, env);
    EntrySlots(nodeName, fields, outer, asWritten, root, files, env);
    Ok(DefaultConfigMapName(c, nodeName))
  }

  /** The entry's slots after naming, as its fields give them. */
  lemma EntrySlots(nodeName: string, fields: seq<Field>, outer: Value, asWritten: bool, root: Path, files: Files, env: Env)
    requires ConfigMapFields(NewConfigMap, fields, outer, asWritten, root, files, env).Ok?
    ensures EntryMatches(DefaultConfigMapName(ConfigMapFields(NewConfigMap, fields, outer, asWritten, root, files, env).value, nodeName), nodeName, fields, outer, asWritten, root, files, env)
  {
    var c := ConfigMapFields(NewConfigMap, fields, outer, asWritten, root, files, env).value;
    ConfigMapFieldsName(NewConfigMap, fields, outer, asWritten, root, files, env);
    ConfigMapFieldsMountPath(NewConfigMap, fields, outer, asWritten, root, files, env);
    ConfigMapFieldsReadOnly(NewConfigMap, fields, outer, asWritten, root, files, env);
    ConfigMapFieldsData(NewConfigMap, fields, outer, asWritten, root, files, env);
    ConfigMapFieldsLabels(NewConfigMap, fields, outer, asWritten, root, files, env);
    var named := DefaultConfigMapName(c, nodeName);
    assert named == c.(name := named.name);
  }

  /** A config map is kept only when it has data. */
  predicate HasData(c: ConfigMapModel) {
    c.data.Some? && |c.data.value| > 0
  }

  /** `r` is `acc` with named config maps that have data appended. */
  ghost predicate Grows(acc: seq<ConfigMapModel>, r: seq<ConfigMapModel>) {
    && |acc| <= |r| && r[..|acc|] == acc
    && forall i :: |acc| <= i < |r| ==> HasData(r[i]) && !IsBlank(r[i].name)
  }

  lemma GrowsTransitive(a: seq<ConfigMapModel>, b: seq<ConfigMapModel>, c: seq<ConfigMapModel>)
    requires Grows(a, b) && Grows(b, c)
    ensures Grows(a, c)
  {
    assert c[..|a|] == c[..|b|][..|a|];
    forall i | |a| <= i < |c| ensures HasData(c[i]) && !IsBlank(c[i].name) {
      if i < |b| {
        assert c[i] == c[..|b|][i];
      }
    }
  }

  /** Adds one entry to the set being built if it has data and no entry with its
      mount path is there yet. */
  function KeepEntry(acc: seq<ConfigMapModel>, c: ConfigMapModel): (r: seq<ConfigMapModel>)
    requires !IsBlank(c.name)
    ensures Grows(acc, r)
    ensures HasData(c) && (forall i :: 0 <= i < |acc| ==> ConfigMapKey(acc[i]) != ConfigMapKey(c)) ==> r == acc + [c]
    ensures HasData(c) && (exists i :: 0 <= i < |acc| && ConfigMapKey(acc[i]) == ConfigMapKey(c)) ==> r == acc
    ensures !HasData(c) ==> r == acc
    ensures DistinctBy(acc, ConfigMapKey) ==> DistinctBy(r, ConfigMapKey)
  {
    if HasData(c) then
      var r := AddBy(acc, c, ConfigMapKey);
      assert r[..|acc|] == acc;
      r
    else acc
  }

  /** The config maps with data, in order. */
  function WithData(cs: seq<ConfigMapModel>): (r: seq<ConfigMapModel>)
    ensures forall c :: c in r <==> c in cs && HasData(c)
    ensures |r| <= |cs|
  {
    if |cs| == 0 then []
    else if HasData(cs[0]) then [cs[0]] + WithData(cs[1..])
    else WithData(cs[1..])
  }

  /** The config maps one `configMaps` list reads, item by item, before any is merged. */
  function ConfigMapList(nodeName: string, items: seq<Value>, outer: Value, asWritten: bool, root: Path, files: Files, env: Env): (r: Result<seq<ConfigMapModel>>)
    ensures r.Ok? <==> forall i :: 0 <= i < |items| ==> ConfigMapEntry(nodeName, items[i], outer, asWritten, root, files, env).Ok?
    ensures r.Ok? ==> |r.value| == |items|
    ensures r.Ok? ==> forall i :: 0 <= i < |items| ==> ConfigMapEntry(nodeName, items[i], outer, asWritten, root, files, env) == Ok(r.value[i])
    decreases |items|
  {
    if |items| == 0 then Ok([])
    else
      var c :- ConfigMapEntry(nodeName, items[0], outer, asWritten, root, files, env);
      var rest :- ConfigMapList(nodeName, items[1..], outer, asWritten, root, files, env);
      assert forall i :: 1 <= i < |items| ==> items[i] == items[1..][i - 1];
      Ok([c] + rest)
  }

  /** The records of the `configMaps` list, added one by one to the set being built:
      the list is read whole, and those of its config maps with data are added in
      order by mount path. */
  function ConfigMapEntries(nodeName: string, items: seq<Value>, outer: Value, asWritten: bool, root: Path, files: Files, env: Env, acc: seq<ConfigMapModel>): (r: Result<seq<ConfigMapModel>>)
    ensures r.Ok? ==> Grows(acc, r.value)
    ensures r.Ok? && DistinctBy(acc, ConfigMapKey) ==> DistinctBy(r.value, ConfigMapKey)
    ensures r.Ok? ==> AllRecords(items)
    ensures r.Ok? <==> ConfigMapList(nodeName, items, outer, asWritten, root, files, env).Ok?
    ensures r.Ok? ==> r.value == AddAllBy(acc, WithData(ConfigMapList(nodeName, items, outer, asWritten, root, files, env).value), ConfigMapKey)
    decreases |items|
  {
    if |items| == 0 then Ok(acc)
    else
      var c :- ConfigMapEntry(nodeName, items[0], outer, asWritten, root, files, env);
      var acc' := KeepEntry(acc, c);
      var r :- ConfigMapEntries(nodeName, items[1..], outer, asWritten, root, files, env, acc');
      GrowsTransitive(acc, acc', r);
      AllRecordsCons(items);
      var cs := ConfigMapList(nodeName, items, outer, asWritten, root, files, env).value;
      var rest := ConfigMapList(nodeName, items[1..], outer, asWritten, root, files, env).value;
      assert cs[0] == c && cs[1..] == rest;
      assert WithData(cs) == if HasData(c) then [c] + WithData(rest) else WithData(rest);
      assert HasData(c) ==> ([c] + WithData(rest))[1..] == WithData(rest) && acc' == AddBy(acc, c, ConfigMapKey);
      Ok(r)
  }

  /** `getBallerinaConfConfigMap`: the `ballerina.conf` file as a writable config map
      mounted at the conf directory; a relative path is taken against the source
      root and normalized. */
  function ConfConfigMap(nodeName: string, value: Value, root: Path, files: Files): (r: Result<ConfigMapModel>)
    ensures r.Ok? ==> var c := r.value;
      && c.data.Some?
      && c.name == Some(ValidName(nodeName) + "-ballerina-conf" + ConfigMapPostfix)
      && c.mountPath == Some(BallerinaConfMountPath)
      && !c.readOnly
      && c.ballerinaConf == Some(Render(value))
      && Keys(c.data.value) == [BallerinaConfFileName]
    ensures r.Ok? <==> Parse(Render(value)).Ok? && ConfFilePath(root, Parse(Render(value)).value) in files
    ensures r.Ok? ==> r.value.data == Some([(BallerinaConfFileName, files[ConfFilePath(root, Parse(Render(value)).value)])])
    ensures r.Ok? ==> HasData(r.value) && !IsBlank(r.value.name)
  {
    var path := Render(value);
    var p :- Parse(path);
    var content :- ReadFile(files, ConfFilePath(root, p));
    var n := ValidName(nodeName) + "-ballerina-conf" + ConfigMapPostfix;
    assert n[|n| - 1] == 'p' && !IsWhitespace(n[|n| - 1]);
    Ok(ConfigMapModel(
      Some(ValidName(nodeName) + "-ballerina-conf" + ConfigMapPostfix), None, None,
      Some(BallerinaConfMountPath), false, Some([(BallerinaConfFileName, content)]), Some(path)))
  }

  /** Where the conf file is read from. */
  function ConfFilePath(root: Path, p: Path): (r: Path)
    ensures p.absolute ==> r == p
    ensures !p.absolute ==> r == Normalize(Resolve(root, p))
  {
    if p.absolute then p else Normalize(Resolve(root, p))
  }

  /** The config maps one top-level field contributes: those with data of a
      `configMaps` list, the `conf` file's, or none for any other key. */
  function FieldConfigMaps(nodeName: string, f: Field, asWritten: bool, root: Path, files: Files, env: Env): (r: Result<seq<ConfigMapModel>>)
    ensures f.key == "configMaps" ==> (r.Ok? <==> f.value.List? && ConfigMapList(nodeName, f.value.items, f.value, asWritten, root, files, env).Ok?)
    ensures f.key == "configMaps" && r.Ok? ==> r.value == WithData(ConfigMapList(nodeName, f.value.items, f.value, asWritten, root, files, env).value)
    ensures f.key == "conf" ==> (r.Ok? <==> ConfConfigMap(nodeName, f.value, root, files).Ok?)
    ensures f.key == "conf" && r.Ok? ==> r.value == [ConfConfigMap(nodeName, f.value, root, files).value]
    ensures f.key != "configMaps" && f.key != "conf" ==> r == Ok([])
    ensures r.Ok? ==> forall i :: 0 <= i < |r.value| ==> HasData(r.value[i])
  {
    if f.key == "configMaps" then
      var items :- ListItems(f.value);
      var cs :- ConfigMapList(nodeName, items, f.value, asWritten, root, files, env);
      var w := WithData(cs);
      assert forall i :: 0 <= i < |w| ==> w[i] in w;
      Ok(w)
    else if f.key == "conf" then
      var c :- ConfConfigMap(nodeName, f.value, root, files);
      Ok([c])
    else Ok([])
  }

  /** One top-level field: `configMaps` and `conf` are read, any other is ignored.
      The field's config maps are added in order by mount path. */
  function TopLevelField(nodeName: string, f: Field, asWritten: bool, root: Path, files: Files, env: Env, acc: seq<ConfigMapModel>): (r: Result<seq<ConfigMapModel>>)
    ensures r.Ok? ==> Grows(acc, r.value)
    ensures r.Ok? && DistinctBy(acc, ConfigMapKey) ==> DistinctBy(r.value, ConfigMapKey)
    ensures f.key != "configMaps" && f.key != "conf" ==> r == Ok(acc)
    ensures f.key == "conf" ==> (r.Ok? <==> ConfConfigMap(nodeName, f.value, root, files).Ok?)
    ensures f.key == "conf" && r.Ok? ==> r.value == KeepEntry(acc, ConfConfigMap(nodeName, f.value, root, files).value)
    ensures f.key == "configMaps" ==>
      (r.Ok? <==> f.value.List? && ConfigMapList(nodeName, f.value.items, f.value, asWritten, root, files, env).Ok?)
    ensures r.Ok? <==> FieldConfigMaps(nodeName, f, asWritten, root, files, env).Ok?
    ensures r.Ok? ==> r.value == AddAllBy(acc, FieldConfigMaps(nodeName, f, asWritten, root, files, env).value, ConfigMapKey)
  {
    if f.key == "configMaps" then
      var items :- ListItems(f.value);
      ConfigMapEntries(nodeName, items, f.value, asWritten, root, files, env, acc)
    else if f.key == "conf" then
      var c :- ConfConfigMap(nodeName, f.value, root, files);
      var empty: seq<ConfigMapModel> := [];
      assert AddAllBy(acc, [c], ConfigMapKey) == AddAllBy(AddBy(acc, c, ConfigMapKey), empty, ConfigMapKey) by {
        assert [c][1..] == empty;
      }
      Ok(KeepEntry(acc, c))
    else Ok(acc)
  }

  /** The config maps the whole annotation contributes, field after field, before
      any is merged. */
  function AnnotationConfigMaps(nodeName: string, fields: seq<Field>, asWritten: bool, root: Path, files: Files, env: Env): (r: Result<seq<ConfigMapModel>>)
    ensures r.Ok? <==> forall k :: 0 <= k < |fields| ==> FieldConfigMaps(nodeName, fields[k], asWritten, root, files, env).Ok?
    decreases |fields|
  {
    if |fields| == 0 then Ok([])
    else
      var cs :- FieldConfigMaps(nodeName, fields[0], asWritten, root, files, env);
      var rest :- AnnotationConfigMaps(nodeName, fields[1..], asWritten, root, files, env);
      assert forall k :: 1 <= k < |fields| ==> fields[k] == fields[1..][k - 1];
      Ok(cs + rest)
  }

  /** The annotation's config maps are the first field's followed by the rest's. */
  lemma AnnotationConfigMapsStep(nodeName: string, fields: seq<Field>, asWritten: bool, root: Path, files: Files, env: Env)
    requires |fields| > 0
    requires AnnotationConfigMaps(nodeName, fields, asWritten, root, files, env).Ok?
    ensures FieldConfigMaps(nodeName, fields[0], asWritten, root, files, env).Ok?
    ensures AnnotationConfigMaps(nodeName, fields[1..], asWritten, root, files, env).Ok?
    ensures AnnotationConfigMaps(nodeName, fields, asWritten, root, files, env).value
      == FieldConfigMaps(nodeName, fields[0], asWritten, root, files, env).value
       + AnnotationConfigMaps(nodeName, fields[1..], asWritten, root, files, env).value
  {
  }

  /** Item `i` of the `k`th top-level field, a `configMaps` list, reads as config map `x`. */
  ghost predicate ReadsAs(nodeName: string, fields: seq<Field>, asWritten: bool, root: Path, files: Files, env: Env, k: int, i: int, x: ConfigMapModel) {
    && 0 <= k < |fields| && fields[k].key == "configMaps" && fields[k].value.List? && 0 <= i < |fields[k].value.items|
    && ConfigMapEntry(nodeName, fields[k].value.items[i], fields[k].value, asWritten, root, files, env) == Ok(x)
  }

  /** The `k`th top-level field, `conf`, reads as config map `x`. */
  ghost predicate ConfReadsAs(nodeName: string, fields: seq<Field>, root: Path, files: Files, k: int, x: ConfigMapModel) {
    && 0 <= k < |fields| && fields[k].key == "conf"
    && ConfConfigMap(nodeName, fields[k].value, root, files) == Ok(x)
  }

  /** Every item of every `configMaps` list reads as a config map, which is one of the
      annotation's when it has data, and every `conf` field's file is one too. */
  lemma {:induction false} AnnotationConfigMapsCover(nodeName: string, fields: seq<Field>, asWritten: bool, root: Path, files: Files, env: Env)
    requires AnnotationConfigMaps(nodeName, fields, asWritten, root, files, env).Ok?
    ensures var cs := AnnotationConfigMaps(nodeName, fields, asWritten, root, files, env).value;
      forall k, i :: 0 <= k < |fields| && fields[k].key == "configMaps" && fields[k].value.List? && 0 <= i < |fields[k].value.items| ==>
        && ConfigMapEntry(nodeName, fields[k].value.items[i], fields[k].value, asWritten, root, files, env).Ok?
        && (HasData(ConfigMapEntry(nodeName, fields[k].value.items[i], fields[k].value, asWritten, root, files, env).value) ==>
              ConfigMapEntry(nodeName, fields[k].value.items[i], fields[k].value, asWritten, root, files, env).value in cs)
    ensures var cs := AnnotationConfigMaps(nodeName, fields, asWritten, root, files, env).value;
      forall k :: 0 <= k < |fields| && fields[k].key == "conf" ==>
        ConfConfigMap(nodeName, fields[k].value, root, files).Ok? && ConfConfigMap(nodeName, fields[k].value, root, files).value in cs
    decreases |fields|
  {
    if |fields| > 0 {
      var cs := AnnotationConfigMaps(nodeName, fields, asWritten, root, files, env).value;
      AnnotationConfigMapsStep(nodeName, fields, asWritten, root, files, env);
      var head := FieldConfigMaps(nodeName, fields[0], asWritten, root, files, env).value;
      var rest := AnnotationConfigMaps(nodeName, fields[1..], asWritten, root, files, env).value;
      AnnotationConfigMapsCover(nodeName, fields[1..], asWritten, root, files, env);
      forall k, i | 0 <= k < |fields| && fields[k].key == "configMaps" && fields[k].value.List? && 0 <= i < |fields[k].value.items|
        ensures ConfigMapEntry(nodeName, fields[k].value.items[i], fields[k].value, asWritten, root, files, env).Ok?
        ensures HasData(ConfigMapEntry(nodeName, fields[k].value.items[i], fields[k].value, asWritten, root, files, env).value) ==>
          ConfigMapEntry(nodeName, fields[k].value.items[i], fields[k].value, asWritten, root, files, env).value in cs
      {
        if k == 0 {
          var list := ConfigMapList(nodeName, fields[0].value.items, fields[0].value, asWritten, root, files, env).value;
          assert list[i] in list;
        } else {
          assert fields[k] == fields[1..][k - 1];
        }
      }
      forall k | 0 <= k < |fields| && fields[k].key == "conf"
        ensures ConfConfigMap(nodeName, fields[k].value, root, files).Ok? && ConfConfigMap(nodeName, fields[k].value, root, files).value in cs
      {
        if k > 0 {
          assert fields[k] == fields[1..][k - 1];
        }
      }
    }
  }

  /** Every config map of the annotation has data and is the one some item of a
      `configMaps` list or some `conf` field reads as. */
  lemma {:induction false} AnnotationConfigMapsFrom(nodeName: string, fields: seq<Field>, asWritten: bool, root: Path, files: Files, env: Env)
    requires AnnotationConfigMaps(nodeName, fields, asWritten, root, files, env).Ok?
    ensures forall x :: x in AnnotationConfigMaps(nodeName, fields, asWritten, root, files, env).value ==>
      && HasData(x)
      && ((exists k, i :: ReadsAs(nodeName, fields, asWritten, root, files, env, k, i, x)) || (exists k :: ConfReadsAs(nodeName, fields, root, files, k, x)))
    decreases |fields|
  {
    if |fields| > 0 {
      var cs := AnnotationConfigMaps(nodeName, fields, asWritten, root, files, env).value;
      AnnotationConfigMapsStep(nodeName, fields, asWritten, root, files, env);
      var head := FieldConfigMaps(nodeName, fields[0], asWritten, root, files, env).value;
      var rest := AnnotationConfigMaps(nodeName, fields[1..], asWritten, root, files, env).value;
      AnnotationConfigMapsFrom(nodeName, fields[1..], asWritten, root, files, env);
      forall x | x in cs
        ensures HasData(x)
        ensures (exists k, i :: ReadsAs(nodeName, fields, asWritten, root, files, env, k, i, x)) || (exists k :: ConfReadsAs(nodeName, fields, root, files, k, x))
      {
        if x in head {
          if fields[0].key == "configMaps" {
            var list := ConfigMapList(nodeName, fields[0].value.items, fields[0].value, asWritten, root, files, env).value;
            assert x in list;
            var i :| 0 <= i < |list| && list[i] == x;
            assert ReadsAs(nodeName, fields, asWritten, root, files, env, 0, i, x);
          } else {
            assert ConfReadsAs(nodeName, fields, root, files, 0, x);
          }
        } else {
          assert x in rest;
          if exists k, i :: ReadsAs(nodeName, fields[1..], asWritten, root, files, env, k, i, x) {
            var k, i :| ReadsAs(nodeName, fields[1..], asWritten, root, files, env, k, i, x);
            assert fields[k + 1] == fields[1..][k];
            assert ReadsAs(nodeName, fields, asWritten, root, files, env, k + 1, i, x);
          } else {
            var k :| ConfReadsAs(nodeName, fields[1..], root, files, k, x);
            assert fields[k + 1] == fields[1..][k];
            assert ConfReadsAs(nodeName, fields, root, files, k + 1, x);
          }
        }
      }
    }
  }

  /** The top-level fields in order, into one set: the annotation is read whole, and
      its config maps are added in order by mount path. */
  function TopLevelFields(nodeName: string, fields: seq<Field>, asWritten: bool, root: Path, files: Files, env: Env, acc: seq<ConfigMapModel>): (r: Result<seq<ConfigMapModel>>)
    ensures r.Ok? ==> Grows(acc, r.value)
    ensures r.Ok? && DistinctBy(acc, ConfigMapKey) ==> DistinctBy(r.value, ConfigMapKey)
    ensures r.Ok? <==> AnnotationConfigMaps(nodeName, fields, asWritten, root, files, env).Ok?
    ensures r.Ok? ==> r.value == AddAllBy(acc, AnnotationConfigMaps(nodeName, fields, asWritten, root, files, env).value, ConfigMapKey)
    decreases |fields|
  {
    if |fields| == 0 then Ok(acc)
    else
      var acc' :- TopLevelField(nodeName, fields[0], asWritten, root, files, env, acc);
      var r :- TopLevelFields(nodeName, fields[1..], asWritten, root, files, env, acc');
      GrowsTransitive(acc, acc', r);
      assert forall k :: 1 <= k < |fields| ==> fields[k] == fields[1..][k - 1];
      var head := FieldConfigMaps(nodeName, fields[0], asWritten, root, files, env).value;
      var rest := AnnotationConfigMaps(nodeName, fields[1..], asWritten, root, files, env).value;
      AddAllByAppend(acc, head, rest, ConfigMapKey);
      Ok(r)
  }

  /** `processConfigMaps`, with labels read from the entry or, `asWritten`, from the
      list. The config maps reach the holder only when the whole annotation was read. */
  function ProcessConfigMapsWith(h: Holder, nodeName: string, attachment: Value, asWritten: bool, files: Files, env: Env): (r: Outcome)
    ensures r.error.Some? ==> r.holder == h
    ensures r.error.None? ==> r.holder == h.(configMaps := r.holder.configMaps)
    ensures r.error.None? ==> |h.configMaps| <= |r.holder.configMaps| && r.holder.configMaps[..|h.configMaps|] == h.configMaps
    ensures DistinctBy(h.configMaps, ConfigMapKey) ==> DistinctBy(r.holder.configMaps, ConfigMapKey)
    ensures !attachment.Record? ==> r.error.Some? && r.error.value.kind == ClassCast
    ensures attachment.Record? ==> (r.error.None? <==> AnnotationConfigMaps(nodeName, attachment.fields, asWritten, h.sourceRoot, files, env).Ok?)
    ensures attachment.Record? && r.error.None? ==>
      r.holder.configMaps == AddAllBy(h.configMaps, AnnotationConfigMaps(nodeName, attachment.fields, asWritten, h.sourceRoot, files, env).value, ConfigMapKey)
  {
    match RecordFields(attachment)
    case Err(e) => Outcome(h, Some(e))
    case Ok(fields) =>
      var empty: seq<ConfigMapModel> := [];
      match TopLevelFields(nodeName, fields, asWritten, h.sourceRoot, files, env, empty)
      case Err(e) => Outcome(h, Some(e))
      case Ok(cms) =>
        AddAllByNested(h.configMaps, empty, AnnotationConfigMaps(nodeName, fields, asWritten, h.sourceRoot, files, env).value, ConfigMapKey);
        Outcome(AddConfigMaps(h, cms), None)
  }

  /** `processConfigMaps` with each entry's labels read from the entry itself. */
  function ProcessConfigMaps(h: Holder, nodeName: string, attachment: Value, files: Files, env: Env): (r: Outcome)
    ensures r.error.Some? ==> r.holder == h
    ensures r.error.None? ==> r.holder == h.(configMaps := r.holder.configMaps)
    ensures DistinctBy(h.configMaps, ConfigMapKey) ==> DistinctBy(r.holder.configMaps, ConfigMapKey)
    ensures attachment.Record? ==> (r.error.None? <==> AnnotationConfigMaps(nodeName, attachment.fields, false, h.sourceRoot, files, env).Ok?)
    ensures attachment.Record? && r.error.None? ==>
      r.holder.configMaps == AddAllBy(h.configMaps, AnnotationConfigMaps(nodeName, attachment.fields, false, h.sourceRoot, files, env).value, ConfigMapKey)
  {
    ProcessConfigMapsWith(h, nodeName, attachment, false, files, env)
  }

  /** Processing a record succeeds exactly when the annotation is read whole, and then
      adds the annotation's config maps to the holder's. */
  lemma ProcessConfigMapsHolder(h: Holder, nodeName: string, attachment: Value, files: Files, env: Env)
    requires attachment.Record?
    requires TopLevelFields(nodeName, attachment.fields, false, h.sourceRoot, files, env, []).Ok?
    ensures AnnotationConfigMaps(nodeName, attachment.fields, false, h.sourceRoot, files, env).Ok?
    ensures var r := ProcessConfigMaps(h, nodeName, attachment, files, env);
      && r.error.None?
      && r.holder.configMaps == AddAllBy(h.configMaps, AnnotationConfigMaps(nodeName, attachment.fields, false, h.sourceRoot, files, env).value, ConfigMapKey)
  {
  }

  /** Every item of every `configMaps` list reads as a named config map, and when it
      has data its mount path is in the holder afterwards; so is the mount path of
      every `conf` field's file. */
  lemma ProcessConfigMapsAdds(h: Holder, nodeName: string, attachment: Value, files: Files, env: Env)
    requires attachment.Record?
    requires TopLevelFields(nodeName, attachment.fields, false, h.sourceRoot, files, env, []).Ok?
    ensures var r := ProcessConfigMaps(h, nodeName, attachment, files, env);
      var fields := attachment.fields;
      && r.error.None?
      && (forall k, i :: 0 <= k < |fields| && fields[k].key == "configMaps" && fields[k].value.List? && 0 <= i < |fields[k].value.items| ==>
           && ConfigMapEntry(nodeName, fields[k].value.items[i], fields[k].value, false, h.sourceRoot, files, env).Ok?
           && !IsBlank(ConfigMapEntry(nodeName, fields[k].value.items[i], fields[k].value, false, h.sourceRoot, files, env).value.name)
           && (HasData(ConfigMapEntry(nodeName, fields[k].value.items[i], fields[k].value, false, h.sourceRoot, files, env).value) ==>
                exists j :: (0 <= j < |r.holder.configMaps| && ConfigMapKey(r.holder.configMaps[j])
                  == ConfigMapKey(ConfigMapEntry(nodeName, fields[k].value.items[i], fields[k].value, false, h.sourceRoot, files, env).value))))
      && (forall k :: 0 <= k < |fields| && fields[k].key == "conf" ==>
           && ConfConfigMap(nodeName, fields[k].value, h.sourceRoot, files).Ok?
           && exists j :: (0 <= j < |r.holder.configMaps| && ConfigMapKey(r.holder.configMaps[j])
                == ConfigMapKey(ConfConfigMap(nodeName, fields[k].value, h.sourceRoot, files).value)))
  {
    var fields := attachment.fields;
    var root := h.sourceRoot;
    ProcessConfigMapsHolder(h, nodeName, attachment, files, env);
    var cs := AnnotationConfigMaps(nodeName, fields, false, root, files, env).value;
    var out := ProcessConfigMaps(h, nodeName, attachment, files, env).holder.configMaps;
    AnnotationConfigMapsCover(nodeName, fields, false, root, files, env);
    AddAllByCovers(h.configMaps, cs, ConfigMapKey);
    forall k, i | 0 <= k < |fields| && fields[k].key == "configMaps" && fields[k].value.List? && 0 <= i < |fields[k].value.items|
      && HasData(ConfigMapEntry(nodeName, fields[k].value.items[i], fields[k].value, false, root, files, env).value)
      ensures exists j :: (0 <= j < |out| && ConfigMapKey(out[j])
        == ConfigMapKey(ConfigMapEntry(nodeName, fields[k].value.items[i], fields[k].value, false, root, files, env).value))
    {
      var x := ConfigMapEntry(nodeName, fields[k].value.items[i], fields[k].value, false, root, files, env).value;
      var m :| 0 <= m < |cs| && cs[m] == x;
    }
    forall k | 0 <= k < |fields| && fields[k].key == "conf"
      ensures exists j :: (0 <= j < |out| && ConfigMapKey(out[j]) == ConfigMapKey(ConfConfigMap(nodeName, fields[k].value, root, files).value))
    {
      var x := ConfConfigMap(nodeName, fields[k].value, root, files).value;
      var m :| 0 <= m < |cs| && cs[m] == x;
    }
  }

  /** Every config map the holder has after processing was there before, or has data
      and is the one some item of a `configMaps` list or some `conf` field reads as. */
  lemma ProcessConfigMapsOnly(h: Holder, nodeName: string, attachment: Value, files: Files, env: Env)
    requires attachment.Record?
    requires TopLevelFields(nodeName, attachment.fields, false, h.sourceRoot, files, env, []).Ok?
    ensures forall x :: x in ProcessConfigMaps(h, nodeName, attachment, files, env).holder.configMaps ==>
      || x in h.configMaps
      || (HasData(x) && exists k, i :: ReadsAs(nodeName, attachment.fields, false, h.sourceRoot, files, env, k, i, x))
      || (exists k :: ConfReadsAs(nodeName, attachment.fields, h.sourceRoot, files, k, x))
  {
    var fields := attachment.fields;
    var root := h.sourceRoot;
    ProcessConfigMapsHolder(h, nodeName, attachment, files, env);
    var cs := AnnotationConfigMaps(nodeName, fields, false, root, files, env).value;
    var out := ProcessConfigMaps(h, nodeName, attachment, files, env).holder.configMaps;
    AnnotationConfigMapsFrom(nodeName, fields, false, root, files, env);
    AddAllByFrom(h.configMaps, cs, ConfigMapKey);
    forall x | x in out
      ensures || x in h.configMaps
              || (HasData(x) && exists k, i :: ReadsAs(nodeName, fields, false, root, files, env, k, i, x))
              || (exists k :: ConfReadsAs(nodeName, fields, root, files, k, x))
    {
      var j :| 0 <= j < |out| && out[j] == x;
    }
  }

  /** The same processing as the source has it. */
  function ProcessConfigMapsAsWritten(h: Holder, nodeName: string, attachment: Value, files: Files, env: Env): (r: Outcome)
    ensures r.error.Some? ==> r.holder == h
  {
    ProcessConfigMapsWith(h, nodeName, attachment, true, files, env)
  }

  /** As written, an entry with `labels` always fails, because the `configMaps`
      list is not a record; reading the entry's own value accepts the labels. */
  lemma LabelsReadFromList(env: Env)
    ensures var labels := Record([Field("app", Lit("web"))]);
      var entry := Record([Field("labels", labels)]);
      var outer := List([entry]);
      && ConfigMapEntry("svc", entry, outer, true, Path(true, []), map[], env) == UnableToParse(outer)
      && ConfigMapEntry("svc", entry, outer, false, Path(true, []), map[], env).Ok?
      && ConfigMapEntry("svc", entry, outer, false, Path(true, []), map[], env).value.labels == Some([("app", "web")])
  {
    var labels := Record([Field("app", Lit("web"))]);
    PlainLiteral("web", env);
    var empty: OrderedMap<string> := [];
    assert PutAll(empty, [("app", "web")]) == [("app", "web")];
  }

  /** `processAnnotation(ServiceNode, ...)`. */
  function ProcessServiceConfigMaps(h: Holder, serviceName: string, attachment: Value, files: Files, env: Env): (r: Outcome)
    ensures r == ProcessConfigMaps(h, serviceName, attachment, files, env)
  {
    ProcessConfigMaps(h, serviceName, attachment, files, env)
  }

  /** `processAnnotation(FunctionNode, ...)`: only `main` may carry the annotation. */
  function ProcessFunctionConfigMaps(h: Holder, functionName: string, attachment: Value, files: Files, env: Env): (r: Outcome)
    ensures functionName != MainFunction ==> r == Outcome(h, Some(Failure(PluginError, NonMainFunction)))
    ensures functionName == MainFunction ==> r == ProcessConfigMaps(h, functionName, attachment, files, env)
  {
    if functionName != MainFunction then Outcome(h, Some(Failure(PluginError, NonMainFunction)))
    else ProcessConfigMaps(h, functionName, attachment, files, env)
  }
}
