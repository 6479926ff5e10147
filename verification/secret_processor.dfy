/** `KnativeSecretAnnotationProcesser`: the `@knative:Secret` annotation adds secrets,
    whose data are base64-encoded files, to the module's holder. */
module SecretProcessor {
  import opened Wrappers
  import opened Text
  import opened EnvResolve
  import opened Collections
  import opened Paths
  import opened Ast
  import opened Models
  import Base64

  const SecretEnum: string := "org.ballerinax.knative.processors.KnativeSecretAnnotationProcesser.SecretMountConfig"

  /** The entry fields `SecretMountConfig` declares. */
  const MountKeys: set<string> := {"name", "labels", "annotations", "mountPath", "readOnly", "data"}

  const SecretPostfix: string := "-secret"
  const MainFunction: string := "main"
  const NonMainFunction: string := "@kubernetes:Secret{} annotation cannot be attached to a non main function."

  /** One data file of a secret: its path may come from a constant or `$env{}`, and it
      is read where it stands, keyed by its file name. */
  function SecretDataFile(item: Value, files: Files, env: Env): (r: Result<(string, Bytes)>)
    ensures r.Ok? <==> (GetStringValue(item, env).Ok? && Parse(GetStringValue(item, env).value).Ok?
      && Parse(GetStringValue(item, env).value).value in files)
    ensures r.Ok? ==> var p := Parse(GetStringValue(item, env).value).value;
      r.value == (JavaString(FileName(p)), files[p])
  {
    var s :- GetStringValue(item, env);
    var p :- Parse(s);
    var content :- ReadFile(files, p);
    Ok((JavaString(FileName(p)), content))
  }

  /** Every value of a secret's data decodes. */
  ghost predicate Decodable(d: OrderedMap<string>) {
    forall j :: 0 <= j < |d| ==> Base64.Decode(d[j].1).Some?
  }

  /** Each listed file as its (file name, encoded content) pair, in order, or the
      first failure. */
  function SecretDataEntries(items: seq<Value>, files: Files, env: Env): (r: Result<seq<(string, string)>>)
    ensures r.Ok? <==> forall i :: 0 <= i < |items| ==> SecretDataFile(items[i], files, env).Ok?
    ensures r.Ok? ==> |r.value| == |items| && forall i :: 0 <= i < |items| ==>
      var kv := SecretDataFile(items[i], files, env).value; r.value[i] == (kv.0, Base64.Encode(kv.1))
    decreases |items|
  {
    if |items| == 0 then Ok([])
    else
      assert forall i :: 1 <= i < |items| ==> items[1..][i - 1] == items[i];
      var kv :- SecretDataFile(items[0], files, env);
      var rest :- SecretDataEntries(items[1..], files, env);
      Ok([(kv.0, Base64.Encode(kv.1))] + rest)
  }

  /** `getDataForSecret`: every listed file is put into the map under its file name,
      its content base64-encoded, in order, so of two files with one name the later
      one wins. */
  function SecretDataFiles(items: seq<Value>, files: Files, env: Env, acc: OrderedMap<string>): (r: Result<OrderedMap<string>>)
    requires UniqueKeys(acc)
    ensures r.Ok? ==> UniqueKeys(r.value)
    ensures r.Ok? && |items| > 0 ==> |r.value| > 0
    ensures r.Ok? <==> SecretDataEntries(items, files, env).Ok?
    ensures r.Ok? ==> r.value == PutAll(acc, SecretDataEntries(items, files, env).value)
    decreases |items|
  {
    if |items| == 0 then Ok(acc)
    else
      var kv :- SecretDataFile(items[0], files, env);
      var r := SecretDataFiles(items[1..], files, env, Put(acc, kv.0, Base64.Encode(kv.1)));
      assert r.Ok? ==> var es := [(kv.0, Base64.Encode(kv.1))] + SecretDataEntries(items[1..], files, env).value;
        es[0] == (kv.0, Base64.Encode(kv.1)) && es[1..] == SecretDataEntries(items[1..], files, env).value;
      r
  }

  /** A key of a secret's data is the file name of the last listed file with that
      name, and holds that file's content encoded, which decodes back to it; a name
      no listed file has is absent. */
  lemma SecretDataFilesLastWins(items: seq<Value>, files: Files, env: Env, k: string)
    requires SecretDataFiles(items, files, env, []).Ok?
    ensures SecretDataEntries(items, files, env).Ok?
    ensures var d, i := SecretDataFiles(items, files, env, []).value, LastKeyIndex(SecretDataEntries(items, files, env).value, k);
      && (i < 0 ==> Get(d, k).None? && forall j :: 0 <= j < |items| ==> SecretDataFile(items[j], files, env).value.0 != k)
      && (i >= 0 ==> var p := Parse(GetStringValue(items[i], env).value).value;
        && JavaString(FileName(p)) == k && Get(d, k) == Some(Base64.Encode(files[p]))
        && Base64.Decode(Get(d, k).value) == Some(files[p])
        && forall j :: i < j < |items| ==> SecretDataFile(items[j], files, env).value.0 != k)
  {
    var es := SecretDataEntries(items, files, env).value;
    var empty: OrderedMap<string> := [];
    PutAllLastWins(empty, es, k);
    var i := LastKeyIndex(es, k);
    if i >= 0 {
      var p := Parse(GetStringValue(items[i], env).value).value;
      Base64.DecodeEncode(files[p]);
    }
  }

  /** The data are read exactly when every listed file is: the first one that cannot
      be read fails the secret. */
  lemma {:induction false} SecretDataFilesRead(items: seq<Value>, files: Files, env: Env, acc: OrderedMap<string>)
    requires UniqueKeys(acc)
    ensures SecretDataFiles(items, files, env, acc).Ok? <==> forall i :: 0 <= i < |items| ==> SecretDataFile(items[i], files, env).Ok?
    decreases |items|
  {
    if |items| > 0 {
      var d := SecretDataFile(items[0], files, env);
      if d.Ok? {
        var rest := items[1..];
        var acc' := Put(acc, d.value.0, Base64.Encode(d.value.1));
        assert SecretDataFiles(items, files, env, acc) == SecretDataFiles(rest, files, env, acc');
        SecretDataFilesRead(rest, files, env, acc');
        EachShifted(items, files, env);
      } else {
        assert !SecretDataFiles(items, files, env, acc).Ok?;
      }
    }
  }

  /** Every item of a non-empty list is read exactly when the first one and every
      one of the rest are. */
  lemma EachShifted(items: seq<Value>, files: Files, env: Env)
    requires |items| > 0
    ensures (forall i :: 0 <= i < |items| ==> SecretDataFile(items[i], files, env).Ok?) <==>
      SecretDataFile(items[0], files, env).Ok? && forall i :: 0 <= i < |items[1..]| ==> SecretDataFile(items[1..][i], files, env).Ok?
  {
    var rest := items[1..];
    if forall i :: 0 <= i < |items| ==> SecretDataFile(items[i], files, env).Ok? {
      forall i | 0 <= i < |rest| ensures SecretDataFile(rest[i], files, env).Ok? {
        assert rest[i] == items[i + 1];
      }
    }
    if SecretDataFile(items[0], files, env).Ok? && forall i :: 0 <= i < |rest| ==> SecretDataFile(rest[i], files, env).Ok? {
      forall i | 0 <= i < |items| ensures SecretDataFile(items[i], files, env).Ok? {
        if i > 0 {
          assert items[i] == rest[i - 1];
        }
      }
    }
  }

  /** Every value of a secret's data decodes, since each is an encoded file content. */
  lemma {:induction false} SecretDataDecodable(items: seq<Value>, files: Files, env: Env, acc: OrderedMap<string>)
    requires UniqueKeys(acc) && Decodable(acc)
    requires SecretDataFiles(items, files, env, acc).Ok?
    ensures Decodable(SecretDataFiles(items, files, env, acc).value)
    decreases |items|
  {
    if |items| > 0 {
      var kv := SecretDataFile(items[0], files, env).value;
      var acc' := Put(acc, kv.0, Base64.Encode(kv.1));
      PutDecodable(acc, kv.0, kv.1);
      assert SecretDataFiles(items, files, env, acc) == SecretDataFiles(items[1..], files, env, acc');
      SecretDataDecodable(items[1..], files, env, acc');
    }
  }

  /** Putting an encoded content keeps every value decodable; the new value decodes
      to that content. */
  lemma PutDecodable(m: OrderedMap<string>, k: string, content: Bytes)
    requires Decodable(m)
    ensures Decodable(Put(m, k, Base64.Encode(content)))
    ensures Base64.Decode(Get(Put(m, k, Base64.Encode(content)), k).value) == Some(content)
  {
    var v := Base64.Encode(content);
    Base64.DecodeEncode(content);
    var r := Put(m, k, v);
    forall j | 0 <= j < |r| ensures Base64.Decode(r[j].1).Some? {
      PutValues(m, k, v, j);
    }
  }

  /** A value of `Put(m, k, v)` is `v` or a value of `m`. */
  lemma PutValues(m: OrderedMap<string>, k: string, v: string, j: int)
    requires 0 <= j < |Put(m, k, v)|
    ensures Put(m, k, v)[j].1 == v || exists i :: 0 <= i < |m| && Put(m, k, v)[j].1 == m[i].1
  {
    var i := KeyIndex(m, k);
    if i < 0 {
      assert Put(m, k, v) == m + [(k, v)];
      if j < |m| {
        assert Put(m, k, v)[j].1 == m[j].1;
      }
    } else {
      assert Put(m, k, v) == m[i := (k, v)];
      if j != i {
        assert Put(m, k, v)[j].1 == m[j].1;
      }
    }
  }

  /** One entry field. As in the config-map processor, `labels` and `annotations`
      are read by `getMap` from `labelSource`, which the source makes the whole list. */
  function SecretField(m: SecretModel, f: Field, labelSource: Value, files: Files, env: Env): (r: Result<SecretModel>)
    ensures f.key !in MountKeys ==> r == NoEnumConstant(SecretEnum, f.key)
    ensures (f.key == "labels" || f.key == "annotations") && !labelSource.Record? ==> r == UnableToParse(labelSource)
    ensures f.key == "labels" ==> (r.Ok? <==> GetMap(labelSource, env).Ok?)
    ensures f.key == "labels" && r.Ok? ==> r.value.labels == Some(GetMap(labelSource, env).value)
    ensures f.key == "mountPath" ==> (r.Ok? <==> GetStringValue(f.value, env).Ok?)
    ensures f.key == "mountPath" && r.Ok? ==> r.value.mountPath == Some(GetStringValue(f.value, env).value)
    ensures r.Ok? && f.key != "mountPath" ==> r.value.mountPath == m.mountPath
    ensures r.Ok? && f.key != "readOnly" ==> r.value.readOnly == m.readOnly
    ensures f.key == "annotations" ==> (r.Ok? <==> GetMap(labelSource, env).Ok?)
    ensures f.key == "annotations" && r.Ok? ==> r.value.annotations == Some(GetMap(labelSource, env).value)
    ensures f.key == "name" ==> (r.Ok? <==> GetStringValue(f.value, env).Ok?)
    ensures f.key == "name" && r.Ok? ==> r.value.name == Some(ValidName(GetStringValue(f.value, env).value))
    ensures f.key == "readOnly" ==> (r.Ok? <==> GetBooleanValue(f.value, env).Ok?)
    ensures f.key == "readOnly" && r.Ok? ==> r.value.readOnly == GetBooleanValue(f.value, env).value
    ensures f.key == "data" ==> (r.Ok? <==> f.value.List? && SecretDataFiles(f.value.items, files, env, []).Ok?)
    ensures f.key == "data" && r.Ok? ==> r.value.data == Some(SecretDataFiles(f.value.items, files, env, []).value)
    ensures r.Ok? && f.key == "data" ==> r.value.data.Some? && Decodable(r.value.data.value)
    ensures r.Ok? ==> r.value == m.(name := r.value.name, labels := r.value.labels, annotations := r.value.annotations,
      mountPath := r.value.mountPath, readOnly := r.value.readOnly, data := r.value.data)
    ensures r.Ok? && f.key != "data" ==> r.value.data == m.data
    ensures r.Ok? && f.key != "name" ==> r.value.name == m.name
    ensures r.Ok? && f.key != "labels" ==> r.value.labels == m.labels
    ensures r.Ok? && f.key != "annotations" ==> r.value.annotations == m.annotations
  {
    match f.key
    case "name" =>
      var s :- GetStringValue(f.value, env);
      Ok(m.(name := Some(ValidName(s))))
    case "labels" =>
      var x :- GetMap(labelSource, env);
      Ok(m.(labels := Some(x)))
    case "annotations" =>
      var x :- GetMap(labelSource, env);
      Ok(m.(annotations := Some(x)))
    case "mountPath" =>
      var s :- GetStringValue(f.value, env);
      Ok(m.(mountPath := Some(s)))
    case "data" =>
      var items :- ListItems(f.value);
      var empty: OrderedMap<string> := [];
      assert UniqueKeys(empty) && Decodable(empty);
      var d :- SecretDataFiles(items, files, env, empty);
      SecretDataDecodable(items, files, env, empty);
      Ok(m.(data := Some(d)))
    case "readOnly" =>
      var b :- GetBooleanValue(f.value, env);
      Ok(m.(readOnly := b))
    case _ => NoEnumConstant(SecretEnum, f.key)
  }

  function LabelSource(asWritten: bool, f: Field, outer: Value): Value {
    if asWritten then outer else f.value
  }

  function SecretFields(m: SecretModel, fields: seq<Field>, outer: Value, asWritten: bool, files: Files, env: Env): (r: Result<SecretModel>)
    requires m.data.Some? ==> Decodable(m.data.value)
    ensures r.Ok? ==> forall i :: 0 <= i < |fields| ==> fields[i].key in MountKeys
    ensures r.Ok? && r.value.data.Some? ==> Decodable(r.value.data.value)
    ensures r.Ok? && (forall i :: 0 <= i < |fields| ==> fields[i].key != "readOnly") ==> r.value.readOnly == m.readOnly
    decreases |fields|
  {
    if |fields| == 0 then Ok(m)
    else
      var m' :- SecretField(m, fields[0], LabelSource(asWritten, fields[0], outer), files, env);
      var r :- SecretFields(m', fields[1..], outer, asWritten, files, env);
      assert forall i :: 1 <= i < |fields| ==> fields[i] == fields[1..][i - 1];
      Ok(r)
  }

  /** A secret with a blank name is named after the annotated node. */
  function DefaultSecretName(s: SecretModel, nodeName: string): (r: SecretModel)
    ensures !IsBlank(r.name)
    ensures r == s.(name := r.name)
    ensures !IsBlank(s.name) ==> r == s
    ensures IsBlank(s.name) ==> r == s.(name := Some(ValidName(nodeName) + SecretPostfix))
  {
    if IsBlank(s.name) then
      var n := ValidName(nodeName) + SecretPostfix;
      assert n[|n| - 1] == 't' && !IsWhitespace(n[|n| - 1]);
      s.(name := Some(n))
    else s
  }

  /** The last `name` field gives the valid name; without one the name stays as it was. */
  lemma {:induction false} SecretFieldsName(m: SecretModel, fields: seq<Field>, outer: Value, asWritten: bool, files: Files, env: Env)
    requires m.data.Some? ==> Decodable(m.data.value)
    requires SecretFields(m, fields, outer, asWritten, files, env).Ok?
    ensures var i := LastFieldIndex(fields, "name"); i >= 0 ==> GetStringValue(fields[i].value, env).Ok?
    ensures var c, i := SecretFields(m, fields, outer, asWritten, files, env).value, LastFieldIndex(fields, "name");
      c.name == if i < 0 then m.name else Some(ValidName(GetStringValue(fields[i].value, env).value))
    decreases |fields|
  {
    if |fields| > 0 {
      var m' := SecretField(m, fields[0], LabelSource(asWritten, fields[0], outer), files, env).value;
      assert SecretFields(m, fields, outer, asWritten, files, env) == SecretFields(m', fields[1..], outer, asWritten, files, env);
      SecretFieldsName(m', fields[1..], outer, asWritten, files, env);
      LastFieldIndexTail(fields, "name");
      var t0 := LastFieldIndex(fields[1..], "name");
      if t0 >= 0 {
        assert fields[t0 + 1] == fields[1..][t0];
      }
    }
  }

  /** The last `mountPath` field gives the mount path. */
  lemma {:induction false} SecretFieldsMountPath(m: SecretModel, fields: seq<Field>, outer: Value, asWritten: bool, files: Files, env: Env)
    requires m.data.Some? ==> Decodable(m.data.value)
    requires SecretFields(m, fields, outer, asWritten, files, env).Ok?
    ensures var i := LastFieldIndex(fields, "mountPath"); i >= 0 ==> GetStringValue(fields[i].value, env).Ok?
    ensures var c, i := SecretFields(m, fields, outer, asWritten, files, env).value, LastFieldIndex(fields, "mountPath");
      c.mountPath == if i < 0 then m.mountPath else Some(GetStringValue(fields[i].value, env).value)
    decreases |fields|
  {
    if |fields| > 0 {
      var m' := SecretField(m, fields[0], LabelSource(asWritten, fields[0], outer), files, env).value;
      assert SecretFields(m, fields, outer, asWritten, files, env) == SecretFields(m', fields[1..], outer, asWritten, files, env);
      SecretFieldsMountPath(m', fields[1..], outer, asWritten, files, env);
      LastFieldIndexTail(fields, "mountPath");
      var t0 := LastFieldIndex(fields[1..], "mountPath");
      if t0 >= 0 {
        assert fields[t0 + 1] == fields[1..][t0];
      }
    }
  }

  /** The last `readOnly` field gives the flag. */
  lemma {:induction false} SecretFieldsReadOnly(m: SecretModel, fields: seq<Field>, outer: Value, asWritten: bool, files: Files, env: Env)
    requires m.data.Some? ==> Decodable(m.data.value)
    requires SecretFields(m, fields, outer, asWritten, files, env).Ok?
    ensures var i := LastFieldIndex(fields, "readOnly"); i >= 0 ==> GetBooleanValue(fields[i].value, env).Ok?
    ensures var c, i := SecretFields(m, fields, outer, asWritten, files, env).value, LastFieldIndex(fields, "readOnly");
      c.readOnly == if i < 0 then m.readOnly else GetBooleanValue(fields[i].value, env).value
    decreases |fields|
  {
    if |fields| > 0 {
      var m' := SecretField(m, fields[0], LabelSource(asWritten, fields[0], outer), files, env).value;
      assert SecretFields(m, fields, outer, asWritten, files, env) == SecretFields(m', fields[1..], outer, asWritten, files, env);
      SecretFieldsReadOnly(m', fields[1..], outer, asWritten, files, env);
      LastFieldIndexTail(fields, "readOnly");
      var t0 := LastFieldIndex(fields[1..], "readOnly");
      if t0 >= 0 {
        assert fields[t0 + 1] == fields[1..][t0];
      }
    }
  }

  /** The last `data` field gives the map of its listed files, encoded. */
  lemma {:induction false} SecretFieldsData(m: SecretModel, fields: seq<Field>, outer: Value, asWritten: bool, files: Files, env: Env)
    requires m.data.Some? ==> Decodable(m.data.value)
    requires SecretFields(m, fields, outer, asWritten, files, env).Ok?
    ensures var i := LastFieldIndex(fields, "data"); i >= 0 ==> fields[i].value.List? && SecretDataFiles(fields[i].value.items, files, env, []).Ok?
    ensures var c, i := SecretFields(m, fields, outer, asWritten, files, env).value, LastFieldIndex(fields, "data");
      c.data == if i < 0 then m.data else Some(SecretDataFiles(fields[i].value.items, files, env, []).value)
    decreases |fields|
  {
    if |fields| > 0 {
      var m' := SecretField(m, fields[0], LabelSource(asWritten, fields[0], outer), files, env).value;
      assert SecretFields(m, fields, outer, asWritten, files, env) == SecretFields(m', fields[1..], outer, asWritten, files, env);
      SecretFieldsData(m', fields[1..], outer, asWritten, files, env);
      LastFieldIndexTail(fields, "data");
      var t0 := LastFieldIndex(fields[1..], "data");
      if t0 >= 0 {
        assert fields[t0 + 1] == fields[1..][t0];
      } else if fields[0].key == "data" {
        assert m'.data == Some(SecretDataFiles(fields[0].value.items, files, env, []).value);
      } else {
        assert m'.data == m.data;
      }
    }
  }

  /** The last `labels` field gives the map read from its label source. */
  lemma {:induction false} SecretFieldsLabels(m: SecretModel, fields: seq<Field>, outer: Value, asWritten: bool, files: Files, env: Env)
    requires m.data.Some? ==> Decodable(m.data.value)
    requires SecretFields(m, fields, outer, asWritten, files, env).Ok?
    ensures var i := LastFieldIndex(fields, "labels"); i >= 0 ==> GetMap(LabelSource(asWritten, fields[i], outer), env).Ok?
    ensures var c, i := SecretFields(m, fields, outer, asWritten, files, env).value, LastFieldIndex(fields, "labels");
      c.labels == if i < 0 then m.labels else Some(GetMap(LabelSource(asWritten, fields[i], outer), env).value)
    decreases |fields|
  {
    if |fields| > 0 {
      var m' := SecretField(m, fields[0], LabelSource(asWritten, fields[0], outer), files, env).value;
      assert SecretFields(m, fields, outer, asWritten, files, env) == SecretFields(m', fields[1..], outer, asWritten, files, env);
      SecretFieldsLabels(m', fields[1..], outer, asWritten, files, env);
      LastFieldIndexTail(fields, "labels");
      var t0 := LastFieldIndex(fields[1..], "labels");
      if t0 >= 0 {
        assert fields[t0 + 1] == fields[1..][t0];
      }
    }
  }

  /** The last `annotations` field gives the map read from its label source. */
  lemma {:induction false} SecretFieldsAnnotations(m: SecretModel, fields: seq<Field>, outer: Value, asWritten: bool, files: Files, env: Env)
    requires m.data.Some? ==> Decodable(m.data.value)
    requires SecretFields(m, fields, outer, asWritten, files, env).Ok?
    ensures var i := LastFieldIndex(fields, "annotations"); i >= 0 ==> GetMap(LabelSource(asWritten, fields[i], outer), env).Ok?
    ensures var c, i := SecretFields(m, fields, outer, asWritten, files, env).value, LastFieldIndex(fields, "annotations");
      c.annotations == if i < 0 then m.annotations else Some(GetMap(LabelSource(asWritten, fields[i], outer), env).value)
    decreases |fields|
  {
    if |fields| > 0 {
      var m' := SecretField(m, fields[0], LabelSource(asWritten, fields[0], outer), files, env).value;
      assert SecretFields(m, fields, outer, asWritten, files, env) == SecretFields(m', fields[1..], outer, asWritten, files, env);
      SecretFieldsAnnotations(m', fields[1..], outer, asWritten, files, env);
      LastFieldIndexTail(fields, "annotations");
      var t0 := LastFieldIndex(fields[1..], "annotations");
      if t0 >= 0 {
        assert fields[t0 + 1] == fields[1..][t0];
      }
    }
  }

  /** `c` holds what an entry's `fields` give: each slot comes from the last field
      with its key; without a `name` field, or with a blank one, the name is the
      node's, and without a `readOnly` field the flag is clear. */
  ghost predicate EntryMatches(c: SecretModel, nodeName: string, fields: seq<Field>, outer: Value, asWritten: bool, files: Files, env: Env) {
    && (var n := LastFieldIndex(fields, "name");
      && (n >= 0 ==> GetStringValue(fields[n].value, env).Ok?)
      && (n >= 0 && !IsBlank(Some(ValidName(GetStringValue(fields[n].value, env).value))) ==>
        c.name == Some(ValidName(GetStringValue(fields[n].value, env).value)))
      && (n < 0 || IsBlank(Some(ValidName(GetStringValue(fields[n].value, env).value))) ==>
        c.name == Some(ValidName(nodeName) + SecretPostfix)))
    && (var i := LastFieldIndex(fields, "readOnly");
      && (i >= 0 ==> GetBooleanValue(fields[i].value, env).Ok?)
      && c.readOnly == (i >= 0 && GetBooleanValue(fields[i].value, env).value))
    && (var i := LastFieldIndex(fields, "mountPath");
      && (i >= 0 ==> GetStringValue(fields[i].value, env).Ok?)
      && c.mountPath == if i < 0 then None else Some(GetStringValue(fields[i].value, env).value))
    && (var i := LastFieldIndex(fields, "data");
      && (i >= 0 ==> fields[i].value.List? && SecretDataFiles(fields[i].value.items, files, env, []).Ok?)
      && c.data == if i < 0 then None else Some(SecretDataFiles(fields[i].value.items, files, env, []).value))
    && (var i := LastFieldIndex(fields, "labels");
      && (i >= 0 ==> GetMap(LabelSource(asWritten, fields[i], outer), env).Ok?)
      && c.labels == if i < 0 then None else Some(GetMap(LabelSource(asWritten, fields[i], outer), env).value))
    && (var i := LastFieldIndex(fields, "annotations");
      && (i >= 0 ==> GetMap(LabelSource(asWritten, fields[i], outer), env).Ok?)
      && c.annotations == if i < 0 then None else Some(GetMap(LabelSource(asWritten, fields[i], outer), env).value))
  }

  /** One record of a secret list: its last `name` field gives the valid name, or the
      node's name does; its last `readOnly` field gives the flag, which is clear
      without one; its last `mountPath` and `data` fields give the mount path and the
      data. */
  function SecretEntry(nodeName: string, item: Value, outer: Value, asWritten: bool, files: Files, env: Env): (r: Result<SecretModel>)
    ensures !item.Record? ==> r.Err? && r.error.kind == ClassCast
    ensures r.Ok? ==> !IsBlank(r.value.name)
    ensures r.Ok? && r.value.data.Some? ==> Decodable(r.value.data.value)
    ensures r.Ok? && (forall i :: 0 <= i < |item.fields| ==> item.fields[i].key != "readOnly") ==> !r.value.readOnly
    ensures r.Ok? <==> item.Record? && SecretFields(NewSecret, item.fields, outer, asWritten, files, env).Ok?
    ensures r.Ok? ==> EntryMatches(r.value, nodeName, item.fields, outer, asWritten, files, env)
  {
    var fields :- RecordFields(item);
    var s :- SecretFields(NewSecret, fields, outer, asWritten, files, env);
    EntrySlots(nodeName, fields, outer, asWritten, files, env);
    Ok(DefaultSecretName(s, nodeName))
  }

  /** The entry's slots after naming, as its fields give them. */
  lemma EntrySlots(nodeName: string, fields: seq<Field>, outer: Value, asWritten: bool, files: Files, env: Env)
    requires SecretFields(NewSecret, fields, outer, asWritten, files, env).Ok?
    ensures EntryMatches(DefaultSecretName(SecretFields(NewSecret, fields, outer, asWritten, files, env).value, nodeName), nodeName, fields, outer, asWritten, files, env)
  {
    var c := SecretFields(NewSecret, fields, outer, asWritten, files, env).value;
    SecretFieldsName(NewSecret, fields, outer, asWritten, files, env);
    SecretFieldsMountPath(NewSecret, fields, outer, asWritten, files, env);
    SecretFieldsReadOnly(NewSecret, fields, outer, asWritten, files, env);
    SecretFieldsData(NewSecret, fields, outer, asWritten, files, env);
    SecretFieldsLabels(NewSecret, fields, outer, asWritten, files, env);
    SecretFieldsAnnotations(NewSecret, fields, outer, asWritten, files, env);
    var named := DefaultSecretName(c, nodeName);
    assert named == c.(name := named.name);
  }

  /** `r` is `acc` with named secrets whose data decode appended. */
  ghost predicate Grows(acc: seq<SecretModel>, r: seq<SecretModel>) {
    && |acc| <= |r| && r[..|acc|] == acc
    && forall i :: |acc| <= i < |r| ==> !IsBlank(r[i].name) && (r[i].data.Some? ==> Decodable(r[i].data.value))
  }

  lemma GrowsTransitive(a: seq<SecretModel>, b: seq<SecretModel>, c: seq<SecretModel>)
    requires Grows(a, b) && Grows(b, c)
    ensures Grows(a, c)
  {
    assert c[..|a|] == c[..|b|][..|a|];
    forall i | |a| <= i < |c| ensures !IsBlank(c[i].name) && (c[i].data.Some? ==> Decodable(c[i].data.value)) {
      if i < |b| {
        assert c[i] == c[..|b|][i];
      }
    }
  }

  /** Every secret read is added, unless one with its mount path is there already. */
  function KeepSecret(acc: seq<SecretModel>, s: SecretModel): (r: seq<SecretModel>)
    requires !IsBlank(s.name) && (s.data.Some? ==> Decodable(s.data.value))
    ensures Grows(acc, r)
    ensures (forall i :: 0 <= i < |acc| ==> SecretKey(acc[i]) != SecretKey(s)) ==> r == acc + [s]
    ensures (exists i :: 0 <= i < |acc| && SecretKey(acc[i]) == SecretKey(s)) ==> r == acc
    ensures DistinctBy(acc, SecretKey) ==> DistinctBy(r, SecretKey)
  {
    var r := AddBy(acc, s, SecretKey);
    assert r[..|acc|] == acc;
    r
  }

  /** The secrets one top-level list reads, item by item, before any is merged. */
  function SecretList(nodeName: string, items: seq<Value>, outer: Value, asWritten: bool, files: Files, env: Env): (r: Result<seq<SecretModel>>)
    ensures r.Ok? <==> forall i :: 0 <= i < |items| ==> SecretEntry(nodeName, items[i], outer, asWritten, files, env).Ok?
    ensures r.Ok? ==> |r.value| == |items|
    ensures r.Ok? ==> forall i :: 0 <= i < |items| ==> SecretEntry(nodeName, items[i], outer, asWritten, files, env) == Ok(r.value[i])
    decreases |items|
  {
    if |items| == 0 then Ok([])
    else
      var s :- SecretEntry(nodeName, items[0], outer, asWritten, files, env);
      var rest :- SecretList(nodeName, items[1..], outer, asWritten, files, env);
      assert forall i :: 1 <= i < |items| ==> items[i] == items[1..][i - 1];
      Ok([s] + rest)
  }

  /** The records of one top-level list, added one by one to the set being built:
      the list is read whole, and its secrets are added in order by mount path. */
  function SecretEntries(nodeName: string, items: seq<Value>, outer: Value, asWritten: bool, files: Files, env: Env, acc: seq<SecretModel>): (r: Result<seq<SecretModel>>)
    ensures r.Ok? ==> Grows(acc, r.value)
    ensures r.Ok? && DistinctBy(acc, SecretKey) ==> DistinctBy(r.value, SecretKey)
    ensures r.Ok? ==> AllRecords(items)
    ensures r.Ok? <==> SecretList(nodeName, items, outer, asWritten, files, env).Ok?
    ensures r.Ok? ==> r.value == AddAllBy(acc, SecretList(nodeName, items, outer, asWritten, files, env).value, SecretKey)
    decreases |items|
  {
    if |items| == 0 then Ok(acc)
    else
      var s :- SecretEntry(nodeName, items[0], outer, asWritten, files, env);
      var acc' := KeepSecret(acc, s);
      var r :- SecretEntries(nodeName, items[1..], outer, asWritten, files, env, acc');
      GrowsTransitive(acc, acc', r);
      AllRecordsCons(items);
      var ss := SecretList(nodeName, items, outer, asWritten, files, env).value;
      assert ss[0] == s && ss[1..] == SecretList(nodeName, items[1..], outer, asWritten, files, env).value;
      assert acc' == AddBy(acc, s, SecretKey);
      Ok(r)
  }

  /** The secrets the whole annotation reads, list after list, before any is merged. */
  function AnnotationSecrets(nodeName: string, fields: seq<Field>, asWritten: bool, files: Files, env: Env): (r: Result<seq<SecretModel>>)
    ensures r.Ok? <==> forall k :: 0 <= k < |fields| ==>
      fields[k].value.List? && SecretList(nodeName, fields[k].value.items, fields[k].value, asWritten, files, env).Ok?
    decreases |fields|
  {
    if |fields| == 0 then Ok([])
    else
      var items :- ListItems(fields[0].value);
      var ss :- SecretList(nodeName, items, fields[0].value, asWritten, files, env);
      var rest :- AnnotationSecrets(nodeName, fields[1..], asWritten, files, env);
      assert forall k :: 1 <= k < |fields| ==> fields[k] == fields[1..][k - 1];
      Ok(ss + rest)
  }

  /** Item `i` of the `k`th top-level list reads as secret `x`. */
  ghost predicate ReadsAs(nodeName: string, fields: seq<Field>, asWritten: bool, files: Files, env: Env, k: int, i: int, x: SecretModel) {
    && 0 <= k < |fields| && fields[k].value.List? && 0 <= i < |fields[k].value.items|
    && SecretEntry(nodeName, fields[k].value.items[i], fields[k].value, asWritten, files, env) == Ok(x)
  }

  /** The annotation's secrets are the first list's followed by the rest's. */
  lemma AnnotationSecretsStep(nodeName: string, fields: seq<Field>, asWritten: bool, files: Files, env: Env)
    requires |fields| > 0
    requires AnnotationSecrets(nodeName, fields, asWritten, files, env).Ok?
    ensures fields[0].value.List?
    ensures SecretList(nodeName, fields[0].value.items, fields[0].value, asWritten, files, env).Ok?
    ensures AnnotationSecrets(nodeName, fields[1..], asWritten, files, env).Ok?
    ensures AnnotationSecrets(nodeName, fields, asWritten, files, env).value
      == SecretList(nodeName, fields[0].value.items, fields[0].value, asWritten, files, env).value
       + AnnotationSecrets(nodeName, fields[1..], asWritten, files, env).value
  {
  }

  /** Every item of every list reads as a secret of the annotation. */
  lemma {:induction false} AnnotationSecretsCover(nodeName: string, fields: seq<Field>, asWritten: bool, files: Files, env: Env)
    requires AnnotationSecrets(nodeName, fields, asWritten, files, env).Ok?
    ensures var ss := AnnotationSecrets(nodeName, fields, asWritten, files, env).value;
      forall k, i :: 0 <= k < |fields| && fields[k].value.List? && 0 <= i < |fields[k].value.items| ==>
        && SecretEntry(nodeName, fields[k].value.items[i], fields[k].value, asWritten, files, env).Ok?
        && SecretEntry(nodeName, fields[k].value.items[i], fields[k].value, asWritten, files, env).value in ss
    decreases |fields|
  {
    if |fields| > 0 {
      var ss := AnnotationSecrets(nodeName, fields, asWritten, files, env).value;
      AnnotationSecretsStep(nodeName, fields, asWritten, files, env);
      var head := SecretList(nodeName, fields[0].value.items, fields[0].value, asWritten, files, env).value;
      var rest := AnnotationSecrets(nodeName, fields[1..], asWritten, files, env).value;
      AnnotationSecretsCover(nodeName, fields[1..], asWritten, files, env);
      forall k, i | 0 <= k < |fields| && fields[k].value.List? && 0 <= i < |fields[k].value.items|
        ensures SecretEntry(nodeName, fields[k].value.items[i], fields[k].value, asWritten, files, env).Ok?
        ensures SecretEntry(nodeName, fields[k].value.items[i], fields[k].value, asWritten, files, env).value in ss
      {
        if k == 0 {
          assert ss[i] == head[i];
        } else {
          assert fields[k] == fields[1..][k - 1];
        }
      }
    }
  }

  /** Every secret of the annotation is the one some item of some list reads as. */
  lemma {:induction false} AnnotationSecretsFrom(nodeName: string, fields: seq<Field>, asWritten: bool, files: Files, env: Env)
    requires AnnotationSecrets(nodeName, fields, asWritten, files, env).Ok?
    ensures forall x :: x in AnnotationSecrets(nodeName, fields, asWritten, files, env).value ==>
      exists k, i :: ReadsAs(nodeName, fields, asWritten, files, env, k, i, x)
    decreases |fields|
  {
    if |fields| > 0 {
      var ss := AnnotationSecrets(nodeName, fields, asWritten, files, env).value;
      AnnotationSecretsStep(nodeName, fields, asWritten, files, env);
      var head := SecretList(nodeName, fields[0].value.items, fields[0].value, asWritten, files, env).value;
      var rest := AnnotationSecrets(nodeName, fields[1..], asWritten, files, env).value;
      AnnotationSecretsFrom(nodeName, fields[1..], asWritten, files, env);
      forall x | x in ss ensures exists k, i :: ReadsAs(nodeName, fields, asWritten, files, env, k, i, x) {
        if x in head {
          var i :| 0 <= i < |head| && head[i] == x;
          assert ReadsAs(nodeName, fields, asWritten, files, env, 0, i, x);
        } else {
          assert x in rest;
          var k, i :| ReadsAs(nodeName, fields[1..], asWritten, files, env, k, i, x);
          assert fields[k + 1] == fields[1..][k];
          assert ReadsAs(nodeName, fields, asWritten, files, env, k + 1, i, x);
        }
      }
    }
  }

  /** The top-level fields: whatever its key, each must hold a list of secret records.
      The annotation is read whole, and its secrets are added in order by mount path. */
  function TopLevelFields(nodeName: string, fields: seq<Field>, asWritten: bool, files: Files, env: Env, acc: seq<SecretModel>): (r: Result<seq<SecretModel>>)
    ensures r.Ok? ==> Grows(acc, r.value)
    ensures r.Ok? && DistinctBy(acc, SecretKey) ==> DistinctBy(r.value, SecretKey)
    ensures r.Ok? ==> forall i :: 0 <= i < |fields| ==> fields[i].value.List?
    ensures r.Ok? <==> AnnotationSecrets(nodeName, fields, asWritten, files, env).Ok?
    ensures r.Ok? ==> r.value == AddAllBy(acc, AnnotationSecrets(nodeName, fields, asWritten, files, env).value, SecretKey)
    decreases |fields|
  {
    if |fields| == 0 then Ok(acc)
    else
      var items :- ListItems(fields[0].value);
      var acc' :- SecretEntries(nodeName, items, fields[0].value, asWritten, files, env, acc);
      var r :- TopLevelFields(nodeName, fields[1..], asWritten, files, env, acc');
      GrowsTransitive(acc, acc', r);
      assert forall i :: 1 <= i < |fields| ==> fields[i] == fields[1..][i - 1];
      var head := SecretList(nodeName, items, fields[0].value, asWritten, files, env).value;
      var rest := AnnotationSecrets(nodeName, fields[1..], asWritten, files, env).value;
      AddAllByAppend(acc, head, rest, SecretKey);
      Ok(r)
  }

  /** `processSecret`, with labels read from the entry or, `asWritten`, from the list.
      The secrets reach the holder only when the whole annotation was read. */
  function ProcessSecretsWith(h: Holder, nodeName: string, attachment: Value, asWritten: bool, files: Files, env: Env): (r: Outcome)
    ensures r.error.Some? ==> r.holder == h
    ensures r.error.None? ==> r.holder == h.(secrets := r.holder.secrets)
    ensures r.error.None? ==> |h.secrets| <= |r.holder.secrets| && r.holder.secrets[..|h.secrets|] == h.secrets
    ensures DistinctBy(h.secrets, SecretKey) ==> DistinctBy(r.holder.secrets, SecretKey)
    ensures !attachment.Record? ==> r.error.Some? && r.error.value.kind == ClassCast
    ensures attachment.Record? ==> (r.error.None? <==> AnnotationSecrets(nodeName, attachment.fields, asWritten, files, env).Ok?)
    ensures attachment.Record? && r.error.None? ==>
      r.holder.secrets == AddAllBy(h.secrets, AnnotationSecrets(nodeName, attachment.fields, asWritten, files, env).value, SecretKey)
  {
    match RecordFields(attachment)
    case Err(e) => Outcome(h, Some(e))
    case Ok(fields) =>
      var empty: seq<SecretModel> := [];
      match TopLevelFields(nodeName, fields, asWritten, files, env, empty)
      case Err(e) => Outcome(h, Some(e))
      case Ok(ss) =>
        var empty': seq<SecretModel> := [];
        AddAllByNested(h.secrets, empty', AnnotationSecrets(nodeName, fields, asWritten, files, env).value, SecretKey);
        Outcome(AddSecrets(h, ss), None)
  }

  /** `processSecret` with each entry's labels read from the entry itself. */
  function ProcessSecrets(h: Holder, nodeName: string, attachment: Value, files: Files, env: Env): (r: Outcome)
    ensures r.error.Some? ==> r.holder == h
    ensures r.error.None? ==> r.holder == h.(secrets := r.holder.secrets)
    ensures DistinctBy(h.secrets, SecretKey) ==> DistinctBy(r.holder.secrets, SecretKey)
    ensures attachment.Record? ==> (r.error.None? <==> AnnotationSecrets(nodeName, attachment.fields, false, files, env).Ok?)
    ensures attachment.Record? && r.error.None? ==>
      r.holder.secrets == AddAllBy(h.secrets, AnnotationSecrets(nodeName, attachment.fields, false, files, env).value, SecretKey)
  {
    ProcessSecretsWith(h, nodeName, attachment, false, files, env)
  }

  /** Processing a record succeeds exactly when the annotation is read whole, and then
      adds the annotation's secrets to the holder's. */
  lemma ProcessSecretsHolder(h: Holder, nodeName: string, attachment: Value, files: Files, env: Env)
    requires attachment.Record?
    requires TopLevelFields(nodeName, attachment.fields, false, files, env, []).Ok?
    ensures AnnotationSecrets(nodeName, attachment.fields, false, files, env).Ok?
    ensures var r := ProcessSecrets(h, nodeName, attachment, files, env);
      && r.error.None?
      && r.holder.secrets == AddAllBy(h.secrets, AnnotationSecrets(nodeName, attachment.fields, false, files, env).value, SecretKey)
  {
  }

  /** Every item of every list of the annotation reads as a named secret whose data
      decodes (to the content of the file its key names, by `SecretDataFilesLastWins`),
      and its mount path is in the holder afterwards. */
  lemma ProcessSecretsAdds(h: Holder, nodeName: string, attachment: Value, files: Files, env: Env)
    requires attachment.Record?
    requires TopLevelFields(nodeName, attachment.fields, false, files, env, []).Ok?
    ensures var r := ProcessSecrets(h, nodeName, attachment, files, env);
      var fields := attachment.fields;
      && r.error.None?
      && (forall k :: 0 <= k < |fields| ==> fields[k].value.List?)
      && (forall k, i :: 0 <= k < |fields| && fields[k].value.List? && 0 <= i < |fields[k].value.items| ==>
           && SecretEntry(nodeName, fields[k].value.items[i], fields[k].value, false, files, env).Ok?
           && !IsBlank(SecretEntry(nodeName, fields[k].value.items[i], fields[k].value, false, files, env).value.name)
           && exists j :: (0 <= j < |r.holder.secrets| &&
                SecretKey(r.holder.secrets[j]) == SecretKey(SecretEntry(nodeName, fields[k].value.items[i], fields[k].value, false, files, env).value)))
  {
    var fields := attachment.fields;
    ProcessSecretsHolder(h, nodeName, attachment, files, env);
    var ss := AnnotationSecrets(nodeName, fields, false, files, env).value;
    var out := ProcessSecrets(h, nodeName, attachment, files, env).holder.secrets;
    AnnotationSecretsCover(nodeName, fields, false, files, env);
    AddAllByCovers(h.secrets, ss, SecretKey);
    forall k, i | 0 <= k < |fields| && fields[k].value.List? && 0 <= i < |fields[k].value.items|
      ensures exists j :: (0 <= j < |out| &&
        SecretKey(out[j]) == SecretKey(SecretEntry(nodeName, fields[k].value.items[i], fields[k].value, false, files, env).value))
    {
      var x := SecretEntry(nodeName, fields[k].value.items[i], fields[k].value, false, files, env).value;
      var m :| 0 <= m < |ss| && ss[m] == x;
    }
  }

  /** Every secret the holder has after processing was there before or is the one
      some item of the annotation reads as. */
  lemma ProcessSecretsOnly(h: Holder, nodeName: string, attachment: Value, files: Files, env: Env)
    requires attachment.Record?
    requires TopLevelFields(nodeName, attachment.fields, false, files, env, []).Ok?
    ensures forall x :: x in ProcessSecrets(h, nodeName, attachment, files, env).holder.secrets ==>
      x in h.secrets || exists k, i :: ReadsAs(nodeName, attachment.fields, false, files, env, k, i, x)
  {
    var fields := attachment.fields;
    ProcessSecretsHolder(h, nodeName, attachment, files, env);
    var ss := AnnotationSecrets(nodeName, fields, false, files, env).value;
    var out := ProcessSecrets(h, nodeName, attachment, files, env).holder.secrets;
    AnnotationSecretsFrom(nodeName, fields, false, files, env);
    AddAllByFrom(h.secrets, ss, SecretKey);
    forall x | x in out ensures x in h.secrets || exists k, i :: ReadsAs(nodeName, fields, false, files, env, k, i, x) {
      var j :| 0 <= j < |out| && out[j] == x;
    }
  }

  /** The same processing as the source has it. */
  function ProcessSecretsAsWritten(h: Holder, nodeName: string, attachment: Value, files: Files, env: Env): (r: Outcome)
    ensures r.error.Some? ==> r.holder == h
  {
    ProcessSecretsWith(h, nodeName, attachment, true, files, env)
  }

  /** As written, a secret with `labels` always fails, because the list is not a
      record; reading the entry's own value accepts the labels. */
  lemma LabelsReadFromList(env: Env)
    ensures var labels := Record([Field("app", Lit("web"))]);
      var entry := Record([Field("labels", labels)]);
      var outer := List([entry]);
      && SecretEntry("svc", entry, outer, true, map[], env) == UnableToParse(outer)
      && SecretEntry("svc", entry, outer, false, map[], env).Ok?
      && SecretEntry("svc", entry, outer, false, map[], env).value.labels == Some([("app", "web")])
  {
    PlainLiteral("web", env);
    var empty: OrderedMap<string> := [];
    assert PutAll(empty, [("app", "web")]) == [("app", "web")];
  }

  /** `processAnnotation(ServiceNode, ...)`. */
  function ProcessServiceSecrets(h: Holder, serviceName: string, attachment: Value, files: Files, env: Env): (r: Outcome)
    ensures r == ProcessSecrets(h, serviceName, attachment, files, env)
  {
    ProcessSecrets(h, serviceName, attachment, files, env)
  }

  /** `processAnnotation(FunctionNode, ...)`: only `main` may carry the annotation. */
  function ProcessFunctionSecrets(h: Holder, functionName: string, attachment: Value, files: Files, env: Env): (r: Outcome)
    ensures functionName != MainFunction ==> r == Outcome(h, Some(Failure(PluginError, NonMainFunction)))
    ensures functionName == MainFunction ==> r == ProcessSecrets(h, functionName, attachment, files, env)
  {
    if functionName != MainFunction then Outcome(h, Some(Failure(PluginError, NonMainFunction)))
    else ProcessSecrets(h, functionName, attachment, files, env)
  }
}
