/** The collection readers of `KnativeUtils` (`getEnvVarMap`, `getImagePullSecrets`,
    `getExternalFileMap`) and `populateEnvVar`, which turns the environment map into
    container environment variables. */
module Utils {
  import opened Wrappers
  import opened Text
  import opened EnvResolve
  import opened Collections
  import opened Ast
  import opened Models

  /** The first field of a record, as `convertRecordFields(...).get(0)`. */
  function FirstField(fields: seq<Field>): (r: Result<Field>)
    ensures r.Ok? <==> |fields| > 0
    ensures r.Ok? ==> r.value == fields[0]
    ensures r.Err? ==> r.error.kind == IndexOutOfBounds
  {
    if |fields| == 0 then Err(Failure(IndexOutOfBounds, "Index: 0, Size: 0")) else Ok(fields[0])
  }

  /** `o` is what a loop of setters leaves for key `k`: nothing when no field has
      the key, otherwise the string value of the last field that has it. */
  predicate LastStringIs(fields: seq<Field>, k: string, env: Env, o: Option<string>) {
    var i := LastFieldIndex(fields, k);
    if i < 0 then o.None? else o.Some? && GetStringValue(fields[i].value, env) == Ok(o.value)
  }

  /** The string values of the fields named `a` and `b` (the last one of each wins);
      other fields are ignored, and every field named `a` or `b` must parse. */
  function PairFields(fields: seq<Field>, a: string, b: string, env: Env): (r: Result<(Option<string>, Option<string>)>)
    requires a != b
    ensures r.Err? ==> r.error.kind == PluginError
    ensures r.Ok? <==> forall i :: 0 <= i < |fields| && (fields[i].key == a || fields[i].key == b) ==>
      GetStringValue(fields[i].value, env).Ok?
    ensures r.Ok? ==> LastStringIs(fields, a, env, r.value.0) && LastStringIs(fields, b, env, r.value.1)
    decreases |fields|
  {
    if |fields| == 0 then Ok((None, None))
    else
      var n := |fields| - 1;
      assert forall i :: 0 <= i < n ==> fields[..n][i] == fields[i];
      var init :- PairFields(fields[..n], a, b, env);
      var f := fields[n];
      if f.key == a then
        var s :- GetStringValue(f.value, env);
        Ok((Some(s), init.1))
      else if f.key == b then
        var s :- GetStringValue(f.value, env);
        Ok((init.0, Some(s)))
      else Ok(init)
  }

  /** The keys a `valueFrom` record may start with. */
  const RefKeys: set<string> := {"fieldRef", "secretKeyRef", "resourceFieldRef", "configMapKeyRef"}

  /** The `valueFrom` record of one environment variable: only its first field is
      read, and its key picks the variant; an unknown key gives null (None). */
  function EnvRefOf(fields: seq<Field>, env: Env): (r: Result<Option<EnvRef>>)
    ensures |fields| == 0 ==> r.Err? && r.error.kind == IndexOutOfBounds
    ensures r.Ok? && r.value.Some? ==>
      |fields| > 0 && fields[0].key in RefKeys
    ensures r.Ok? && r.value.Some? ==> match r.value.value
      case FieldRef(_) => fields[0].key == "fieldRef"
      case SecretKeyRef(_, _) => fields[0].key == "secretKeyRef"
      case ResourceFieldRef(_, _) => fields[0].key == "resourceFieldRef"
      case ConfigMapKeyRef(_, _) => fields[0].key == "configMapKeyRef"
    ensures |fields| > 0 && fields[0].key !in RefKeys ==> r == Ok(None)
    ensures |fields| > 0 && fields[0].key in RefKeys && !fields[0].value.Record? ==> r.Err? && r.error.kind == ClassCast
    ensures r.Ok? && r.value.Some? ==> |fields| > 0 && fields[0].value.Record? && var inner := fields[0].value.fields;
      match r.value.value
      case FieldRef(p) => |inner| > 0 && p.Some? && GetStringValue(inner[0].value, env) == Ok(p.value)
      case SecretKeyRef(n, k) => LastStringIs(inner, "name", env, n) && LastStringIs(inner, "key", env, k)
      case ResourceFieldRef(c, res) => LastStringIs(inner, "containerName", env, c) && LastStringIs(inner, "resource", env, res)
      case ConfigMapKeyRef(n, k) => LastStringIs(inner, "name", env, n) && LastStringIs(inner, "key", env, k)
  {
    var ref :- FirstField(fields);
    match ref.key
    case "fieldRef" =>
      var inner :- RecordFields(ref.value);
      var first :- FirstField(inner);
      var path :- GetStringValue(first.value, env);
      Ok(Some(FieldRef(Some(path))))
    case "secretKeyRef" =>
      var inner :- RecordFields(ref.value);
      var kn :- PairFields(inner, "key", "name", env);
      Ok(Some(SecretKeyRef(kn.1, kn.0)))
    case "resourceFieldRef" =>
      var inner :- RecordFields(ref.value);
      var cr :- PairFields(inner, "containerName", "resource", env);
      Ok(Some(ResourceFieldRef(cr.0, cr.1)))
    case "configMapKeyRef" =>
      var inner :- RecordFields(ref.value);
      var kn :- PairFields(inner, "key", "name", env);
      Ok(Some(ConfigMapKeyRef(kn.1, kn.0)))
    case _ => Ok(None)
  }

  /** One entry of `getEnvVarMap`: a literal is a plain value, a record is a
      `valueFrom` reference, and any other expression (a constant or variable
      reference, say) is stored as null (None). */
  function EnvEntry(v: Value, env: Env): (r: Result<Option<EnvVarValue>>)
    ensures v.Lit? ==> r.Ok? == GetStringValue(v, env).Ok?
    ensures v.Lit? && r.Ok? ==> r.value == Some(EnvVarValue(Some(GetStringValue(v, env).value), None))
    ensures v.Record? ==> (r.Ok? <==> EnvRefOf(v.fields, env).Ok?)
    ensures v.Record? && r.Ok? ==> (r.value.Some? <==> EnvRefOf(v.fields, env).value.Some?)
    ensures v.Record? && r.Ok? && r.value.Some? ==> r.value.value == EnvVarValue(None, EnvRefOf(v.fields, env).value)
    ensures !v.Lit? && !v.Record? ==> r == Ok(None)
  {
    match v
    case Lit(_) =>
      var s :- GetStringValue(v, env);
      Ok(Some(EnvVarValue(Some(s), None)))
    case Record(fields) =>
      var ref :- EnvRefOf(fields, env);
      Ok(if ref.Some? then Some(EnvVarValue(None, ref)) else None)
    case _ => Ok(None)
  }

  /** The fields put into `acc` one by one; the first entry that cannot be read
      stops the loop. */
  function EnvEntries(fields: seq<Field>, env: Env, acc: EnvMap): (r: Result<EnvMap>)
    ensures r.Ok? && UniqueKeys(acc) ==> UniqueKeys(r.value)
    ensures r.Ok? ==> |r.value| <= |acc| + |fields|
    ensures r.Ok? <==> forall i :: 0 <= i < |fields| ==> EnvEntry(fields[i].value, env).Ok?
    decreases |fields|
  {
    if |fields| == 0 then Ok(acc)
    else
      assert forall i :: 1 <= i < |fields| ==> fields[1..][i - 1] == fields[i];
      var e :- EnvEntry(fields[0].value, env);
      EnvEntries(fields[1..], env, Put(acc, fields[0].key, e))
  }

  /** `getEnvVarMap`: a record of environment variables, in field order; anything
      that is not a record gives an empty map. */
  function GetEnvVarMap(v: Value, env: Env): (r: Result<EnvMap>)
    ensures !v.Record? ==> r == Ok([])
    ensures r.Ok? ==> UniqueKeys(r.value)
    ensures v.Record? && r.Ok? ==> |r.value| <= |v.fields|
    ensures v.Record? ==> (r.Ok? <==> forall i :: 0 <= i < |v.fields| ==> EnvEntry(v.fields[i].value, env).Ok?)
  {
    if !v.Record? then Ok([])
    else
      var empty: EnvMap := [];
      assert UniqueKeys(empty);
      EnvEntries(v.fields, env, empty)
  }

  /** Every variable of the map holds the entry of the last field with its name, and
      a name no field has is absent. */
  lemma GetEnvVarMapLastFieldWins(v: Value, env: Env, k: string)
    requires v.Record? && GetEnvVarMap(v, env).Ok?
    ensures var i := LastFieldIndex(v.fields, k);
      i >= 0 ==> EnvEntry(v.fields[i].value, env).Ok?
    ensures var m, i := GetEnvVarMap(v, env).value, LastFieldIndex(v.fields, k);
      && (i < 0 ==> Get(m, k).None?)
      && (i >= 0 ==> Get(m, k) == Some(EnvEntry(v.fields[i].value, env).value))
  {
    var empty: EnvMap := [];
    EnvEntriesLastWins(v.fields, env, empty, k);
  }

  lemma {:induction false} EnvEntriesLastWins(fields: seq<Field>, env: Env, acc: EnvMap, k: string)
    requires EnvEntries(fields, env, acc).Ok?
    ensures var i := LastFieldIndex(fields, k);
      i >= 0 ==> EnvEntry(fields[i].value, env).Ok?
    ensures var m, i := EnvEntries(fields, env, acc).value, LastFieldIndex(fields, k);
      && (i < 0 ==> Get(m, k) == Get(acc, k))
      && (i >= 0 ==> Get(m, k) == Some(EnvEntry(fields[i].value, env).value))
    decreases |fields|
  {
    if |fields| > 0 {
      var e := EnvEntry(fields[0].value, env).value;
      var acc' := Put(acc, fields[0].key, e);
      assert EnvEntries(fields, env, acc) == EnvEntries(fields[1..], env, acc');
      EnvEntriesLastWins(fields[1..], env, acc', k);
      LastFieldIndexTail(fields, k);
      var t := LastFieldIndex(fields[1..], k);
      if t >= 0 {
        assert fields[t + 1] == fields[1..][t];
      }
    }
  }

  /** `getImagePullSecrets`: the string values of a list, as a set of strings. */
  function GetImagePullSecrets(v: Value, env: Env): (r: Result<seq<string>>)
    ensures r.Ok? ==> v.List? && DistinctBy(r.value, (x: string) => x)
    ensures v.List? ==> (r.Ok? <==> forall j :: 0 <= j < |v.items| ==> GetStringValue(v.items[j], env).Ok?)
    ensures r.Ok? ==> forall i :: 0 <= i < |r.value| ==>
      exists j :: 0 <= j < |v.items| && GetStringValue(v.items[j], env) == Ok(r.value[i])
    ensures r.Ok? ==> forall j :: 0 <= j < |v.items| ==>
      GetStringValue(v.items[j], env).Ok? && GetStringValue(v.items[j], env).value in r.value
  {
    var items :- ListItems(v);
    StringSet(items, env, [])
  }

  /** The string values of `items` added one by one to the set `acc`. */
  function StringSet(items: seq<Value>, env: Env, acc: seq<string>): (r: Result<seq<string>>)
    requires DistinctBy(acc, (x: string) => x)
    ensures r.Ok? ==> DistinctBy(r.value, (x: string) => x)
    ensures r.Ok? <==> forall j :: 0 <= j < |items| ==> GetStringValue(items[j], env).Ok?
    ensures r.Ok? ==> forall i :: 0 <= i < |r.value| ==> (r.value[i] in acc ||
      exists j :: 0 <= j < |items| && GetStringValue(items[j], env) == Ok(r.value[i]))
    ensures r.Ok? ==> forall x :: x in acc ==> x in r.value
    ensures r.Ok? ==> forall j :: 0 <= j < |items| ==>
      GetStringValue(items[j], env).Ok? && GetStringValue(items[j], env).value in r.value
    decreases |items|
  {
    if |items| == 0 then Ok(acc)
    else
      assert forall j :: 1 <= j < |items| ==> items[1..][j - 1] == items[j];
      var s :- GetStringValue(items[0], env);
      var acc' := AddBy(acc, s, (x: string) => x);
      assert s in acc' && forall x :: x in acc ==> x in acc';
      var r :- StringSet(items[1..], env, acc');
      assert forall i :: 0 <= i < |r| ==> (r[i] in acc || r[i] == s ||
        exists j :: 0 <= j < |items| && GetStringValue(items[j], env) == Ok(r[i])) by {
        forall i | 0 <= i < |r| ensures r[i] in acc || r[i] == s ||
          exists j :: 0 <= j < |items| && GetStringValue(items[j], env) == Ok(r[i])
        {
          if r[i] !in acc' {
            var j :| 0 <= j < |items[1..]| && GetStringValue(items[1..][j], env) == Ok(r[i]);
            assert items[j + 1] == items[1..][j];
          }
        }
      }
      Ok(r)
  }

  const CopySourceEmpty: string := "@kubernetes:Deployment copyFiles source cannot be empty."
  const CopyTargetEmpty: string := "@kubernetes:Deployment copyFiles target cannot be empty."

  /** The `sourceFile` and `target` fields of one copy-file record, the last of each
      winning; other fields are ignored. */
  function CopyFileOf(item: Value, env: Env): (r: Result<CopyFile>)
    ensures r.Ok? ==> item.Record?
  {
    var fields :- RecordFields(item);
    var st :- PairFields(fields, "sourceFile", "target", env);
    Ok(CopyFile(st.0, st.1))
  }

  /** `getExternalFileMap`: one copy-file model per record of the list; a blank source
      is rejected before a blank target is looked at. */
  function GetExternalFileMap(v: Value, env: Env): (r: Result<seq<CopyFile>>)
    ensures r.Ok? ==> v.List? && |r.value| == |v.items|
    ensures r.Ok? ==> forall i :: 0 <= i < |r.value| ==> Accepted(v.items[i], r.value[i], env)
  {
    var items :- ListItems(v);
    CopyFiles(items, env)
  }

  /** `c` is the copy-file model of `item`, with neither path blank. */
  predicate Accepted(item: Value, c: CopyFile, env: Env) {
    !IsBlank(c.source) && !IsBlank(c.target) && CopyFileOf(item, env) == Ok(c)
  }

  /** `item` reads as a copy-file model with neither path blank. */
  predicate Passes(item: Value, env: Env) {
    CopyFileOf(item, env).Ok? && !IsBlank(CopyFileOf(item, env).value.source) && !IsBlank(CopyFileOf(item, env).value.target)
  }

  /** The loop of `getExternalFileMap`: it succeeds exactly when every item reads
      with neither path blank (which item ends it otherwise is `CopyFilesFirstRefusal`). */
  function CopyFiles(items: seq<Value>, env: Env): (r: Result<seq<CopyFile>>)
    ensures r.Ok? ==> |r.value| == |items|
    ensures r.Ok? ==> forall i :: 0 <= i < |r.value| ==> Accepted(items[i], r.value[i], env)
    ensures r.Ok? <==> forall i :: 0 <= i < |items| ==> Passes(items[i], env)
    ensures r.Err? ==> r.error.kind == PluginError || r.error.kind == ClassCast
    decreases |items|
  {
    if |items| == 0 then Ok([])
    else
      assert forall i :: 0 < i < |items| ==> items[1..][i - 1] == items[i];
      var c :- CopyFileOf(items[0], env);
      if IsBlank(c.source) then PluginFailure(CopySourceEmpty)
      else if IsBlank(c.target) then PluginFailure(CopyTargetEmpty)
      else
        var rest :- CopyFiles(items[1..], env);
        Ok([c] + rest)
  }

  /** The first item that does not pass ends the loop with its own failure: the read
      error, or the blank-source message before the blank-target one. */
  lemma {:induction false} CopyFilesFirstRefusal(items: seq<Value>, env: Env, i: int)
    requires 0 <= i < |items| && !Passes(items[i], env)
    requires forall j :: 0 <= j < i ==> Passes(items[j], env)
    ensures CopyFileOf(items[i], env).Err? ==> CopyFiles(items, env) == Err(CopyFileOf(items[i], env).error)
    ensures CopyFileOf(items[i], env).Ok? && IsBlank(CopyFileOf(items[i], env).value.source) ==>
      CopyFiles(items, env) == PluginFailure(CopySourceEmpty)
    ensures CopyFileOf(items[i], env).Ok? && !IsBlank(CopyFileOf(items[i], env).value.source) ==>
      CopyFiles(items, env) == PluginFailure(CopyTargetEmpty)
    decreases i
  {
    if i > 0 {
      var rest := items[1..];
      assert Passes(items[0], env);
      assert rest[i - 1] == items[i];
      forall j | 0 <= j < i - 1 ensures Passes(rest[j], env) {
        assert rest[j] == items[j + 1];
      }
      CopyFilesFirstRefusal(rest, env, i - 1);
      var c := CopyFileOf(items[0], env).value;
      assert CopyFiles(items, env) == (match CopyFiles(rest, env) case Err(e) => Err(e) case Ok(t) => Ok([c] + t));
    }
  }

  /** The selector of a fabric8 `EnvVarSource`; the builder sets exactly one. */
  datatype EnvVarSource =
    | FieldSelector(fieldPath: Option<string>)
    | SecretSelector(name: Option<string>, key: Option<string>)
    | ResourceSelector(containerName: Option<string>, resource: Option<string>)
    | ConfigMapSelector(key: Option<string>, name: Option<string>)

  /** A container environment variable: a name and either a value or a source. */
  datatype EnvVar = EnvVar(name: string, value: Option<string>, valueFrom: Option<EnvVarSource>)

  /** The variable built for one non-null entry: a plain value wins over a
      reference; an entry with neither builds nothing. */
  function ToEnvVar(k: string, v: EnvVarValue): (r: Option<EnvVar>)
    ensures r.Some? <==> v.value.Some? || v.valueFrom.Some?
    ensures r.Some? ==> r.value.name == k
    ensures v.value.Some? ==> r == Some(EnvVar(k, v.value, None))
    ensures v.value.None? && v.valueFrom.Some? ==> r.Some? && r.value.value.None? && r.value.valueFrom.Some?
    ensures v.value.None? && v.valueFrom.Some? ==> match (v.valueFrom.value, r.value.valueFrom.value)
      case (FieldRef(p), FieldSelector(q)) => p == q
      case (SecretKeyRef(n, k1), SecretSelector(n2, k2)) => n == n2 && k1 == k2
      case (ResourceFieldRef(c, res), ResourceSelector(c2, res2)) => c == c2 && res == res2
      case (ConfigMapKeyRef(n, k1), ConfigMapSelector(k2, n2)) => n == n2 && k1 == k2
      case _ => false
  {
    if v.value.Some? then Some(EnvVar(k, v.value, None))
    else match v.valueFrom
      case None => None
      case Some(FieldRef(p)) => Some(EnvVar(k, None, Some(FieldSelector(p))))
      case Some(SecretKeyRef(n, key)) => Some(EnvVar(k, None, Some(SecretSelector(n, key))))
      case Some(ResourceFieldRef(c, res)) => Some(EnvVar(k, None, Some(ResourceSelector(c, res))))
      case Some(ConfigMapKeyRef(n, key)) => Some(EnvVar(k, None, Some(ConfigMapSelector(key, n))))
  }

  /** The variables of one map entry: none for a null entry. */
  function EntryVars(e: (string, Option<EnvVarValue>)): seq<EnvVar> {
    match e.1
    case None => []
    case Some(v) => match ToEnvVar(e.0, v) case None => [] case Some(x) => [x]
  }

  /** The variables of the entries, in map order. */
  function EntriesVars(m: EnvMap): (r: seq<EnvVar>)
    ensures |r| <= |m|
    ensures forall i :: 0 <= i < |r| ==> exists j :: 0 <= j < |m| && r[i] in EntryVars(m[j])
    decreases |m|
  {
    if |m| == 0 then []
    else
      var rest := EntriesVars(m[1..]);
      assert forall i :: 0 <= i < |rest| ==> exists j :: 0 <= j < |m| && rest[i] in EntryVars(m[j]) by {
        forall i | 0 <= i < |rest| ensures exists j :: 0 <= j < |m| && rest[i] in EntryVars(m[j]) {
          var j :| 0 <= j < |m[1..]| && rest[i] in EntryVars(m[1..][j]);
          assert m[j + 1] == m[1..][j];
        }
      }
      EntryVars(m[0]) + rest
  }

  /** `populateEnvVar`, with null entries skipped: a null map gives no variables.
      The source dereferences every entry, so a null entry stops the build (see
      `PopulateEnvVarAsWritten`). */
  function PopulateEnvVar(m: Option<EnvMap>): (r: seq<EnvVar>)
    ensures m.None? ==> r == []
    ensures m.Some? ==> |r| <= |m.value|
    ensures m.Some? ==> forall i :: 0 <= i < |r| ==> BuiltFrom(m.value, r[i])
  {
    if m.None? then []
    else
      var r := EntriesVars(m.value);
      EntriesVarsFrom(m.value, r);
      r
  }

  /** `x` is the variable built for some non-null entry of `m`. */
  ghost predicate BuiltFrom(m: EnvMap, x: EnvVar) {
    exists j :: 0 <= j < |m| && m[j].1.Some? && ToEnvVar(m[j].0, m[j].1.value) == Some(x)
  }

  /** Every variable of the entries is the one built for some non-null entry. */
  lemma {:induction false} EntriesVarsFrom(m: EnvMap, r: seq<EnvVar>)
    requires r == EntriesVars(m)
    ensures forall i :: 0 <= i < |r| ==> BuiltFrom(m, r[i])
  {
    forall i | 0 <= i < |r| ensures BuiltFrom(m, r[i]) {
      var j :| 0 <= j < |m| && r[i] in EntryVars(m[j]);
      EntryVarsMember(m[j], r[i]);
    }
  }

  /** A variable of an entry is the one built for its non-null value. */
  lemma EntryVarsMember(e: (string, Option<EnvVarValue>), x: EnvVar)
    requires x in EntryVars(e)
    ensures e.1.Some? && ToEnvVar(e.0, e.1.value) == Some(x)
  {
  }

  /** Appending an entry appends its variable: the variables keep the map's order. */
  lemma {:induction false} EntriesVarsAppend(m: EnvMap, e: (string, Option<EnvVarValue>))
    ensures EntriesVars(m + [e]) == EntriesVars(m) + EntryVars(e)
    decreases |m|
  {
    if |m| > 0 {
      assert (m + [e])[1..] == m[1..] + [e];
      EntriesVarsAppend(m[1..], e);
    } else {
      assert [e][1..] == [];
    }
  }

  /** Every entry with a value or a reference yields a variable of its name. */
  lemma EntriesVarsComplete(m: EnvMap, j: int)
    requires 0 <= j < |m| && m[j].1.Some? && (m[j].1.value.value.Some? || m[j].1.value.valueFrom.Some?)
    ensures exists i :: 0 <= i < |EntriesVars(m)| && EntriesVars(m)[i].name == m[j].0
  {
    var pre, post := m[..j], m[j..];
    assert m == pre + post;
    EntriesVarsConcat(pre, post);
    assert post[0] == m[j];
    assert EntriesVars(post) == EntryVars(m[j]) + EntriesVars(post[1..]);
    EntryVarsNamed(m[j]);
    assert EntriesVars(m)[|EntriesVars(pre)|] == EntryVars(m[j])[0];
  }

  /** The variables of two maps laid end to end are laid end to end. */
  lemma {:induction false} EntriesVarsConcat(a: EnvMap, b: EnvMap)
    ensures EntriesVars(a + b) == EntriesVars(a) + EntriesVars(b)
    decreases |a|
  {
    if |a| == 0 {
      assert a + b == b;
    } else {
      assert (a + b)[1..] == a[1..] + b;
      assert (a + b)[0] == a[0];
      EntriesVarsConcat(a[1..], b);
    }
  }

  /** An entry with a value or a reference yields exactly one variable, of its name. */
  lemma EntryVarsNamed(e: (string, Option<EnvVarValue>))
    requires e.1.Some? && (e.1.value.value.Some? || e.1.value.valueFrom.Some?)
    ensures |EntryVars(e)| == 1 && EntryVars(e)[0].name == e.0
  {
  }

  /** The count of null entries. */
  function NullEntries(m: EnvMap): (n: nat)
    ensures n == 0 <==> forall j :: 0 <= j < |m| ==> m[j].1.Some?
    decreases |m|
  {
    if |m| == 0 then 0
    else (if m[0].1.None? then 1 else 0) + NullEntries(m[1..])
  }

  /** `populateEnvVar` as written: `v.getValue()` on a null entry throws a
      NullPointerException, which nothing in the plugin catches. */
  function PopulateEnvVarAsWritten(m: Option<EnvMap>): (r: Result<seq<EnvVar>>)
    ensures r.Err? <==> m.Some? && exists j :: 0 <= j < |m.value| && m.value[j].1.None?
    ensures r.Err? ==> r.error.kind == NullPointer
  {
    if m.Some? && NullEntries(m.value) > 0 then Err(Failure(NullPointer, "v is null"))
    else Ok(PopulateEnvVar(m))
  }

  /** Where the source does not throw, the corrected build agrees with it. */
  lemma PopulateEnvVarAgrees(m: Option<EnvMap>)
    requires PopulateEnvVarAsWritten(m).Ok?
    ensures PopulateEnvVarAsWritten(m).value == PopulateEnvVar(m)
  {
  }

  /** An environment variable given by a constant is stored as null by
      `getEnvVarMap`, and then `populateEnvVar` throws on it; the corrected build
      leaves it out. */
  lemma ConstantEnvVarThrows(env: Env)
    ensures GetEnvVarMap(Record([Field("X", VarRef("C", Some("v")))]), env) == Ok([("X", None)])
    ensures PopulateEnvVarAsWritten(Some([("X", None)])).Err?
    ensures PopulateEnvVar(Some([("X", None)])) == []
  {
    var empty: EnvMap := [];
    assert Put(empty, "X", None) == [("X", None)];
    assert NullEntries([("X", None)]) == 1;
  }
}
