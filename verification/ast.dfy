/** The Ballerina annotation values the processors read, and the `KnativeUtils`
    accessors that turn them into strings, booleans, integers and string maps. */
module Ast {
  import opened Wrappers
  import opened Text
  import opened EnvResolve
  import opened Collections

  /** An annotation expression, by the node class the plugin tests or casts it to. */
  datatype Value =
    | Lit(text: string)                               // BLangLiteral; `text` is its toString
    | VarRef(name: string, constant: Option<string>)  // BLangSimpleVarRef; the value of a
                                                      // compile-time constant, if it is one
    | List(items: seq<Value>)                         // BLangListConstructorExpr
    | Record(fields: seq<Field>)                      // BLangRecordLiteral
    | TypeInit(args: seq<Value>)                      // BLangTypeInit (`new Listener(...)`)
    | Other(text: string)                             // any other expression

  /** A record field; `key` is the toString of its key expression. */
  datatype Field = Field(key: string, value: Value)

  /** The `toString` of an expression, as far as error messages and `getDependsOn`
      show it. */
  function Render(v: Value): string {
    match v
    case Lit(t) => t
    case VarRef(n, _) => n
    case List(_) => "[...]"
    case Record(_) => "{...}"
    case TypeInit(_) => "new (...)"
    case Other(t) => t
  }

  function ClassCastError<T>(target: string): Result<T> {
    Err(Failure(ClassCast, "cannot be cast to " + target))
  }

  /** A cast to `BLangListConstructorExpr` followed by `.exprs`. */
  function ListItems(v: Value): (r: Result<seq<Value>>)
    ensures r.Ok? <==> v.List?
    ensures r.Ok? ==> r.value == v.items
    ensures r.Err? ==> r.error.kind == ClassCast
  {
    if v.List? then Ok(v.items) else ClassCastError("BLangListConstructorExpr")
  }

  /** A cast to `BLangRecordLiteral` followed by `convertRecordFields(getFields())`. */
  function RecordFields(v: Value): (r: Result<seq<Field>>)
    ensures r.Ok? <==> v.Record?
    ensures r.Ok? ==> r.value == v.fields
    ensures r.Err? ==> r.error.kind == ClassCast
  {
    if v.Record? then Ok(v.fields) else ClassCastError("BLangRecordLiteral")
  }

  /** Every item of a list is a record, as a list of annotation entries must be. */
  predicate AllRecords(items: seq<Value>) {
    forall i :: 0 <= i < |items| ==> items[i].Record?
  }

  /** A non-empty list holds only records when its head and its tail do. */
  lemma AllRecordsCons(items: seq<Value>)
    requires |items| > 0
    ensures AllRecords(items) <==> items[0].Record? && AllRecords(items[1..])
  {
    assert forall i :: 1 <= i < |items| ==> items[i] == items[1..][i - 1];
  }

  function UnableToParse<T>(v: Value): Result<T> {
    PluginFailure("unable to parse value: " + Render(v))
  }

  /** `getStringValue`: a literal, or a constant with a value, after `$env{}`
      resolution; any other expression cannot be parsed. */
  function GetStringValue(v: Value, env: Env): (r: Result<string>)
    ensures r.Err? ==> r.error.kind == PluginError
    ensures v.Lit? ==> r == ResolveValue(v.text, env)
    ensures v.VarRef? && v.constant.Some? ==> r == ResolveValue(v.constant.value, env)
    ensures !v.Lit? && !(v.VarRef? && v.constant.Some?) ==> r == UnableToParse(v)
  {
    match v
    case Lit(t) => ResolveValue(t, env)
    case VarRef(_, Some(c)) => ResolveValue(c, env)
    case _ => UnableToParse(v)
  }

  /** A literal without place-holders is read back verbatim. */
  lemma PlainLiteral(t: string, env: Env)
    requires IndexOf(t, Marker, 0) < 0
    ensures GetStringValue(Lit(t), env) == Ok(t)
  {
  }

  /** `getBooleanValue`: `Boolean.parseBoolean` of the string value. */
  function GetBooleanValue(v: Value, env: Env): (r: Result<bool>)
    ensures r.Ok? <==> GetStringValue(v, env).Ok?
    ensures r.Ok? ==> (r.value <==> ToLowerString(GetStringValue(v, env).value) == "true")
    ensures r.Err? ==> r.error == GetStringValue(v, env).error
  {
    var s :- GetStringValue(v, env);
    Ok(ParseBoolean(s))
  }

  /** `getIntValue`: `Integer.parseInt` of the string value, whose failure is a
      NumberFormatException that no caller catches. */
  function GetIntValue(v: Value, env: Env): (r: Result<int>)
    ensures r.Ok? ==> GetStringValue(v, env).Ok? && IntMin <= r.value <= IntMax
    ensures r.Err? ==> r.error.kind == PluginError || r.error.kind == NumberFormat
    ensures GetStringValue(v, env).Err? ==> r.Err? && r.error == GetStringValue(v, env).error
  {
    var s :- GetStringValue(v, env);
    ParseInt(s)
  }

  /** The string values of the fields, in order, or the first failure. */
  function StringEntries(fields: seq<Field>, env: Env): (r: Result<seq<(string, string)>>)
    ensures r.Ok? ==> |r.value| == |fields| && forall i :: 0 <= i < |fields| ==>
      r.value[i].0 == fields[i].key && GetStringValue(fields[i].value, env) == Ok(r.value[i].1)
    ensures r.Err? ==> r.error.kind == PluginError
    ensures r.Err? ==> exists i :: 0 <= i < |fields| && GetStringValue(fields[i].value, env) == Err(r.error)
    decreases |fields|
  {
    if |fields| == 0 then Ok([])
    else
      var s :- GetStringValue(fields[0].value, env);
      var rest :- StringEntries(fields[1..], env);
      Ok([(fields[0].key, s)] + rest)
  }

  /** `getMap`: a record becomes a map from each field key to its string value, where
      a repeated key keeps its first position and takes its last value; anything else
      cannot be parsed. */
  function GetMap(v: Value, env: Env): (r: Result<OrderedMap<string>>)
    ensures !v.Record? ==> r == UnableToParse(v)
    ensures r.Ok? ==> UniqueKeys(r.value)
    ensures r.Err? ==> r.error.kind == PluginError
  {
    if !v.Record? then UnableToParse(v)
    else
      match StringEntries(v.fields, env)
      case Err(e) => Err(e)
      case Ok(entries) =>
        var empty: OrderedMap<string> := [];
        assert UniqueKeys(empty);
        Ok(PutAll(empty, entries))
  }

  /** Every key of a parsed map has the string value of the last field with that
      key, and a key no field has is absent. */
  lemma GetMapLastFieldWins(v: Value, env: Env, k: string)
    requires GetMap(v, env).Ok?
    ensures var m, i := GetMap(v, env).value, LastFieldIndex(v.fields, k);
      && (i < 0 ==> Get(m, k).None?)
      && (i >= 0 ==> Get(m, k).Some? && GetStringValue(v.fields[i].value, env) == Ok(Get(m, k).value))
  {
    var entries := StringEntries(v.fields, env).value;
    var empty: OrderedMap<string> := [];
    PutAllLastWins(empty, entries, k);
    SameLastIndex(v.fields, entries, k);
  }

  /** Entries keyed like the fields have their last `k` at the same position. */
  lemma SameLastIndex(fields: seq<Field>, entries: seq<(string, string)>, k: string)
    requires |entries| == |fields| && forall i :: 0 <= i < |fields| ==> entries[i].0 == fields[i].key
    ensures LastKeyIndex(entries, k) == LastFieldIndex(fields, k)
  {
    var i, j := LastFieldIndex(fields, k), LastKeyIndex(entries, k);
    assert forall x :: 0 <= x < |fields| ==> (entries[x].0 == k <==> fields[x].key == k);
    if i >= 0 && j >= 0 {
      assert entries[i].0 == k && fields[j].key == k;
    }
  }

  /** The index of the last field named `k`, or -1 when there is none: the field
      whose value a repeated setter leaves behind. */
  function LastFieldIndex(fields: seq<Field>, k: string): (r: int)
    ensures -1 <= r < |fields|
    ensures r >= 0 ==> fields[r].key == k && forall j :: r < j < |fields| ==> fields[j].key != k
    ensures r < 0 ==> forall j :: 0 <= j < |fields| ==> fields[j].key != k
    decreases |fields|
  {
    if |fields| == 0 then -1
    else if fields[|fields| - 1].key == k then |fields| - 1
    else LastFieldIndex(fields[..|fields| - 1], k)
  }

  /** The last field named `k` after the first field is the last one of the tail,
      shifted by one, unless the tail has none. */
  lemma LastFieldIndexTail(fields: seq<Field>, k: string)
    requires |fields| > 0
    ensures var t := LastFieldIndex(fields[1..], k);
      LastFieldIndex(fields, k) == if t >= 0 then t + 1 else if fields[0].key == k then 0 else -1
  {
    var t := LastFieldIndex(fields[1..], k);
    var r := LastFieldIndex(fields, k);
    if t >= 0 {
      assert fields[t + 1] == fields[1..][t];
      assert forall j :: t + 1 < j < |fields| ==> fields[j] == fields[1..][j - 1];
    } else {
      assert forall j :: 1 <= j < |fields| ==> fields[j] == fields[1..][j - 1];
    }
  }
}
