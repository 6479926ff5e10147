/** `KnativeUtils.resolveValue`: substitution of `$env{NAME}` place-holders from
    the process environment, which is an input map here. */
module EnvResolve {
  import opened Wrappers
  import opened Text

  type Env = map<string, string>

  const Marker: string := "$env{"

  function NotSet(name: string): Failure {
    Failure(PluginError, "error resolving value: " + name + " is not set in the environment.")
  }

  /** The first place-holder of `value`: the index of the first `$env{` and the index
      of the first `}` after it; None when there is no `$env{` or no `}` after it. */
  function FirstPlaceholder(value: string): (p: Option<(nat, nat)>)
    ensures p.Some? ==> p.value.0 + |Marker| <= p.value.1 < |value|
  {
    var start := IndexOf(value, Marker, 0);
    if start < 0 then None
    else
      var end := IndexOfChar(value, '}', start);
      if end <= 0 then None
      else
        assert end >= start + |Marker| by {
          forall i | start <= i < start + |Marker| ensures value[i] != '}' {
            assert value[i] == value[start..start + |Marker|][i - start];
          }
        }
        Some((start, end))
  }

  /** The place-holder found is the first `$env{` of the value together with the
      first `}` after it; None means there is no `$env{`, or no `}` after the first one. */
  lemma FirstPlaceholderIsFirst(value: string)
    ensures var p := FirstPlaceholder(value);
      && (p.Some? ==>
        && OccursAt(value, Marker, p.value.0) && value[p.value.1] == '}'
        && (forall j :: 0 <= j < p.value.0 ==> !OccursAt(value, Marker, j))
        && (forall j :: p.value.0 <= j < p.value.1 ==> value[j] != '}'))
      && (p.None? ==>
        || (forall j :: 0 <= j <= |value| ==> !OccursAt(value, Marker, j))
        || (exists s: nat :: OccursAt(value, Marker, s) && forall j :: s <= j < |value| ==> value[j] != '}'))
  {
    var start := IndexOf(value, Marker, 0);
    if start >= 0 {
      assert OccursAt(value, Marker, start);
    }
  }

  /** `resolveValue`: the text before the first place-holder is kept, the place-holder
      is replaced by the value of its trimmed name, and only the text after its `}`
      is resolved further; substituted text is never scanned again. A value without
      a complete place-holder is returned unchanged. */
  function ResolveValue(value: string, env: Env): (r: Result<string>)
    ensures r.Err? ==> r.error.kind == PluginError
    decreases |value|, 1
  {
    match FirstPlaceholder(value)
    case None => Ok(value)
    case Some((start, end)) => ResolveAt(value, env, start, end)
  }

  /** The substitution of the place-holder between `start` and `end`, followed by the
      resolution of the text after it. */
  function ResolveAt(value: string, env: Env, start: nat, end: nat): (r: Result<string>)
    requires start + |Marker| <= end < |value|
    ensures r.Err? ==> r.error.kind == PluginError
    decreases |value|, 0
  {
    var name := Trim(value[start + |Marker|..end]);
    if name !in env then Err(NotSet(name))
    else
      // the Java code skips the recursive call when nothing follows the `}`;
      // resolving the empty string gives the empty string, so both agree
      match ResolveValue(value[end + 1..], env)
      case Err(e) => Err(e)
      case Ok(rest) => Ok(value[..start] + env[name] + rest)
  }

  /** One substitution step: when resolution succeeds, the variable named by the
      first place-holder is set, the text before the place-holder is copied, the
      variable's value follows verbatim, and the rest is the resolution of the text
      after the closing brace. When that variable is unset, its name is reported. */
  lemma {:induction false} ResolveSubstitutesFirstPlaceholder(value: string, env: Env, start: nat, end: nat)
    requires FirstPlaceholder(value) == Some((start, end))
    ensures var name := Trim(value[start + |Marker|..end]);
      && (name !in env ==> ResolveValue(value, env) == Err(NotSet(name)))
      && (ResolveValue(value, env).Ok? ==>
        && name in env
        && ResolveValue(value[end + 1..], env).Ok?
        && ResolveValue(value, env).value == value[..start] + env[name] + ResolveValue(value[end + 1..], env).value
        && ResolveValue(value, env).value[..start] == value[..start]
        && ResolveValue(value, env).value[start..start + |env[name]|] == env[name]
        && ResolveValue(value, env).value[start + |env[name]|..] == ResolveValue(value[end + 1..], env).value)
  {
    var name := Trim(value[start + |Marker|..end]);
    var tail := ResolveValue(value[end + 1..], env);
    ResolveUnfold(value, env, start, end);
    if name in env && tail.Ok? {
      var r := value[..start] + env[name] + tail.value;
      assert r[..start] == value[..start];
      assert r[start..start + |env[name]|] == env[name];
      assert r[start + |env[name]|..] == tail.value;
    }
  }

  /** The raw texts between `$env{` and `}` of every place-holder `resolveValue`
      visits, in order. */
  function Placeholders(value: string): (names: seq<string>)
    decreases |value|
  {
    match FirstPlaceholder(value)
    case None => []
    case Some((start, end)) => [value[start + |Marker|..end]] + Placeholders(value[end + 1..])
  }

  /** True when every place-holder `resolveValue` visits names a set variable. */
  ghost predicate AllSet(value: string, env: Env) {
    forall k :: 0 <= k < |Placeholders(value)| ==> Trim(Placeholders(value)[k]) in env
  }

  lemma {:induction false} AllSetStep(value: string, env: Env, start: nat, end: nat)
    requires FirstPlaceholder(value) == Some((start, end))
    ensures AllSet(value, env) <==>
      Trim(value[start + |Marker|..end]) in env && AllSet(value[end + 1..], env)
  {
    var ps, tps := Placeholders(value), Placeholders(value[end + 1..]);
    assert ps == [value[start + |Marker|..end]] + tps;
    if Trim(ps[0]) in env && AllSet(value[end + 1..], env) {
      forall k | 0 <= k < |ps| ensures Trim(ps[k]) in env {
        if k > 0 { assert ps[k] == tps[k - 1]; }
      }
    }
    if AllSet(value, env) {
      forall k | 0 <= k < |tps| ensures Trim(tps[k]) in env {
        assert ps[k + 1] == tps[k];
      }
    }
  }

  lemma {:induction false} ResolveStep(value: string, env: Env, start: nat, end: nat)
    requires FirstPlaceholder(value) == Some((start, end))
    ensures ResolveValue(value, env).Ok? <==>
      Trim(value[start + |Marker|..end]) in env && ResolveValue(value[end + 1..], env).Ok?
  {
    ResolveUnfold(value, env, start, end);
  }

  /** One unfolding of `ResolveValue` at a place-holder. */
  lemma ResolveUnfold(value: string, env: Env, start: nat, end: nat)
    requires FirstPlaceholder(value) == Some((start, end))
    ensures Trim(value[start + |Marker|..end]) !in env ==>
      ResolveValue(value, env) == Err(NotSet(Trim(value[start + |Marker|..end])))
    ensures Trim(value[start + |Marker|..end]) in env && ResolveValue(value[end + 1..], env).Err? ==>
      ResolveValue(value, env) == ResolveValue(value[end + 1..], env)
    ensures Trim(value[start + |Marker|..end]) in env && ResolveValue(value[end + 1..], env).Ok? ==>
      ResolveValue(value, env) == Ok(value[..start] + env[Trim(value[start + |Marker|..end])] + ResolveValue(value[end + 1..], env).value)
  {
    assert ResolveValue(value, env) == ResolveAt(value, env, start, end);
  }

  /** Resolution succeeds exactly when every visited place-holder names a set variable. */
  lemma {:induction false} ResolveOkIffAllSet(value: string, env: Env)
    ensures ResolveValue(value, env).Ok? <==> AllSet(value, env)
    decreases |value|
  {
    var p := FirstPlaceholder(value);
    if p.Some? {
      var start, end := p.value.0, p.value.1;
      ResolveOkIffAllSet(value[end + 1..], env);
      AllSetStep(value, env, start, end);
      ResolveStep(value, env, start, end);
    }
  }

  /** A failing resolution reports the first visited place-holder whose variable is
      not set. */
  /** The `k`th of `names` is the first whose trimmed form is not set in `env`. */
  ghost predicate FirstUnsetAt(names: seq<string>, env: Env, k: int) {
    && 0 <= k < |names| && Trim(names[k]) !in env
    && (forall j :: 0 <= j < k ==> Trim(names[j]) in env)
  }

  /** The `k`th visited place-holder is the first whose variable is unset, and it is
      the one a failing resolution reports. */
  ghost predicate WitnessesFirstUnset(value: string, env: Env, k: int) {
    && FirstUnsetAt(Placeholders(value), env, k)
    && ResolveValue(value, env).Err?
    && ResolveValue(value, env).error == NotSet(Trim(Placeholders(value)[k]))
  }

  lemma {:induction false} ResolveReportsFirstUnset(value: string, env: Env)
    requires ResolveValue(value, env).Err?
    ensures exists k :: WitnessesFirstUnset(value, env, k)
    decreases |value|
  {
    var p := FirstPlaceholder(value);
    var start, end := p.value.0, p.value.1;
    if Trim(value[start + |Marker|..end]) in env {
      ResolveUnfold(value, env, start, end);
      ResolveReportsFirstUnset(value[end + 1..], env);
      var k :| WitnessesFirstUnset(value[end + 1..], env, k);
      WitnessLater(value, env, start, end, k);
    } else {
      WitnessFirst(value, env, start, end);
    }
  }

  lemma PlaceholdersUnfold(value: string, start: nat, end: nat)
    requires FirstPlaceholder(value) == Some((start, end))
    ensures Placeholders(value) == [value[start + |Marker|..end]] + Placeholders(value[end + 1..])
  {
  }

  lemma WitnessFirst(value: string, env: Env, start: nat, end: nat)
    requires FirstPlaceholder(value) == Some((start, end))
    requires Trim(value[start + |Marker|..end]) !in env
    ensures WitnessesFirstUnset(value, env, 0)
  {
    ResolveUnfold(value, env, start, end);
    assert Placeholders(value)[0] == value[start + |Marker|..end];
  }

  lemma WitnessLater(value: string, env: Env, start: nat, end: nat, k: int)
    requires FirstPlaceholder(value) == Some((start, end))
    requires Trim(value[start + |Marker|..end]) in env
    requires WitnessesFirstUnset(value[end + 1..], env, k)
    ensures WitnessesFirstUnset(value, env, k + 1)
  {
    ResolveUnfold(value, env, start, end);
    PlaceholdersUnfold(value, start, end);
    FirstUnsetCons(value[start + |Marker|..end], Placeholders(value[end + 1..]), env, k);
  }

  lemma FirstUnsetCons(x: string, names: seq<string>, env: Env, k: int)
    requires Trim(x) in env && FirstUnsetAt(names, env, k)
    ensures FirstUnsetAt([x] + names, env, k + 1) && ([x] + names)[k + 1] == names[k]
  {
    var xs := [x] + names;
    forall j | 0 <= j < k + 1 ensures Trim(xs[j]) in env {
      if j > 0 { assert xs[j] == names[j - 1]; }
    }
  }

  /** An environment that maps every visited name to its own place-holder text makes
      resolution the identity: everything outside the place-holders is copied verbatim. */
  lemma {:induction false} ResolveWithOwnPlaceholders(value: string, env: Env)
    requires forall k :: 0 <= k < |Placeholders(value)| ==>
      Trim(Placeholders(value)[k]) in env
      && env[Trim(Placeholders(value)[k])] == Marker + Placeholders(value)[k] + "}"
    ensures ResolveValue(value, env) == Ok(value)
    decreases |value|
  {
    match FirstPlaceholder(value)
    case None =>
    case Some((start, end)) =>
      var ps := Placeholders(value);
      var tail := value[end + 1..];
      assert ps == [value[start + |Marker|..end]] + Placeholders(tail);
      forall k | 0 <= k < |Placeholders(tail)|
        ensures Trim(Placeholders(tail)[k]) in env
        ensures env[Trim(Placeholders(tail)[k])] == Marker + Placeholders(tail)[k] + "}"
      {
        assert Placeholders(tail)[k] == ps[k + 1];
      }
      ResolveWithOwnPlaceholders(tail, env);
      assert Trim(ps[0]) in env;
      SplitAtPlaceholder(value, start, end);
  }

  lemma SplitAtPlaceholder(value: string, start: nat, end: nat)
    requires OccursAt(value, Marker, start) && start + |Marker| <= end < |value| && value[end] == '}'
    ensures value == value[..start] + (Marker + value[start + |Marker|..end] + "}") + value[end + 1..]
  {
    assert value[start..start + |Marker|] == Marker;
    assert value[end..end + 1] == "}";
    calc {
      value;
      value[..start] + value[start..start + |Marker|] + value[start + |Marker|..end] + value[end..end + 1] + value[end + 1..];
    }
  }

  /** Substituted text is not re-scanned: a `$env{` inside the value of the first
      place-holder's variable survives resolution, at its place in the substituted
      text. */
  lemma SubstitutionIsNotRescanned(value: string, env: Env, start: nat, end: nat, j: nat)
    requires FirstPlaceholder(value) == Some((start, end))
    requires ResolveValue(value, env).Ok?
    requires Trim(value[start + |Marker|..end]) in env
    requires OccursAt(env[Trim(value[start + |Marker|..end])], Marker, j)
    ensures OccursAt(ResolveValue(value, env).value, Marker, start + j)
  {
    var v := env[Trim(value[start + |Marker|..end])];
    var r := ResolveValue(value, env).value;
    ResolveSubstitutesFirstPlaceholder(value, env, start, end);
    assert r[start..start + |v|] == v;
    assert r[start + j..start + j + |Marker|] == v[j..j + |Marker|];
  }
}
