/** The part of `java.nio.file.Path` on a Unix file system that the processors use:
    `Paths.get`, `equals`, `isAbsolute`, `getFileName`, `resolve`, `normalize` and
    `toString`. A path is its absolute flag and its non-empty name elements, so
    repeated and trailing slashes do not matter, as for `UnixPath`. */
module Paths {
  import opened Wrappers
  import opened Text

  datatype Path = Path(absolute: bool, names: seq<string>)

  /** A name element: non-empty and free of `/`. */
  predicate IsName(n: string) {
    |n| > 0 && forall i :: 0 <= i < |n| ==> n[i] != '/'
  }

  ghost predicate WellFormed(p: Path) {
    forall k :: 0 <= k < |p.names| ==> IsName(p.names[k])
  }

  /** The non-empty pieces of `s` between slashes, in order. */
  function Names(s: string): (ns: seq<string>)
    ensures forall k :: 0 <= k < |ns| ==> IsName(ns[k])
    decreases |s|
  {
    var i := IndexOfChar(s, '/', 0);
    if i < 0 then (if |s| == 0 then [] else [s])
    else (if i == 0 then [] else [s[..i]]) + Names(s[i + 1..])
  }

  /** The name elements joined with single slashes. */
  function Join(ns: seq<string>): string
    decreases |ns|
  {
    if |ns| == 0 then ""
    else if |ns| == 1 then ns[0]
    else ns[0] + "/" + Join(ns[1..])
  }

  /** `Paths.get`: a NUL character is an `InvalidPathException`. */
  function Parse(s: string): (r: Result<Path>)
    ensures r.Ok? <==> forall i :: 0 <= i < |s| ==> s[i] != '\0'
    ensures r.Ok? ==> WellFormed(r.value) && r.value.absolute == (|s| > 0 && s[0] == '/')
    ensures r.Err? ==> r.error.kind == InvalidPath
  {
    if exists i :: 0 <= i < |s| && s[i] == '\0' then Err(Failure(InvalidPath, "Nul character not allowed: " + s))
    else Ok(Path(|s| > 0 && s[0] == '/', Names(s)))
  }

  /** `Path.toString`: the normal form the path is kept in. */
  function Show(p: Path): string {
    (if p.absolute then "/" else "") + Join(p.names)
  }

  lemma {:induction false} NamesOfJoin(ns: seq<string>)
    requires forall k :: 0 <= k < |ns| ==> IsName(ns[k])
    ensures Names(Join(ns)) == ns
    decreases |ns|
  {
    if |ns| == 1 {
      assert IndexOfChar(ns[0], '/', 0) == -1;
    } else if |ns| > 1 {
      NamesOfJoin(ns[1..]);
      NamesOfSlash(ns[0], Join(ns[1..]));
      assert ns == [ns[0]] + ns[1..];
    }
  }

  /** A name followed by a slash is the first name of the text. */
  lemma NamesOfSlash(n: string, t: string)
    requires IsName(n)
    ensures Names(n + "/" + t) == [n] + Names(t)
  {
    var s := n + "/" + t;
    assert s[|n|] == '/';
    assert forall j :: 0 <= j < |n| ==> s[j] == n[j];
    assert IndexOfChar(s, '/', 0) == |n|;
    assert s[..|n|] == n;
    assert s[|n| + 1..] == t;
  }

  /** Parsing the text of a well-formed path gives the path back. */
  lemma ParseShow(p: Path)
    requires WellFormed(p) && forall k, i :: 0 <= k < |p.names| && 0 <= i < |p.names[k]| ==> p.names[k][i] != '\0'
    ensures Parse(Show(p)) == Ok(p)
  {
    var s := Show(p);
    JoinNoNul(p.names);
    NamesOfJoin(p.names);
    if p.absolute {
      assert s[1..] == Join(p.names);
      assert IndexOfChar(s, '/', 0) == 0;
      assert Names(s) == Names(s[1..]);
    } else {
      assert s == Join(p.names);
    }
  }

  /** A join holds no NUL when its names hold none, and starts like its first name. */
  lemma {:induction false} JoinNoNul(ns: seq<string>)
    requires forall k, i :: 0 <= k < |ns| && 0 <= i < |ns[k]| ==> ns[k][i] != '\0'
    ensures forall i :: 0 <= i < |Join(ns)| ==> Join(ns)[i] != '\0'
    ensures |ns| > 0 && |ns[0]| > 0 ==> Join(ns)[0] == ns[0][0]
    decreases |ns|
  {
    if |ns| > 1 {
      JoinNoNul(ns[1..]);
      var s, t := Join(ns), Join(ns[1..]);
      assert s == ns[0] + "/" + t;
      forall i | 0 <= i < |s| ensures s[i] != '\0' {
        if i < |ns[0]| {
          assert s[i] == ns[0][i];
        } else if i > |ns[0]| {
          assert s[i] == t[i - |ns[0]| - 1];
        }
      }
    }
  }

  /** A trailing slash adds no name element. */
  lemma {:induction false} NamesTrailingSlash(s: string)
    ensures Names(s + "/") == Names(s)
    decreases |s|
  {
    var t := s + "/";
    var i := IndexOfChar(s, '/', 0);
    if i < 0 {
      assert forall j :: 0 <= j < |s| ==> t[j] == s[j];
      assert t[|s|] == '/';
      assert IndexOfChar(t, '/', 0) == |s|;
      assert t[..|s|] == s;
      assert t[|s| + 1..] == "";
    } else {
      assert forall j :: 0 <= j <= i ==> t[j] == s[j];
      assert IndexOfChar(t, '/', 0) == i;
      assert t[..i] == s[..i];
      assert t[i + 1..] == s[i + 1..] + "/";
      NamesTrailingSlash(s[i + 1..]);
    }
  }

  /** `Paths.get` ignores a trailing slash after a non-empty path. */
  lemma ParseTrailingSlash(s: string)
    requires |s| > 0 && forall i :: 0 <= i < |s| ==> s[i] != '\0'
    ensures Parse(s + "/") == Parse(s)
  {
    NamesTrailingSlash(s);
    assert (s + "/")[0] == s[0];
    assert forall i :: 0 <= i < |s + "/"| ==> (s + "/")[i] != '\0' by {
      forall i | 0 <= i < |s + "/"| ensures (s + "/")[i] != '\0' {
        if i < |s| {
          assert (s + "/")[i] == s[i];
        }
      }
    }
  }

  /** `Path.getFileName`: the last name element; an empty relative path is its own
      file name, and the root has none. */
  function FileName(p: Path): (r: Option<string>)
    ensures r.Some? && |p.names| > 0 ==> r.value == p.names[|p.names| - 1]
    ensures r.None? <==> p.absolute && |p.names| == 0
  {
    if |p.names| > 0 then Some(p.names[|p.names| - 1])
    else if p.absolute then None
    else Some("")
  }

  /** `Path.resolve`: an absolute or empty argument decides alone; otherwise the
      argument's names follow the base's. */
  function Resolve(base: Path, p: Path): (r: Path)
    ensures p.absolute ==> r == p
    ensures !p.absolute && |p.names| > 0 ==> r.absolute == base.absolute && r.names == base.names + p.names
    ensures !p.absolute && |p.names| == 0 ==> r == base
  {
    if p.absolute then p
    else if |p.names| == 0 then base
    else Path(base.absolute, base.names + p.names)
  }

  /** The names left after removing `.` and letting each `..` cancel the name before
      it; a `..` with nothing before it is dropped under the root and kept otherwise. */
  function NormalNames(absolute: bool, done: seq<string>, todo: seq<string>): (ns: seq<string>)
    requires forall k :: 0 <= k < |done| ==> done[k] != "."
    ensures forall k :: 0 <= k < |ns| ==> ns[k] != "."
    ensures absolute && (forall k :: 0 <= k < |done| ==> done[k] != "..") ==> forall k :: 0 <= k < |ns| ==> ns[k] != ".."
    decreases |todo|
  {
    if |todo| == 0 then done
    else if todo[0] == "." then NormalNames(absolute, done, todo[1..])
    else if todo[0] == ".." then
      if |done| > 0 && done[|done| - 1] != ".." then NormalNames(absolute, done[..|done| - 1], todo[1..])
      else if absolute then NormalNames(absolute, done, todo[1..])
      else NormalNames(absolute, done + [".."], todo[1..])
    else NormalNames(absolute, done + [todo[0]], todo[1..])
  }

  /** `Path.normalize`. */
  function Normalize(p: Path): (r: Path)
    ensures r.absolute == p.absolute
    ensures forall k :: 0 <= k < |r.names| ==> r.names[k] != "."
    ensures p.absolute ==> forall k :: 0 <= k < |r.names| ==> r.names[k] != ".."
  {
    Path(p.absolute, NormalNames(p.absolute, [], p.names))
  }

  /** Names without `.` or `..` are already normal. */
  lemma {:induction false} NormalNamesPlain(absolute: bool, done: seq<string>, todo: seq<string>)
    requires forall k :: 0 <= k < |done| ==> done[k] != "."
    requires forall k :: 0 <= k < |todo| ==> todo[k] != "." && todo[k] != ".."
    ensures NormalNames(absolute, done, todo) == done + todo
    decreases |todo|
  {
    if |todo| > 0 {
      NormalNamesPlain(absolute, done + [todo[0]], todo[1..]);
      assert done + [todo[0]] + todo[1..] == done + todo;
    }
  }

  /** `normalize` is idempotent. */
  lemma NormalizeIdempotent(p: Path)
    ensures Normalize(Normalize(p)) == Normalize(p)
  {
    var q := Normalize(p);
    if p.absolute {
      NormalNamesPlain(true, [], q.names);
    } else {
      NormalNamesRelative([], p.names);
      NormalNamesRelativeFixed(q.names);
    }
  }

  /** In a relative normal form every `..` comes before every other name. */
  ghost predicate DotsFirst(ns: seq<string>) {
    forall i, j :: 0 <= i < j < |ns| && ns[j] == ".." ==> ns[i] == ".."
  }

  lemma {:induction false} NormalNamesRelative(done: seq<string>, todo: seq<string>)
    requires forall k :: 0 <= k < |done| ==> done[k] != "."
    requires DotsFirst(done)
    ensures DotsFirst(NormalNames(false, done, todo))
    decreases |todo|
  {
    if |todo| > 0 {
      if todo[0] == "." {
        NormalNamesRelative(done, todo[1..]);
      } else if todo[0] == ".." {
        if |done| > 0 && done[|done| - 1] != ".." {
          NormalNamesRelative(done[..|done| - 1], todo[1..]);
        } else {
          var d := done + [".."];
          assert forall i :: 0 <= i < |done| ==> done[i] == ".." by {
            forall i | 0 <= i < |done| ensures done[i] == ".." {
              assert done[|done| - 1] == "..";
            }
          }
          NormalNamesRelative(d, todo[1..]);
        }
      } else {
        NormalNamesRelative(done + [todo[0]], todo[1..]);
      }
    }
  }

  /** A relative name list without `.` whose `..` all come first is left unchanged. */
  lemma {:induction false} NormalNamesRelativeFixed(ns: seq<string>)
    requires forall k :: 0 <= k < |ns| ==> ns[k] != "."
    requires DotsFirst(ns)
    ensures NormalNames(false, [], ns) == ns
  {
    var n := 0;
    while n < |ns| && ns[n] == ".."
      invariant 0 <= n <= |ns|
      invariant forall k :: 0 <= k < n ==> ns[k] == ".."
      invariant NormalNames(false, [], ns) == NormalNames(false, ns[..n], ns[n..])
    {
      assert ns[..n + 1] == ns[..n] + [".."];
      assert ns[n..][1..] == ns[n + 1..];
      n := n + 1;
    }
    assert forall k :: n <= k < |ns| ==> ns[k] != "..";
    NormalNamesPlain(false, ns[..n], ns[n..]);
    assert ns[..n] + ns[n..] == ns;
  }
}
