/** The search for the ngen logging configuration: the results directory first, then its
    parents one by one. */
module ConfigSearch {
  import opened Options

  const CONFIG_NAME := "ngen_logging.json"

  function JoinPath(a: string, b: string): string {
    if a == [] then b
    else if b == [] then a
    else if a[|a| - 1] == '/' then a + b
    else a + "/" + b
  }

  /** One slash between the two, unless the first brings it along. */
  lemma JoinPathIs(a: string, b: string)
    ensures a == [] || b == [] ==> JoinPath(a, b) == a + b
    ensures a != [] && b != [] && !("/" == a[|a| - 1..]) ==> JoinPath(a, b) == a + ("/" + b)
    ensures a != [] && "/" == a[|a| - 1..] ==> JoinPath(a, b) == a + b
  {
    if a != [] && b != [] && a[|a| - 1] != '/' { assert a[|a| - 1..][0] != '/'; }
    if a != [] && b != [] && a[|a| - 1] != '/' { assert a + "/" + b == a + ("/" + b); }
  }

  /** Position of the last slash. */
  function LastSlash(path: string): (r: Option<nat>)
    ensures r.Some? ==> r.value < |path| && path[r.value] == '/'
    ensures r.Some? ==> forall i :: r.value < i < |path| ==> path[i] != '/'
    ensures r.None? ==> '/' !in path
  {
    if path == [] then None
    else if path[|path| - 1] == '/' then Some(|path| - 1)
    else LastSlash(path[..|path| - 1])
  }

  function GetParentDirName(path: string): (r: string)
    ensures r == path || |r| < |path|
  {
    var pos := LastSlash(path);
    if path == [] || pos.None? then ""
    else if pos.value == 0 then "/"
    else path[..pos.value]
  }

  /** The directories the search visits, in order. */
  function Chain(path: string): seq<string>
    decreases |path|
  {
    if path == [] then []
    else
      var parent := GetParentDirName(path);
      if parent == [] || parent == path then [path] else [path] + Chain(parent)
  }

  /** The configuration file of the first of some directories that has one. */
  ghost predicate IsFirstConfig(dirs: seq<string>, files: set<string>, config: Option<string>) {
    match config
    case None => forall i :: 0 <= i < |dirs| ==> JoinPath(dirs[i], CONFIG_NAME) !in files
    case Some(c) =>
      exists i :: 0 <= i < |dirs| && c == JoinPath(dirs[i], CONFIG_NAME) && c in files
        && forall j :: 0 <= j < i ==> JoinPath(dirs[j], CONFIG_NAME) !in files
  }

  method FindConfigFileFromPath(start: string, files: set<string>) returns (config: Option<string>)
    ensures IsFirstConfig(Chain(start), files, config)
  {
    var path := start;
    ghost var seen: nat := 0;
    while path != []
      invariant seen <= |Chain(start)| && Chain(start)[seen..] == Chain(path)
      invariant forall j :: 0 <= j < seen ==> JoinPath(Chain(start)[j], CONFIG_NAME) !in files
      decreases |path|
    {
      assert Chain(start)[seen] == Chain(start)[seen..][0] == path;
      var candidate := JoinPath(path, CONFIG_NAME);
      if candidate in files {
        return Some(candidate);
      }
      var parent := GetParentDirName(path);
      if parent == [] || parent == path { break; }
      assert Chain(start)[seen + 1..] == Chain(path)[1..] == Chain(parent);
      path := parent;
      seen := seen + 1;
    }
    assert |Chain(start)[seen..]| == |Chain(path)| <= 1;
    config := None;
  }

  // ---- What the chain is -----------------------------------------------------------------

  /** A directory above or at a path: the path itself, what stands before one of its
      slashes, or the root of an absolute path. */
  ghost predicate IsAncestor(p: string, path: string) {
    p != [] && (p == path || p + "/" <= path || (p == "/" && "/" <= path))
  }

  lemma AncestorStep(p: string, path: string)
    requires path != []
    ensures var parent := GetParentDirName(path);
            IsAncestor(p, path) <==> p == path || (parent != path && IsAncestor(p, parent))
  {
    var pos, parent := LastSlash(path), GetParentDirName(path);
    if p != [] && p + "/" <= path {
      assert path[|p|] == (p + "/")[|p|] == '/';
      assert |p| <= pos.value;
      assert p == path[..|p|];
      if |p| < pos.value { assert parent[..|p| + 1] == path[..|p| + 1] == p + "/"; }
    }
    if pos.Some? && pos.value > 0 {
      assert path[..pos.value + 1] == parent + "/";
      if p + "/" <= parent { assert path[..|p| + 1] == parent[..|p| + 1]; }
    }
  }

  /** The search visits exactly the ancestors of the path. */
  lemma {:induction false} ChainIsAncestors(p: string, path: string)
    ensures p in Chain(path) <==> IsAncestor(p, path)
    decreases |path|
  {
    if path != [] {
      var parent := GetParentDirName(path);
      AncestorStep(p, path);
      if parent != [] && parent != path { ChainIsAncestors(p, parent); }
    }
  }

  /** It visits them deepest first: each is longer than all that follow. */
  lemma {:induction false} ChainDescends(path: string, i: nat, j: nat)
    requires i < j < |Chain(path)|
    ensures |Chain(path)[j]| < |Chain(path)[i]|
    decreases |path|
  {
    var parent := GetParentDirName(path);
    assert Chain(path) == [path] + Chain(parent);
    if i > 0 {
      ChainDescends(parent, i - 1, j - 1);
    } else if j > 1 {
      ChainDescends(parent, 0, j - 1);
      assert Chain(parent)[0] == parent;
    }
  }

  /** Where a directory keeps its configuration. */
  ghost function ConfigAt(dir: string): string
    requires dir != []
  {
    dir + (if dir[|dir| - 1] == '/' then "ngen_logging.json" else "/ngen_logging.json")
  }

  /** The configuration of the longest ancestor that has one; none only if no ancestor has. */
  ghost predicate NearestConfig(path: string, files: set<string>, config: Option<string>) {
    match config
    case None => forall p :: IsAncestor(p, path) ==> ConfigAt(p) !in files
    case Some(c) =>
      c in files
      && (exists d :: IsAncestor(d, path) && c == ConfigAt(d)
                      && forall p :: IsAncestor(p, path) && ConfigAt(p) in files ==> |p| <= |d|)
  }

  lemma ConfigPath(dir: string)
    requires dir != []
    ensures JoinPath(dir, CONFIG_NAME) == ConfigAt(dir)
  {
    assert dir[|dir| - 1] != '/' ==> dir + "/" + CONFIG_NAME == dir + ("/" + CONFIG_NAME);
  }

  /** Together: the first on the chain is the nearest. */
  lemma DeepestConfigWins(path: string, files: set<string>, config: Option<string>)
    requires IsFirstConfig(Chain(path), files, config)
    ensures NearestConfig(path, files, config)
  {
    forall p | IsAncestor(p, path) ensures JoinPath(p, CONFIG_NAME) == ConfigAt(p) { ConfigPath(p); }
    if config.Some? {
      var i :| 0 <= i < |Chain(path)| && config.value == JoinPath(Chain(path)[i], CONFIG_NAME) && config.value in files
               && forall j :: 0 <= j < i ==> JoinPath(Chain(path)[j], CONFIG_NAME) !in files;
      var d := Chain(path)[i];
      ChainIsAncestors(d, path);
      forall p | IsAncestor(p, path) && ConfigAt(p) in files ensures |p| <= |d| {
        FirstIsLongest(path, files, i, p);
      }
      assert IsAncestor(d, path) && config.value == ConfigAt(d);
    } else {
      forall p | IsAncestor(p, path) ensures ConfigAt(p) !in files {
        ChainIsAncestors(p, path);
        var k :| 0 <= k < |Chain(path)| && Chain(path)[k] == p;
      }
    }
  }

  lemma FirstIsLongest(path: string, files: set<string>, i: nat, p: string)
    requires i < |Chain(path)| && forall j :: 0 <= j < i ==> JoinPath(Chain(path)[j], CONFIG_NAME) !in files
    requires IsAncestor(p, path) && JoinPath(p, CONFIG_NAME) in files
    ensures |p| <= |Chain(path)[i]|
  {
    ChainIsAncestors(p, path);
    var k :| 0 <= k < |Chain(path)| && Chain(path)[k] == p;
    if k > i { ChainDescends(path, i, k); }
  }
}
