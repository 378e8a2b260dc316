/** Creating a directory with its parents, as the C runtime does: the path sits in a scratch
    buffer that is cut short at each slash in turn and mended again. */
module Directories {
  import opened Text

  const BUFFER_SIZE := 1024

  // ---- Names ---------------------------------------------------------------------------

  /** The position behind the last slash before position i. */
  function StartBefore(name: string, i: nat): (r: nat)
    requires i <= |name|
    ensures r <= i && (r > 0 ==> name[r - 1] == '/') && forall k :: r <= k < i ==> name[k] != '/'
  {
    if i == 0 || name[i - 1] == '/' then i else StartBefore(name, i - 1)
  }

  /** Where the last component of a name begins: behind its last slash. */
  function LastStart(name: string): (i: nat)
    ensures i <= |name| && (i > 0 ==> name[i - 1] == '/') && forall k :: i <= k < |name| ==> name[k] != '/'
  {
    StartBefore(name, |name|)
  }

  /** The stretches between slashes; repeated and final slashes make no difference. */
  function Components(name: string): seq<string> {
    var i := LastStart(name);
    (if i == 0 then [] else Components(name[..i - 1])) + if i == |name| then [] else [name[i..]]
  }

  lemma FromFront(name: string, front: string, last: string)
    requires var i := LastStart(name); last == name[i..] && front == if i == 0 then "" else name[..i - 1]
    ensures Components(name) == Components(front) + if last == "" then [] else [last]
  {}

  /** A name cut at a slash has the first components of the name. */
  lemma {:induction false} CutComponents(name: string, p: nat)
    requires p < |name| && name[p] == '/'
    ensures Components(name[..p]) <= Components(name)
    decreases |name|
  {
    var i := LastStart(name);
    var front := name[..i - 1];
    FromFront(name, front, name[i..]);
    assert front[..p] == name[..p];
    if p + 1 < i {
      CutComponents(front, p);
    } else {
      assert front == name[..p];
    }
  }

  // ---- The file system --------------------------------------------------------------------

  datatype Kind = Directory | File

  datatype MkdirResult = Made | AlreadyThere | Refused

  /** What there is, by the components from the root on. */
  type Tree = map<seq<string>, Kind>

  function Parent(at: seq<string>): seq<string>
    requires at != []
  {
    at[..|at| - 1]
  }

  predicate InDirectory(tree: Tree, at: seq<string>) {
    at == [] || (Parent(at) in tree && tree[Parent(at)] == Directory)
  }

  /** The root is a directory, and everything else is in one. */
  ghost predicate WellFormed(tree: Tree) {
    [] in tree && tree[[]] == Directory
    && forall at {:trigger InDirectory(tree, at)} :: at in tree ==> InDirectory(tree, at)
  }

  lemma {:induction false} Ancestors(tree: Tree, at: seq<string>, k: nat)
    requires WellFormed(tree) && at in tree && k < |at|
    ensures at[..k] in tree && tree[at[..k]] == Directory
    decreases |at|
  {
    assert InDirectory(tree, at);
    if k < |at| - 1 {
      Ancestors(tree, Parent(at), k);
      assert Parent(at)[..k] == at[..k];
    } else {
      assert Parent(at) == at[..k];
    }
  }

  /** A file system as a process sees it from its working directory. Beside what the tree
      forbids, the operating system may refuse to make certain entries. */
  class FileSystem {
    var tree: Tree
    const cwd: seq<string>
    const refused: set<seq<string>>

    ghost predicate Valid()
      reads this
    {
      WellFormed(tree) && cwd in tree && tree[cwd] == Directory
    }

    /** The directory a name starts from. */
    function Base(name: string): seq<string> {
      if name != [] && name[0] == '/' then [] else cwd
    }

    function Resolve(name: string): seq<string> { Base(name) + Components(name) }

    predicate DirExists(name: string)
      reads this
    {
      name != [] && Resolve(name) in tree && tree[Resolve(name)] == Directory
    }

    /** Fails for the empty name, and for a name whose parent is missing or a plain file. */
    method Mkdir(name: string) returns (r: MkdirResult)
      requires Valid()
      modifies this
      ensures Valid()
      ensures var at := Resolve(name);
              && (r == Made <==> name != [] && InDirectory(old(tree), at) && at !in old(tree) && at !in refused)
              && (r == AlreadyThere <==> name != [] && InDirectory(old(tree), at) && at in old(tree))
              && tree == if r == Made then old(tree)[at := Directory] else old(tree)
    {
      var at := Resolve(name);
      if name == [] || !InDirectory(tree, at) { return Refused; }
      if at in tree { return AlreadyThere; }
      if at in refused { return Refused; }
      AddDirectory(tree, at);
      tree := tree[at := Directory];
      r := Made;
    }

    constructor (tree: Tree, cwd: seq<string>, refused: set<seq<string>>)
      requires WellFormed(tree) && cwd in tree && tree[cwd] == Directory
      ensures Valid() && this.tree == tree && this.cwd == cwd && this.refused == refused
    {
      this.tree, this.cwd, this.refused := tree, cwd, refused;
    }
  }

  lemma AddDirectory(tree: Tree, at: seq<string>)
    requires WellFormed(tree) && at !in tree && InDirectory(tree, at)
    ensures WellFormed(tree[at := Directory])
  {
    var grown := tree[at := Directory];
    forall x {:trigger InDirectory(grown, x)} | x in grown ensures InDirectory(grown, x) {
      assert InDirectory(tree, x);
    }
  }

  // ---- What a path asks for ------------------------------------------------------------------

  /** An entry that cannot be had as things stand, its ancestors apart: it is missing and the
      operating system refuses it, or it would be below a plain file. */
  ghost predicate Blocked(tree: Tree, refused: set<seq<string>>, at: seq<string>) {
    (at !in tree && at in refused) || (at != [] && Parent(at) in tree && tree[Parent(at)] == File)
  }

  /** No entry on the way from the root to depth k is blocked. */
  ghost predicate Clear(tree: Tree, refused: set<seq<string>>, at: seq<string>, k: nat)
    requires k <= |at|
  {
    forall j {:trigger Blocked(tree, refused, at[..j])} :: 0 <= j <= k ==> !Blocked(tree, refused, at[..j])
  }

  /** The tree with directories added down to depth k of a place. */
  ghost predicate Grown(before: Tree, after: Tree, at: seq<string>, k: nat) {
    && (forall x :: x in after <==> x in before || (x <= at && |x| <= k))
    && (forall x :: x in after ==> after[x] == if x in before then before[x] else Directory)
  }

  /** Made down to depth k, and nothing so far was blocked. */
  ghost predicate MadeTo(before: Tree, after: Tree, refused: set<seq<string>>, at: seq<string>, k: nat) {
    k <= |at| && Grown(before, after, at, k) && Clear(before, refused, at, k)
  }

  lemma StartsMade(tree: Tree, refused: set<seq<string>>, base: seq<string>, at: seq<string>)
    requires WellFormed(tree) && base in tree && tree[base] == Directory && base <= at
    ensures MadeTo(tree, tree, refused, at, |base|)
  {
    forall j | 0 <= j <= |base| ensures at[..j] in tree && tree[at[..j]] == Directory {
      assert at[..j] == base[..j];
      if j < |base| { Ancestors(tree, base, j); } else { assert base[..j] == base; }
    }
    forall j | 0 <= j <= |base| ensures !Blocked(tree, refused, at[..j]) {
      if j > 0 { assert Parent(at[..j]) == at[..j - 1]; }
    }
    forall x | x <= at && |x| <= |base| ensures x in tree { assert x == at[..|x|]; }
  }

  /** The directories on the way to a place were made as far as nothing is blocked, and nothing
      else was. */
  ghost predicate MadeUntilBlocked(before: Tree, after: Tree, refused: set<seq<string>>, at: seq<string>) {
    && (forall x :: x in after <==> x in before || (x <= at && Clear(before, refused, at, |x|)))
    && (forall x :: x in after ==> after[x] == if x in before then before[x] else Directory)
  }

  // ---- The program ---------------------------------------------------------------------------

  /** The text in a buffer, up to its first NUL. */
  function CString(buf: seq<char>): string {
    if buf == [] || buf[0] == NUL then [] else [buf[0]] + CString(buf[1..])
  }

  lemma {:induction false} CStringTo(buf: seq<char>, k: nat)
    requires k < |buf| && buf[k] == NUL && forall i :: 0 <= i < k ==> buf[i] != NUL
    ensures CString(buf) == buf[..k]
  {
    if k > 0 {
      CStringTo(buf[1..], k - 1);
      assert buf[..k] == [buf[0]] + buf[1..][..k - 1];
    }
  }

  /** What fits the buffer, less one final slash. */
  function Target(path: string): string {
    var t := if |path| < BUFFER_SIZE then path else path[..BUFFER_SIZE - 1];
    if t != [] && t[|t| - 1] == '/' then t[..|t| - 1] else t
  }

  /** Makes one directory unless it is there; a plain file there counts as success. */
  method Ensure(name: string, fs: FileSystem) returns (ok: bool)
    requires fs.Valid()
    modifies fs
    ensures fs.Valid()
    ensures var at := fs.Resolve(name);
            && (ok <==> name != [] && InDirectory(old(fs.tree), at) && (at in old(fs.tree) || at !in fs.refused))
            && fs.tree == if ok && at !in old(fs.tree) then old(fs.tree)[at := Directory] else old(fs.tree)
  {
    ghost var at := fs.Resolve(name);
    assert InDirectory(fs.tree, at) || at !in fs.tree;
    if !fs.DirExists(name) {
      var r := fs.Mkdir(name);
      if r == Refused { return false; }
    }
    return true;
  }

  /** What `Ensure` has done to the entry at depth m of a place, when all above it was made. */
  lemma Ensured(before: Tree, was: Tree, now: Tree, refused: set<seq<string>>, at: seq<string>, k: nat, m: nat,
                ok: bool)
    requires WellFormed(was) && MadeTo(before, was, refused, at, k)
    requires m <= |at| && (m == k || m == k + 1)
    requires ok <==> InDirectory(was, at[..m]) && (at[..m] in was || at[..m] !in refused)
    requires now == if ok && at[..m] !in was then was[at[..m] := Directory] else was
    ensures ok ==> MadeTo(before, now, refused, at, m)
    ensures !ok ==> !Clear(before, refused, at, |at|) && MadeUntilBlocked(before, now, refused, at)
  {
    assert m > 0 ==> Parent(at[..m]) == at[..m - 1];
    assert m > 0 ==> at[..m - 1] in was;
    if ok { GrownFurther(before, was, now, at, k, m); } else { StoppedAt(before, now, refused, at, k); }
  }

  lemma GrownFurther(before: Tree, was: Tree, now: Tree, at: seq<string>, k: nat, m: nat)
    requires m <= |at| && (m == k || m == k + 1) && Grown(before, was, at, k)
    requires now == if at[..m] !in was then was[at[..m] := Directory] else was
    ensures Grown(before, now, at, m)
  {
    forall x ensures x <= at && |x| == m <==> x == at[..m] {}
  }

  /** Holds `t` and a NUL behind it, and a second NUL when `t` is empty. */
  ghost predicate Holds(tmp: array<char>, t: string)
    reads tmp
  {
    tmp.Length == BUFFER_SIZE && |t| < BUFFER_SIZE && NUL !in t
    && (forall i :: 0 <= i < |t| ==> tmp[i] == t[i]) && tmp[|t|] == NUL && (t == [] ==> tmp[1] == NUL)
  }

  method FillBuffer(path: string) returns (tmp: array<char>)
    requires path != [] && NUL !in path
    ensures fresh(tmp) && Holds(tmp, Target(path))
  {
    tmp := new char[BUFFER_SIZE];
    var len := if |path| < BUFFER_SIZE then |path| else BUFFER_SIZE - 1;
    forall i | 0 <= i < len { tmp[i] := path[i]; }
    tmp[len] := NUL;
    if tmp[len - 1] == '/' { tmp[len - 1] := NUL; }
  }

  /** How many components stand in front of the one a text ends in. */
  ghost function CompleteComponents(s: string): nat {
    var i := LastStart(s);
    if i == 0 then 0 else |Components(s[..i - 1])|
  }

  lemma ComponentCount(s: string)
    ensures CompleteComponents(s) <= |Components(s)| <= CompleteComponents(s) + 1
  {}

  lemma NextStart(t: string, p: nat)
    requires p < |t|
    ensures LastStart(t[..p + 1]) == if t[p] == '/' then p + 1 else LastStart(t[..p])
  {
    assert t[..p + 1][..p] == t[..p];
  }

  lemma NextCharacter(t: string, p: nat)
    requires p < |t|
    ensures CompleteComponents(t[..p + 1])
            == if t[p] == '/' then |Components(t[..p])| else CompleteComponents(t[..p])
  {
    NextStart(t, p);
    var i := LastStart(t[..p + 1]);
    if i > 0 { assert t[..p + 1][..i - 1] == t[..i - 1]; }
    if t[p] != '/' && i > 0 { assert t[..p][..i - 1] == t[..i - 1]; }
  }

  /** How deep a path has been made when the loop looks at position p of it. */
  ghost function DepthAt(fs: FileSystem, t: string, p: nat): nat
  {
    |fs.Base(t)| + if p < |t| then CompleteComponents(t[..p]) else CompleteComponents(t)
  }

  lemma NextDepth(fs: FileSystem, t: string, p: nat)
    requires 1 <= p < |t|
    ensures DepthAt(fs, t, p + 1) == if t[p] == '/' then |fs.Resolve(t[..p])| else DepthAt(fs, t, p)
    ensures DepthAt(fs, t, p) <= |fs.Resolve(t[..p])| <= DepthAt(fs, t, p) + 1
  {
    assert t[..p][0] == t[0] && t[..|t|] == t;
    NextCharacter(t, p);
    ComponentCount(t[..p]);
  }

  lemma StartDepth(fs: FileSystem, t: string)
    requires fs.Valid()
    ensures MadeTo(fs.tree, fs.tree, fs.refused, fs.Resolve(t), DepthAt(fs, t, 1))
  {
    if t != [] {
      NextCharacter(t, 0);
      assert t[..|t|] == t;
    }
    StartsMade(fs.tree, fs.refused, fs.Base(t), fs.Resolve(t));
  }

  ghost predicate AllDirectories(tree: Tree, at: seq<string>) {
    forall j :: 0 <= j <= |at| ==> at[..j] in tree && tree[at[..j]] == Directory
  }

  ghost predicate IsFile(tree: Tree, at: seq<string>) { at in tree && tree[at] == File }

  /** A blocked entry stops everything below it. */
  lemma StoppedAt(before: Tree, after: Tree, refused: set<seq<string>>, at: seq<string>, k: nat)
    requires MadeTo(before, after, refused, at, k) && k < |at| && Blocked(before, refused, at[..k + 1])
    ensures !Clear(before, refused, at, |at|)
    ensures MadeUntilBlocked(before, after, refused, at)
  {
    forall x | x <= at ensures Clear(before, refused, at, |x|) <==> |x| <= k {
      if |x| > k { assert !Clear(before, refused, at, |x|) by { assert Blocked(before, refused, at[..k + 1]); } }
    }
  }

  lemma AllMade(before: Tree, after: Tree, refused: set<seq<string>>, at: seq<string>)
    requires MadeTo(before, after, refused, at, |at|)
    ensures MadeUntilBlocked(before, after, refused, at)
    ensures AllDirectories(after, at) <==> !IsFile(before, at)
  {
    forall j | 0 <= j < |at| ensures at[..j] in after && after[at[..j]] == Directory {
      assert at[..j] <= at && Parent(at[..j + 1]) == at[..j];
      assert !Blocked(before, refused, at[..j + 1]);
    }
    assert at[..|at|] == at;
  }

  lemma CutResolves(fs: FileSystem, t: string, p: nat)
    requires 1 <= p < |t| && t[p] == '/'
    ensures t[..p] != [] && fs.Base(t[..p]) == fs.Base(t)
    ensures var m := |fs.Resolve(t[..p])|; m <= |fs.Resolve(t)| && fs.Resolve(t[..p]) == fs.Resolve(t)[..m]
  {
    assert t[..p][0] == t[0];
    CutComponents(t, p);
  }

  /** The name in the buffer when it is cut at k. */
  method NameIn(tmp: array<char>, ghost t: string, ghost k: nat) returns (name: string)
    requires k < tmp.Length && k <= |t| && tmp[k] == NUL && NUL !in t
    requires forall i :: 0 <= i < k ==> tmp[i] == t[i]
    ensures name == t[..k]
  {
    name := CString(tmp[..]);
    CStringTo(tmp[..], k);
    assert tmp[..][..k] == t[..k];
  }

  /** Cuts the buffer at a slash, makes the directory named before it, and mends the cut. */
  method EnsurePrefix(tmp: array<char>, ghost t: string, p: nat, fs: FileSystem, ghost before: Tree)
    returns (made: bool)
    requires Holds(tmp, t) && fs.Valid() && 1 <= p < |t| && t[p] == '/'
    requires MadeTo(before, fs.tree, fs.refused, fs.Resolve(t), DepthAt(fs, t, p))
    modifies tmp, fs
    ensures fs.Valid()
    ensures made ==> Holds(tmp, t) && MadeTo(before, fs.tree, fs.refused, fs.Resolve(t), DepthAt(fs, t, p + 1))
    ensures !made ==> !Clear(before, fs.refused, fs.Resolve(t), |fs.Resolve(t)|)
                      && MadeUntilBlocked(before, fs.tree, fs.refused, fs.Resolve(t))
  {
    tmp[p] := NUL;
    var name := NameIn(tmp, t, p);
    ghost var was, at := fs.tree, fs.Resolve(t);
    CutResolves(fs, t, p);
    made := Ensure(name, fs);
    NextDepth(fs, t, p);
    Ensured(before, was, fs.tree, fs.refused, at, DepthAt(fs, t, p), |fs.Resolve(name)|, made);
    if !made { return false; }
    tmp[p] := '/';
  }

  /** What the last `Ensure` has done. */
  lemma Finished(before: Tree, was: Tree, now: Tree, refused: set<seq<string>>, at: seq<string>, k: nat, ok: bool)
    requires WellFormed(was) && MadeTo(before, was, refused, at, k) && (|at| == k || |at| == k + 1)
    requires ok <==> InDirectory(was, at) && (at in was || at !in refused)
    requires now == if ok && at !in was then was[at := Directory] else was
    ensures ok <==> Clear(before, refused, at, |at|)
    ensures MadeUntilBlocked(before, now, refused, at)
    ensures ok ==> (AllDirectories(now, at) <==> !IsFile(before, at))
  {
    assert at[..|at|] == at;
    Ensured(before, was, now, refused, at, k, |at|, ok);
    if ok { AllMade(before, now, refused, at); }
  }

  /** The body of the loop: nothing happens but at a slash. */
  method VisitCharacter(tmp: array<char>, ghost t: string, p: nat, fs: FileSystem, ghost before: Tree)
    returns (made: bool)
    requires Holds(tmp, t) && fs.Valid() && 1 <= p < |t|
    requires MadeTo(before, fs.tree, fs.refused, fs.Resolve(t), DepthAt(fs, t, p))
    modifies tmp, fs
    ensures fs.Valid()
    ensures made ==> Holds(tmp, t) && MadeTo(before, fs.tree, fs.refused, fs.Resolve(t), DepthAt(fs, t, p + 1))
    ensures !made ==> !Clear(before, fs.refused, fs.Resolve(t), |fs.Resolve(t)|)
                      && MadeUntilBlocked(before, fs.tree, fs.refused, fs.Resolve(t))
  {
    made := true;
    if tmp[p] == '/' {
      made := EnsurePrefix(tmp, t, p, fs, before);
    } else {
      NextDepth(fs, t, p);
    }
  }

  lemma ReachedEnd(fs: FileSystem, tmp: array<char>, t: string, p: nat)
    requires Holds(tmp, t) && p < BUFFER_SIZE && tmp[p] == NUL
    ensures DepthAt(fs, t, p) <= |fs.Resolve(t)| <= DepthAt(fs, t, p) + 1
  {
    ComponentCount(t);
  }

  /** The loop over the slashes of a path; false if a directory before one cannot be had. */
  method EnsurePrefixes(tmp: array<char>, ghost t: string, fs: FileSystem) returns (ok: bool, ghost depth: nat)
    requires Holds(tmp, t) && fs.Valid()
    modifies tmp, fs
    ensures fs.Valid() && (ok ==> Holds(tmp, t))
    ensures t == [] ==> ok && fs.tree == old(fs.tree)
    ensures ok ==> MadeTo(old(fs.tree), fs.tree, fs.refused, fs.Resolve(t), depth)
    ensures ok ==> depth <= |fs.Resolve(t)| <= depth + 1
    ensures !ok ==> !Clear(old(fs.tree), fs.refused, fs.Resolve(t), |fs.Resolve(t)|)
                    && MadeUntilBlocked(old(fs.tree), fs.tree, fs.refused, fs.Resolve(t))
  {
    ghost var before := fs.tree;
    assert MadeTo(before, fs.tree, fs.refused, fs.Resolve(t), DepthAt(fs, t, 1)) by { StartDepth(fs, t); }
    var p := 1;
    while tmp[p] != NUL
      invariant Holds(tmp, t) && fs.Valid()
      invariant 1 <= p <= |t| || (t == [] && p == 1 && fs.tree == before)
      invariant MadeTo(before, fs.tree, fs.refused, fs.Resolve(t), DepthAt(fs, t, p))
      decreases |t| - p
    {
      var made := VisitCharacter(tmp, t, p, fs, before);
      if !made { return false, 0; }
      p := p + 1;
    }
    ReachedEnd(fs, tmp, t, p);
    ok, depth := true, DepthAt(fs, t, p);
  }

  /** Succeeds exactly when the path is not empty and nothing on its way is blocked; either way
      just the directories down to the first blocked entry are made. Success leaves
      directories all the way exactly if the path itself was not a plain file. */
  method MkdirP(path: string, fs: FileSystem) returns (ok: bool)
    requires NUL !in path && fs.Valid()
    modifies fs
    ensures fs.Valid()
    ensures var at := fs.Resolve(Target(path));
            ok <==> Target(path) != [] && Clear(old(fs.tree), fs.refused, at, |at|)
    ensures if Target(path) == [] then fs.tree == old(fs.tree)
            else MadeUntilBlocked(old(fs.tree), fs.tree, fs.refused, fs.Resolve(Target(path)))
    ensures ok ==> var at := fs.Resolve(Target(path));
                   AllDirectories(fs.tree, at) <==> !IsFile(old(fs.tree), at)
  {
    if path == [] { return false; }
    ghost var t, at, before := Target(path), fs.Resolve(Target(path)), fs.tree;
    var tmp := FillBuffer(path);
    var prefixes, depth := EnsurePrefixes(tmp, t, fs);
    if !prefixes { return false; }
    var name := NameIn(tmp, t, |t|);
    assert name == t;
    ghost var was := fs.tree;
    ok := Ensure(name, fs);
    if t != [] {
      Finished(before, was, fs.tree, fs.refused, at, depth, ok);
    }
  }

  /** The root itself is refused: its one slash is taken for a final slash and dropped. */
  method RootFails(fs: FileSystem) returns (ok: bool)
    requires fs.Valid()
    modifies fs
    ensures !ok && fs.tree == old(fs.tree)
  {
    assert Target("/") == "";
    ok := MkdirP("/", fs);
  }

  // ---- A plain file in the way ------------------------------------------------------------

  lemma ExistingIsClear(tree: Tree, refused: set<seq<string>>, at: seq<string>)
    requires WellFormed(tree) && at in tree
    ensures Clear(tree, refused, at, |at|)
  {
    forall j | 0 <= j <= |at| ensures !Blocked(tree, refused, at[..j]) {
      if j < |at| { Ancestors(tree, at, j); } else { assert at[..j] == at; }
      if j > 0 {
        Ancestors(tree, at, j - 1);
        assert Parent(at[..j]) == at[..j - 1];
      }
    }
  }

  /** Making what is there already, be it a plain file, succeeds and changes nothing. */
  method ExistingCountsAsMade(path: string, fs: FileSystem) returns (ok: bool)
    requires NUL !in path && fs.Valid() && Target(path) != [] && fs.Resolve(Target(path)) in fs.tree
    modifies fs
    ensures ok && fs.tree == old(fs.tree)
  {
    ghost var at, before := fs.Resolve(Target(path)), fs.tree;
    ExistingIsClear(before, fs.refused, at);
    ok := MkdirP(path, fs);
    forall x | x <= at ensures x in before {
      assert x == at[..|x|];
      if |x| < |at| { Ancestors(before, at, |x|); } else { assert x == at; }
    }
  }

  /** Making anything below a plain file fails and changes nothing. */
  method NothingBelowAFile(path: string, fs: FileSystem, ghost k: nat) returns (ok: bool)
    requires NUL !in path && fs.Valid() && Target(path) != []
    requires k < |fs.Resolve(Target(path))| && IsFile(fs.tree, fs.Resolve(Target(path))[..k])
    modifies fs
    ensures !ok && fs.tree == old(fs.tree)
  {
    ghost var at, before := fs.Resolve(Target(path)), fs.tree;
    assert Parent(at[..k + 1]) == at[..k];
    assert Blocked(before, fs.refused, at[..k + 1]);
    ok := MkdirP(path, fs);
    forall x | x <= at && Clear(before, fs.refused, at, |x|) ensures x in before {
      assert |x| <= k && x == at[..k][..|x|];
      if |x| < k { Ancestors(before, at[..k], |x|); } else { assert x == at[..k]; }
    }
  }

  /** For instance, where "f" is a plain file in the working directory, making "f" succeeds and
      leaves it one, and making "f/x" fails. */
  method FileInTheWay(fs: FileSystem) returns (f: bool, fx: bool)
    requires fs.Valid() && fs.cwd == [] && IsFile(fs.tree, ["f"])
    modifies fs
    ensures f && !fx && IsFile(fs.tree, ["f"])
  {
    ShortNames(fs);
    assert ["f", "x"][..1] == ["f"];
    f := ExistingCountsAsMade("f", fs);
    fx := NothingBelowAFile("f/x", fs, 1);
  }

  lemma ShortNames(fs: FileSystem)
    requires fs.cwd == []
    ensures Target("f") != [] && fs.Resolve(Target("f")) == ["f"]
    ensures Target("f/x") != [] && fs.Resolve(Target("f/x")) == ["f", "x"]
  {
    assert LastStart("") == 0;
    assert "f"[..0] == "" && "f"[0..] == "f";
    assert LastStart("f") == 0;
    var p := "f/x";
    assert p[..2] == "f/" && p[2..] == "x" && p[..1] == "f";
    assert LastStart("f/") == 2;
    assert LastStart(p) == 2;
  }

  // ---- What a path names ------------------------------------------------------------------

  /** A path is taken as it is but for one final slash, as far as its first 1023 characters. */
  lemma TargetIs(path: string)
    ensures |path| <= 1023 && (path == "" || path[|path| - 1] != '/') ==> Target(path) == path
    ensures |path| <= 1022 ==> Target(path + "/") == path
    ensures |path| > 1023 ==> Target(path) == Target(path[..1023])
  {
    if |path| <= 1022 { assert (path + "/")[..|path|] == path; }
    if |path| > 1023 { assert |path[..1023]| == 1023; }
  }

  /** An absolute name starts from the root, any other from the working directory. */
  lemma ResolveIs(fs: FileSystem, name: string)
    ensures name == "" || name[0] != '/' ==> fs.Resolve(name) == fs.cwd + Components(name)
    ensures fs.Resolve("/" + name) == Components(name)
  {
    ComponentsAre("", name);
    OneComponent("");
    assert "" + "/" + name == "/" + name;
  }

  /** A name without a slash is a component. */
  lemma OneComponent(name: string)
    requires '/' !in name
    ensures Components(name) == if name == "" then [] else [name]
  {
    var i := LastStart(name);
    assert forall k :: 0 <= k < |name| ==> name[k] != '/';
    assert name[0..] == name;
  }

  /** Slashes separate components. */
  lemma {:induction false} ComponentsAre(a: string, b: string)
    ensures Components(a + "/" + b) == Components(a) + Components(b)
    decreases |b|
  {
    var i := LastStart(b);
    StartInSuffix(a, b);
    FrontOfJoined(a, b, i);
    if i == 0 {
      FromFront(a + "/" + b, a, b[i..]);
      FromFront(b, "", b[i..]);
    } else {
      ComponentsAre(a, b[..i - 1]);
      LastAppended(a, b, b[..i - 1], b[i..]);
    }
  }

  lemma LastAppended(a: string, b: string, front: string, last: string)
    requires Components(a + "/" + front) == Components(a) + Components(front)
    requires LastStart(b) > 0 && front == b[..LastStart(b) - 1] && last == b[LastStart(b)..]
    ensures Components(a + "/" + b) == Components(a) + Components(b)
  {
    var one := if last == "" then [] else [last];
    StartInSuffix(a, b);
    FrontOfJoined(a, b, LastStart(b));
    assert Components(a + "/" + b) == Components(a + "/" + front) + one by {
      FromFront(a + "/" + b, a + "/" + front, last);
    }
    assert Components(b) == Components(front) + one by { FromFront(b, front, last); }
    Regroup(Components(a), Components(front), one);
  }

  lemma FrontOfJoined(a: string, b: string, i: nat)
    requires i <= |b|
    ensures var name := a + "/" + b;
            name[..|a| + i] == (if i == 0 then a else a + "/" + b[..i - 1]) && name[|a| + 1 + i..] == b[i..]
  {}

  lemma StartInSuffix(a: string, b: string)
    ensures LastStart(a + "/" + b) == |a| + 1 + LastStart(b)
  {
    var name := a + "/" + b;
    assert name[|a|] == '/';
    assert forall k :: 0 <= k < |b| ==> name[|a| + 1 + k] == b[k];
  }
}
