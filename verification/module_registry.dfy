/** The module registry and the lookups generated from it for each language. A registry is
    any list of entries; the tables compiled into the runtimes are instances. */
module ModuleRegistry {
  import opened Options
  import opened Text

  datatype Module = Module(key: string, ewtsId: string, description: string)

  type Registry = seq<Module>

  ghost predicate UniqueKeys(r: Registry) {
    forall i, j :: 0 <= i < j < |r| ==> r[i].key != r[j].key
  }

  // ---- What the lookups mean -----------------------------------------------------------

  /** The entries of an id, in registry order. */
  function Matches(r: Registry, id: string): seq<Module> {
    if r == [] then []
    else (if r[0].ewtsId == id then [r[0]] else []) + Matches(r[1..], id)
  }

  function Keys(ms: seq<Module>): (ks: seq<string>)
    ensures |ks| == |ms|
    ensures forall i :: 0 <= i < |ms| ==> ks[i] == ms[i].key
  {
    seq(|ms|, i requires 0 <= i < |ms| => ms[i].key)
  }

  function KeysOf(r: Registry, id: string): seq<string> { Keys(Matches(r, id)) }

  lemma {:induction false} MatchesSnoc(r: Registry, m: Module, id: string)
    ensures Matches(r + [m], id) == Matches(r, id) + (if m.ewtsId == id then [m] else [])
  {
    if r == [] {
      assert r + [m] == [m];
    } else {
      var s := r + [m];
      assert s[0] == r[0] && s[1..] == r[1..] + [m];
      MatchesSnoc(r[1..], m, id);
      Regroup(if r[0].ewtsId == id then [r[0]] else [], Matches(r[1..], id), if m.ewtsId == id then [m] else []);
    }
  }

  lemma MatchesPrefix(r: Registry, i: nat, id: string)
    requires i < |r|
    ensures Matches(r[..i + 1], id) == Matches(r[..i], id) + (if r[i].ewtsId == id then [r[i]] else [])
  {
    assert r[..i + 1] == r[..i] + [r[i]];
    MatchesSnoc(r[..i], r[i], id);
  }

  lemma KeysPrefix(r: Registry, i: nat, id: string)
    requires i < |r|
    ensures KeysOf(r[..i + 1], id) == KeysOf(r[..i], id) + (if r[i].ewtsId == id then [r[i].key] else [])
  {
    MatchesPrefix(r, i, id);
  }

  lemma {:induction false} MatchesAre(r: Registry, id: string)
    ensures forall m :: m in Matches(r, id) <==> m in r && m.ewtsId == id
  {
    if r != [] {
      MatchesAre(r[1..], id);
      assert r == [r[0]] + r[1..];
    }
  }

  /** The first entry with an id comes first among its matches. */
  lemma {:induction false} NoEntry(r: Registry, id: string)
    requires forall i :: 0 <= i < |r| ==> r[i].ewtsId != id
    ensures Matches(r, id) == []
  {
    if r != [] { NoEntry(r[1..], id); }
  }

  lemma {:induction false} FirstEntry(r: Registry, id: string, i: nat)
    requires i < |r| && r[i].ewtsId == id && forall j :: 0 <= j < i ==> r[j].ewtsId != id
    ensures Matches(r, id) != [] && Matches(r, id)[0] == r[i]
  {
    if i > 0 { FirstEntry(r[1..], id, i - 1); }
  }

  // ---- The scans of C, C++ and Fortran ----------------------------------------------------

  /** First entry with a key. */
  method IdFromKey(r: Registry, key: string) returns (id: Option<string>)
    ensures id.Some? ==> exists i :: 0 <= i < |r| && r[i].key == key && r[i].ewtsId == id.value
                           && forall j :: 0 <= j < i ==> r[j].key != key
    ensures id.None? <==> forall i :: 0 <= i < |r| ==> r[i].key != key
  {
    for i := 0 to |r|
      invariant forall j :: 0 <= j < i ==> r[j].key != key
    {
      if r[i].key == key { return Some(r[i].ewtsId); }
    }
    return None;
  }

  /** First entry with an id. */
  method FirstKeyFromId(r: Registry, id: string) returns (key: Option<string>)
    ensures key == if KeysOf(r, id) == [] then None else Some(KeysOf(r, id)[0])
  {
    for i := 0 to |r|
      invariant Matches(r[..i], id) == []
    {
      MatchesPrefix(r, i, id);
      if r[i].ewtsId == id {
        MatchesOfPrefix(r, i + 1, id);
        return Some(r[i].key);
      }
    }
    assert r[..|r|] == r;
    return None;
  }

  lemma {:induction false} MatchesOfPrefix(r: Registry, i: nat, id: string)
    requires i <= |r|
    ensures Matches(r[..i], id) <= Matches(r, id)
    decreases |r| - i
  {
    if i == |r| {
      assert r[..i] == r;
    } else {
      MatchesPrefix(r, i, id);
      MatchesOfPrefix(r, i + 1, id);
    }
  }

  /** C++: a growing vector. */
  method KeysFromId(r: Registry, id: string) returns (out: seq<string>)
    ensures out == KeysOf(r, id)
  {
    out := [];
    for i := 0 to |r|
      invariant out == KeysOf(r[..i], id)
    {
      MatchesPrefix(r, i, id);
      if r[i].ewtsId == id { out := out + [r[i].key]; }
    }
    assert r[..|r|] == r;
  }

  /** A buffer with as many of the keys as fit stored over its front. */
  ghost predicate Filled(now: seq<string>, before: seq<string>, ks: seq<string>, max: nat) {
    && |now| == |before|
    && forall j :: 0 <= j < |now| ==> now[j] == if j < |ks| && j < max then ks[j] else before[j]
  }

  /** C: counts every match but stores only what fits; a null buffer only counts. */
  method KeysIntoBuffer(r: Registry, id: string, out: array?<string>, max: nat) returns (n: nat)
    requires out != null ==> max <= out.Length
    modifies out
    ensures n == |KeysOf(r, id)|
    ensures out != null ==> Filled(out[..], old(out[..]), KeysOf(r, id), max)
  {
    n := 0;
    ghost var ks: seq<string> := [];
    for i := 0 to |r|
      invariant ks == KeysOf(r[..i], id) && n == |ks|
      invariant out != null ==>
                  forall j :: 0 <= j < out.Length ==> out[j] == if j < n && j < max then ks[j] else old(out[j])
    {
      MatchesPrefix(r, i, id);
      if r[i].ewtsId == id {
        if out != null && n < max {
          out[n] := r[i].key;
        }
        ks := ks + [r[i].key];
        n := n + 1;
      }
      assert ks == KeysOf(r[..i + 1], id);
    }
    assert r[..|r|] == r;
  }

  /** Fortran's `trim`: the blanks that pad a text to its declared length come off. */
  function FortranTrim(s: string): string { StripRight(s, IS_BLANK) }

  /** Assignment to a variable of a declared length: padded with blanks, or cut. */
  function FitTo(s: string, width: nat): (r: string)
    ensures |r| == width && forall i :: 0 <= i < width ==> r[i] == if i < |s| then s[i] else ' '
  {
    if |s| >= width then s[..width] else s + seq(width - |s|, _ => ' ')
  }

  function FitAll(ks: seq<string>, width: nat): (r: seq<string>)
    ensures |r| == |ks| && forall i :: 0 <= i < |ks| ==> r[i] == FitTo(ks[i], width)
  {
    seq(|ks|, i requires 0 <= i < |ks| => FitTo(ks[i], width))
  }

  /** A table of padded texts as it reads without the padding. */
  function Unpadded(r: Registry): (t: Registry)
    ensures |t| == |r|
    ensures forall i :: 0 <= i < |r| ==>
              t[i] == Module(FortranTrim(r[i].key), FortranTrim(r[i].ewtsId), r[i].description)
  {
    seq(|r|, i requires 0 <= i < |r| => Module(FortranTrim(r[i].key), FortranTrim(r[i].ewtsId), r[i].description))
  }

  lemma TrimFit(s: string, width: nat)
    requires FortranTrim(s) == s && |s| <= width
    ensures FortranTrim(FitTo(s, width)) == s
  {
    var r := FitTo(s, width);
    StripRightIff(r, IS_BLANK, |s|);
    StripRightIff(s, IS_BLANK, |s|);
    assert s[..|s|] == s && r[..|s|] == s;
  }

  ghost predicate FitsWidths(r: Registry, keyWidth: nat, idWidth: nat) {
    forall i :: 0 <= i < |r| ==>
      && FortranTrim(r[i].key) == r[i].key && |r[i].key| <= keyWidth
      && FortranTrim(r[i].ewtsId) == r[i].ewtsId && |r[i].ewtsId| <= idWidth
  }

  function Padded(r: Registry, keyWidth: nat, idWidth: nat): (t: Registry)
    ensures |t| == |r|
    ensures forall i :: 0 <= i < |r| ==>
              t[i] == Module(FitTo(r[i].key, keyWidth), FitTo(r[i].ewtsId, idWidth), r[i].description)
  {
    seq(|r|, i requires 0 <= i < |r| =>
      Module(FitTo(r[i].key, keyWidth), FitTo(r[i].ewtsId, idWidth), r[i].description))
  }

  /** Padding a table whose texts fit and reading it back without the padding gives the
      table, so the Fortran lookups see what the others see. */
  lemma PaddingIsInvisible(r: Registry, keyWidth: nat, idWidth: nat)
    requires FitsWidths(r, keyWidth, idWidth)
    ensures Unpadded(Padded(r, keyWidth, idWidth)) == r
  {
    forall i | 0 <= i < |r| ensures Unpadded(Padded(r, keyWidth, idWidth))[i] == r[i] {
      TrimFit(r[i].key, keyWidth);
      TrimFit(r[i].ewtsId, idWidth);
    }
  }

  /** Fortran: the count and the fill index are separate variables; ids are compared without
      their padding, and keys are stored padded to the width of the caller's array. */
  method KeysIntoArray(r: Registry, id: string, out: array<string>, width: nat) returns (n: nat)
    modifies out
    ensures var ks := KeysOf(Unpadded(r), FortranTrim(id));
            n == |ks| && Filled(out[..], old(out[..]), FitAll(ks, width), out.Length)
  {
    ghost var u, want := Unpadded(r), FortranTrim(id);
    n := 0;
    var k := 0;
    ghost var ks: seq<string> := [];
    for i := 0 to |r|
      invariant ks == KeysOf(u[..i], want) && n == |ks| && k == if n < out.Length then n else out.Length
      invariant forall j :: 0 <= j < out.Length ==> out[j] == if j < n then FitTo(ks[j], width) else old(out[j])
    {
      KeysPrefix(u, i, want);
      assert u[i].ewtsId == FortranTrim(r[i].ewtsId) && u[i].key == FortranTrim(r[i].key);
      if FortranTrim(r[i].ewtsId) == FortranTrim(id) {
        n := n + 1;
        if k < out.Length {
          out[k] := FitTo(FortranTrim(r[i].key), width);
          k := k + 1;
        }
        ks := ks + [u[i].key];
      }
    }
    assert u[..|u|] == u;
  }

  // ---- The generator and its Python index --------------------------------------------------

  /** Refuses a registry with a repeated key, naming the two entries. */
  method ValidateRegistry(r: Registry) returns (clash: Option<(nat, nat)>)
    ensures clash.None? <==> UniqueKeys(r)
    ensures clash.Some? ==> clash.value.0 < clash.value.1 < |r|
                            && r[clash.value.0].key == r[clash.value.1].key
                            && UniqueKeys(r[..clash.value.1])
  {
    var seen: map<string, nat> := map[];
    for i := 0 to |r|
      invariant forall k :: k in seen ==> seen[k] < i && r[seen[k]].key == k
      invariant forall j :: 0 <= j < i ==> r[j].key in seen
      invariant forall j :: 0 <= j < i ==> seen[r[j].key] == j
    {
      if r[i].key in seen {
        return Some((seen[r[i].key], i));
      }
      seen := seen[r[i].key := i];
    }
    return None;
  }

  datatype Index = Index(keyToId: map<string, string>, idToKeys: map<string, seq<string>>)

  /** The dictionaries of the generated Python module. */
  method BuildIndex(r: Registry) returns (index: Index)
    ensures IsIndexOf(index, r)
  {
    var keyToId: map<string, string> := map[];
    var idToKeys: map<string, seq<string>> := map[];
    for i := 0 to |r|
      invariant IsIndexOf(Index(keyToId, idToKeys), r[..i])
    {
      forall id { MatchesPrefix(r, i, id); }
      ghost var was := Index(keyToId, idToKeys);
      keyToId := keyToId[r[i].key := r[i].ewtsId];
      if r[i].ewtsId !in idToKeys { idToKeys := idToKeys[r[i].ewtsId := []]; }
      idToKeys := idToKeys[r[i].ewtsId := idToKeys[r[i].ewtsId] + [r[i].key]];
      IndexGrows(was, Index(keyToId, idToKeys), r, i);
    }
    assert r[..|r|] == r;
    index := Index(keyToId, idToKeys);
  }

  /** The id of the last entry with a key. */
  function LastId(r: Registry, key: string): Option<string> {
    if r == [] then None
    else if r[|r| - 1].key == key then Some(r[|r| - 1].ewtsId)
    else LastId(r[..|r| - 1], key)
  }

  function LookupId(index: Index, key: string): Option<string> {
    if key in index.keyToId then Some(index.keyToId[key]) else None
  }

  function LookupKeys(index: Index, id: string): seq<string> {
    if id in index.idToKeys then index.idToKeys[id] else []
  }

  ghost predicate IsIndexOf(index: Index, r: Registry) {
    && (forall key :: LookupId(index, key) == LastId(r, key))
    && (forall id :: LookupKeys(index, id) == KeysOf(r, id))
  }

  lemma LastIdPrefix(r: Registry, i: nat, key: string)
    requires i < |r|
    ensures LastId(r[..i + 1], key) == if r[i].key == key then Some(r[i].ewtsId) else LastId(r[..i], key)
  {
    assert r[..i + 1][..i] == r[..i];
  }

  lemma IndexGrows(was: Index, now: Index, r: Registry, i: nat)
    requires i < |r| && IsIndexOf(was, r[..i])
    requires now.keyToId == was.keyToId[r[i].key := r[i].ewtsId]
    requires now.idToKeys == was.idToKeys[r[i].ewtsId := LookupKeys(was, r[i].ewtsId) + [r[i].key]]
    ensures IsIndexOf(now, r[..i + 1])
  {
    forall key ensures LookupId(now, key) == LastId(r[..i + 1], key) {
      assert LookupId(was, key) == LastId(r[..i], key);
      LastIdPrefix(r, i, key);
    }
    forall id ensures LookupKeys(now, id) == KeysOf(r[..i + 1], id) {
      assert LookupKeys(was, id) == KeysOf(r[..i], id);
      KeysPrefix(r, i, id);
    }
  }

  lemma {:induction false} LastIdIs(r: Registry, key: string, id: string)
    requires UniqueKeys(r)
    ensures LastId(r, key) == Some(id) <==> exists m :: m in r && m.key == key && m.ewtsId == id
  {
    if r != [] {
      var init, last := r[..|r| - 1], r[|r| - 1];
      LastIdIs(init, key, id);
      assert r == init + [last];
      if last.key == key {
        assert forall m :: m in init ==> m.key != key;
        assert last in r;
      }
    }
  }

  /** Over an accepted registry a key is listed under an id exactly when it looks up to
      it, by dictionary or by scan, and no key is listed twice or under two ids: the lists
      partition the registry. */
  lemma IndexPartitions(r: Registry, index: Index, key: string, id: string)
    requires UniqueKeys(r) && IsIndexOf(index, r)
    ensures key in LookupKeys(index, id) <==> LookupId(index, key) == Some(id)
    ensures forall i, j :: 0 <= i < j < |LookupKeys(index, id)| ==>
              LookupKeys(index, id)[i] != LookupKeys(index, id)[j]
    ensures (exists m :: m in r && m.key == key) <==> LookupId(index, key).Some?
  {
    assert LookupId(index, key) == LastId(r, key) && LookupKeys(index, id) == KeysOf(r, id);
    LastIdIs(r, key, id);
    MatchesAre(r, id);
    MatchesDistinct(r, id);
    var ms := Matches(r, id);
    if key in KeysOf(r, id) {
      var i :| 0 <= i < |ms| && Keys(ms)[i] == key;
      assert ms[i] in ms;
    }
    if LastId(r, key) == Some(id) {
      var m :| m in r && m.key == key && m.ewtsId == id;
      var i :| 0 <= i < |ms| && ms[i] == m;
      assert Keys(ms)[i] == key;
    }
    LastIdExists(r, key);
  }

  lemma {:induction false} LastIdExists(r: Registry, key: string)
    ensures LastId(r, key).Some? <==> exists m :: m in r && m.key == key
  {
    if r != [] {
      LastIdExists(r[..|r| - 1], key);
      assert r == r[..|r| - 1] + [r[|r| - 1]];
      if r[|r| - 1].key == key { assert r[|r| - 1] in r; }
    }
  }

  lemma {:induction false} MatchesDistinct(r: Registry, id: string)
    requires UniqueKeys(r)
    ensures UniqueKeys(Matches(r, id))
  {
    if r != [] {
      MatchesDistinct(r[1..], id);
      MatchesAre(r[1..], id);
      var ms := Matches(r[1..], id);
      forall i | 0 <= i < |ms| ensures ms[i].key != r[0].key { assert ms[i] in ms; }
    }
  }

  /** The dictionary and the first-match scan agree on every key of an accepted registry. */
  method DictionaryAgreesWithScan(r: Registry, key: string) returns (byIndex: Option<string>, byScan: Option<string>)
    requires UniqueKeys(r)
    ensures byIndex == byScan
  {
    var index := BuildIndex(r);
    byIndex := LookupId(index, key);
    byScan := IdFromKey(r, key);
    LastIdExists(r, key);
    if byScan.Some? { LastIdIs(r, key, byScan.value); }
  }
}
