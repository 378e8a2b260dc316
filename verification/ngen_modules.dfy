/** The registry compiled into the ngen logger, and the level variables it exports to the
    other runtimes. */
module NgenModules {
  import opened Options
  import opened Text
  import opened Levels
  import opened ModuleRegistry
  import opened NgenLogger
  import opened NgenRuns

  /** Keys and ids in table order; descriptions play no part here. */
  const MODULES: Registry := [
    Module("ngen", "NGEN", ""), Module("cfe-s", "CFE", ""), Module("cfe-x", "CFE", ""), Module("cfe", "CFE", ""),
    Module("forcing", "FORCING", ""), Module("lasam", "LASAM", ""), Module("lstm", "LSTM", ""),
    Module("noah-owp-modular", "NOAHOWP", ""), Module("pet", "PET", ""), Module("sac-sma", "SACSMA", ""),
    Module("sft", "SFT", ""), Module("smp", "SMP", ""), Module("snow-17", "SNOW17", ""),
    Module("topmodel", "TOPMODEL", ""), Module("topoflow-glacier", "TFGLACR", ""), Module("t-route", "TROUTE", ""),
    Module("ueb", "UEB_BMI", ""), Module("schism", "SCHISM", ""), Module("sfincs", "SFINCS", ""),
    Module("msw-mgr", "MSWMGR", ""), Module("cal-mgr", "CALMGR", ""), Module("eval-mgr", "EVALMGR", ""),
    Module("fcst-mgr", "FCSTMGR", ""), Module("rte", "RTE", ""), Module("assim-engine", "ASSIM", "")]

  /** The table knows the logger's own key, so what is proved of runs holds for it. */
  lemma TableKnowsNgen()
    ensures KnowsNgen(MODULES)
  {
    FirstEntry(MODULES, "NGEN", 0);
  }

  /** For any id but the logger's own, only the first key listed under it matters. */
  lemma FirstKeyDecides(s: State, r: Registry, id: string, i: nat)
    requires i < |r| && r[i].ewtsId == id && forall j :: 0 <= j < i ==> r[j].ewtsId != id
    requires r[i].key != "" && id != NGEN_ID
    ensures EffectiveLevel(s, r, id) == if r[i].key in s.levels then s.levels[r[i].key] else INFO
  {
    FirstEntry(r, id, i);
    assert KeysOf(r, id)[0] == r[i].key;
  }

  /** Messages of CFE are filtered by the level of "cfe-s" alone: levels configured for
      "cfe-x" or "cfe" change nothing. */
  lemma CfeFollowsCfeS(s: State)
    ensures EffectiveLevel(s, MODULES, "CFE") == if "cfe-s" in s.levels then s.levels["cfe-s"] else INFO
  {
    assert MODULES[0].ewtsId != "CFE" && MODULES[1] == Module("cfe-s", "CFE", "");
    assert "CFE" != NGEN_ID;
    FirstKeyDecides(s, MODULES, "CFE", 1);
  }

  // ---- Exported level variables -------------------------------------------------------------

  /** The id whose variable a level key sets: that of the key, else of the key in lower case. */
  function IdOfKey(mods: Registry, key: string): Option<string> {
    if key == [] then None
    else if FirstWithKey(mods, key).Some? then FirstWithKey(mods, key)
    else FirstWithKey(mods, Lower(key))
  }

  function FirstWithKey(mods: Registry, key: string): Option<string> {
    if mods == [] then None
    else if mods[0].key == key then Some(mods[0].ewtsId)
    else FirstWithKey(mods[1..], key)
  }

  /** By position: the first entry with the key decides, or if there is none the first with the
      key in lower case; the empty key sets no variable. */
  lemma IdOfKeyIs(mods: Registry, key: string, i: nat)
    ensures IdOfKey(mods, "") == None
    ensures key != "" && FirstWith(mods, key, i) ==> IdOfKey(mods, key) == Some(mods[i].ewtsId)
    ensures key != "" && (forall j :: 0 <= j < |mods| ==> mods[j].key != key) && FirstWith(mods, Lower(key), i) ==>
              IdOfKey(mods, key) == Some(mods[i].ewtsId)
    ensures (forall j :: 0 <= j < |mods| ==> mods[j].key != key && mods[j].key != Lower(key)) ==>
              IdOfKey(mods, key) == None
  {
    if FirstWith(mods, key, i) { FirstWithKeyAt(mods, i); }
    if FirstWith(mods, Lower(key), i) { FirstWithKeyAt(mods, i); }
    if forall j :: 0 <= j < |mods| ==> mods[j].key != key { NoneWithKey(mods, key); }
    if forall j :: 0 <= j < |mods| ==> mods[j].key != Lower(key) { NoneWithKey(mods, Lower(key)); }
  }

  ghost predicate FirstWith(mods: Registry, key: string, i: nat) {
    i < |mods| && mods[i].key == key && forall j :: 0 <= j < i ==> mods[j].key != key
  }

  lemma {:induction false} NoneWithKey(mods: Registry, key: string)
    requires forall j :: 0 <= j < |mods| ==> mods[j].key != key
    ensures FirstWithKey(mods, key) == None
  {
    if mods != [] { NoneWithKey(mods[1..], key); }
  }

  /** The value a variable ends up with when the level table is walked in a given order: the
      last key of the id wins. */
  function Exported(levels: map<string, int>, mods: Registry, order: seq<string>, id: string): Option<int>
    requires forall i :: 0 <= i < |order| ==> order[i] in levels
  {
    if order == [] then None
    else
      var last := order[|order| - 1];
      if IdOfKey(mods, last) == Some(id) then Some(levels[last])
      else Exported(levels, mods, order[..|order| - 1], id)
  }

  /** A walk over a hash table: every key once, in whatever order. */
  ghost predicate Walks(levels: map<string, int>, order: seq<string>) {
    && (forall i :: 0 <= i < |order| ==> order[i] in levels)
    && (forall k :: k in levels ==> k in order)
    && (forall i, j :: 0 <= i < j < |order| ==> order[i] != order[j])
  }

  /** Whatever the order, the exported level is the level of some key of the id, and there is
      one exactly if the id has a key at all. */
  lemma {:induction false} ExportedIsSomeKeys(levels: map<string, int>, mods: Registry, order: seq<string>, id: string)
    requires forall i :: 0 <= i < |order| ==> order[i] in levels
    ensures var e := Exported(levels, mods, order, id);
            && (e.Some? ==> exists k :: k in order && IdOfKey(mods, k) == Some(id) && levels[k] == e.value)
            && (e.None? <==> forall k :: k in order ==> IdOfKey(mods, k) != Some(id))
  {
    if order != [] {
      var init, last := order[..|order| - 1], order[|order| - 1];
      assert order == init + [last];
      ExportedIsSomeKeys(levels, mods, init, id);
      if IdOfKey(mods, last) == Some(id) {
        assert last in order && levels[last] == Exported(levels, mods, order, id).value;
      } else {
        assert forall k :: k in order <==> k in init || k == last;
      }
    }
  }

  /** Any key can come last. */
  lemma WalkEndingIn(levels: map<string, int>, k: string) returns (order: seq<string>)
    requires k in levels
    ensures Walks(levels, order) && order != [] && order[|order| - 1] == k
  {
    var init := Enumerate(levels.Keys - {k});
    order := init + [k];
    assert forall i :: 0 <= i < |init| ==> init[i] in init;
    forall x | x in levels ensures x in order {
      if x != k { assert x in init; } else { assert order[|init|] == k; }
    }
  }

  lemma {:induction false} Enumerate(s: set<string>) returns (order: seq<string>)
    ensures forall x :: x in s <==> x in order
    ensures forall i, j :: 0 <= i < j < |order| ==> order[i] != order[j]
  {
    order := [];
    if s != {} {
      var x :| x in s;
      var init := Enumerate(s - {x});
      order := init + [x];
      assert forall i :: 0 <= i < |init| ==> init[i] in init && init[i] != x;
    }
  }

  ghost predicate ExportsAlways(levels: map<string, int>, mods: Registry, id: string, level: int) {
    forall order :: Walks(levels, order) ==> Exported(levels, mods, order, id) == Some(level)
  }

  /** The level a runtime reads from its variable is sure to be a given one, in every order of
      the walk, exactly if the id has a key in the level table and all its keys there have
      that level. */
  lemma ExportsAlwaysIff(levels: map<string, int>, mods: Registry, id: string, level: int)
    ensures ExportsAlways(levels, mods, id, level) <==>
              && (exists k :: k in levels && IdOfKey(mods, k) == Some(id))
              && (forall k :: k in levels && IdOfKey(mods, k) == Some(id) ==> levels[k] == level)
  {
    if ExportsAlways(levels, mods, id, level) {
      var any := Enumerate(levels.Keys);
      assert Walks(levels, any) by { assert forall i :: 0 <= i < |any| ==> any[i] in any; }
      ExportedIsSomeKeys(levels, mods, any, id);
      forall k | k in levels && IdOfKey(mods, k) == Some(id) ensures levels[k] == level {
        var order := WalkEndingIn(levels, k);
        assert Exported(levels, mods, order, id) == Some(levels[k]);
      }
    }
    if (exists k :: k in levels && IdOfKey(mods, k) == Some(id))
       && (forall k :: k in levels && IdOfKey(mods, k) == Some(id) ==> levels[k] == level) {
      forall order | Walks(levels, order) ensures Exported(levels, mods, order, id) == Some(level) {
        ExportedIsSomeKeys(levels, mods, order, id);
      }
    }
  }

  lemma {:induction false} FirstWithKeyAt(mods: Registry, i: nat)
    requires i < |mods| && forall j :: 0 <= j < i ==> mods[j].key != mods[i].key
    ensures FirstWithKey(mods, mods[i].key) == Some(mods[i].ewtsId)
  {
    if i > 0 { FirstWithKeyAt(mods[1..], i - 1); }
  }

  lemma FirstKeyIsOfId(mods: Registry, id: string)
    requires UniqueKeys(mods) && KeysOf(mods, id) != [] && KeysOf(mods, id)[0] != ""
    ensures IdOfKey(mods, KeysOf(mods, id)[0]) == Some(id)
  {
    MatchesAre(mods, id);
    var m := Matches(mods, id)[0];
    var i :| 0 <= i < |mods| && mods[i] == m;
    FirstWithKeyAt(mods, i);
  }

  /** The exported level is the one the logger filters by, in every order of the walk, exactly
      if all keys of the id in the level table have the level of its first registry key; or,
      when that key is not in the table, if the id has others there and they are all at the
      level it falls back to. */
  lemma ExportFollowsFilterIff(s: State, mods: Registry, id: string)
    requires UniqueKeys(mods) && KeysOf(mods, id) != [] && KeysOf(mods, id)[0] != ""
    ensures var first := KeysOf(mods, id)[0];
            ExportsAlways(s.levels, mods, id, EffectiveLevel(s, mods, id)) <==>
              if first in s.levels then
                forall k :: k in s.levels && IdOfKey(mods, k) == Some(id) ==> s.levels[k] == s.levels[first]
              else
                && (exists k :: k in s.levels && IdOfKey(mods, k) == Some(id))
                && (forall k :: k in s.levels && IdOfKey(mods, k) == Some(id) ==>
                      s.levels[k] == if id == NGEN_ID then s.logLevel else INFO)
  {
    FirstKeyIsOfId(mods, id);
    ExportsAlwaysIff(s.levels, mods, id, EffectiveLevel(s, mods, id));
  }

  /** So without a configuration file to read, every id's variable has the level the logger
      filters by. */
  lemma DefaultsExportAlike(mods: Registry, env: Env, id: string)
    requires UniqueKeys(mods) && KeysOf(mods, id) != [] && KeysOf(mods, id)[0] != ""
    requires env.resultsDir == [] || FoundConfig(env).None?
    ensures var s := AfterInit(INITIAL, env, mods);
            ExportsAlways(s.levels, mods, id, EffectiveLevel(s, mods, id))
  {
    var s := AfterInit(INITIAL, env, mods);
    assert s.levels == AllAt(mods, DefaultLevel(env));
    MatchesAre(mods, id);
    assert Matches(mods, id)[0] in mods;
    ExportFollowsFilterIff(s, mods, id);
  }

  ghost predicate WalkExports(levels: map<string, int>, mods: Registry, order: seq<string>, id: string, level: int) {
    Walks(levels, order) && Exported(levels, mods, order, id) == Some(level)
  }

  lemma TwoKeyWalk(levels: map<string, int>, mods: Registry, k: string, k': string, id: string)
    requires k in levels && k' in levels && k != k' && forall x :: x in levels ==> x == k || x == k'
    requires IdOfKey(mods, k') == Some(id)
    ensures WalkExports(levels, mods, [k, k'], id, levels[k'])
  {
    var order := [k, k'];
    assert order[0] == k && order[1] == k';
  }

  /** With the first key of an id at DEBUG and another at FATAL the logger filters at DEBUG, and
      the variable gets DEBUG or FATAL as the walk happens to go. */
  lemma OrderDecides(s: State, mods: Registry, first: string, other: string, id: string)
    requires IdOfKey(mods, first) == Some(id) && IdOfKey(mods, other) == Some(id) && first != other
    requires KeysOf(mods, id) != [] && KeysOf(mods, id)[0] == first != ""
    requires s.levels == map[first := DEBUG, other := FATAL]
    ensures EffectiveLevel(s, mods, id) == DEBUG
    ensures WalkExports(s.levels, mods, [first, other], id, FATAL)
    ensures WalkExports(s.levels, mods, [other, first], id, DEBUG)
  {
    TwoKeyWalk(s.levels, mods, first, other, id);
    TwoKeyWalk(s.levels, mods, other, first, id);
  }

  /** How the compiled table begins. */
  ghost predicate StartsLikeTable(mods: Registry) {
    |mods| >= 4 && mods[0] == Module("ngen", "NGEN", "") && mods[1] == Module("cfe-s", "CFE", "")
    && mods[2] == Module("cfe-x", "CFE", "") && mods[3] == Module("cfe", "CFE", "")
  }

  lemma TableStarts()
    ensures StartsLikeTable(MODULES)
  {
    assert MODULES[0] == Module("ngen", "NGEN", "") && MODULES[1] == Module("cfe-s", "CFE", "");
    assert MODULES[2] == Module("cfe-x", "CFE", "") && MODULES[3] == Module("cfe", "CFE", "");
  }

  lemma CfeKeys(mods: Registry)
    requires StartsLikeTable(mods)
    ensures IdOfKey(mods, "cfe-s") == Some("CFE") && IdOfKey(mods, "cfe") == Some("CFE")
    ensures KeysOf(mods, "CFE") != [] && KeysOf(mods, "CFE")[0] == "cfe-s"
  {
    FirstWithKeyAt(mods, 1);
    FirstWithKeyAt(mods, 3);
    FirstEntry(mods, "CFE", 1);
  }

  /** So it is for CFE in the compiled table. */
  lemma CfeOrderDecides(s: State)
    requires s.levels == map["cfe-s" := DEBUG, "cfe" := FATAL]
    ensures EffectiveLevel(s, MODULES, "CFE") == DEBUG
    ensures WalkExports(s.levels, MODULES, ["cfe-s", "cfe"], "CFE", FATAL)
    ensures WalkExports(s.levels, MODULES, ["cfe", "cfe-s"], "CFE", DEBUG)
  {
    TableStarts();
    CfeKeys(MODULES);
    OrderDecides(s, MODULES, "cfe-s", "cfe", "CFE");
  }
}
