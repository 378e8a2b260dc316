/** The life of Python loggers: a cache of EWTS loggers by id, overrides that outlive resets,
    and handlers on the standard library's process-wide loggers. */
module PythonLoggers {
  import opened Options
  import opened Text

  // ---- Configuration ------------------------------------------------------------------------

  datatype Override = Override(enabled: Option<bool>, level: Option<int>, logDir: Option<string>,
                               fileName: Option<string>, inNgen: Option<bool>)

  datatype Config = Config(enabled: bool, inNgen: bool, logDir: Option<string>, level: int, rank: int,
                           fileName: Option<string>)

  /** The environment, with level variables as far as they parse. */
  datatype Env = Env(enabled: bool, bridge: bool, logDir: Option<string>, levels: map<string, int>, rank: int)

  function LevelOf(env: Env, id: string): int {
    if id + "_LOGLEVEL" in env.levels then env.levels[id + "_LOGLEVEL"]
    else if "EWTS_LOG_LEVEL" in env.levels then env.levels["EWTS_LOG_LEVEL"]
    else 20
  }

  function EnvConfig(env: Env, id: string): Config {
    Config(env.enabled, env.bridge, env.logDir, LevelOf(env, id), env.rank, None)
  }

  function Or<T>(ov: Option<T>, base: T): T { if ov.Some? then ov.value else base }

  /** The environment overlaid field by field. */
  function Overlay(c: Config, ov: Option<Override>): Config {
    match ov
    case None => c
    case Some(o) =>
      Config(Or(o.enabled, c.enabled), Or(o.inNgen, c.inNgen), if o.logDir.Some? then o.logDir else c.logDir,
             Or(o.level, c.level), c.rank, if o.fileName.Some? then o.fileName else c.fileName)
  }

  /** The level the environment gives an id: that of its own variable, else that of the global
      one, else INFO. */
  ghost predicate EnvLevel(env: Env, id: string, level: int) {
    var own := id + "_LOGLEVEL";
    if own in env.levels then level == env.levels[own]
    else if "EWTS_LOG_LEVEL" in env.levels then level == env.levels["EWTS_LOG_LEVEL"]
    else level == 20
  }

  /** A configuration, field by field: what the override sets, and else what the environment
      has; the rank is always the environment's. */
  ghost predicate ConfigIs(c: Config, env: Env, id: string, ov: Option<Override>) {
    && (if ov.Some? && ov.value.enabled.Some? then c.enabled == ov.value.enabled.value else c.enabled == env.enabled)
    && (if ov.Some? && ov.value.inNgen.Some? then c.inNgen == ov.value.inNgen.value else c.inNgen == env.bridge)
    && (if ov.Some? && ov.value.logDir.Some? then c.logDir == ov.value.logDir else c.logDir == env.logDir)
    && (if ov.Some? && ov.value.level.Some? then c.level == ov.value.level.value else EnvLevel(env, id, c.level))
    && (if ov.Some? && ov.value.fileName.Some? then c.fileName == ov.value.fileName else c.fileName == None)
    && c.rank == env.rank
  }

  lemma OverlayIs(env: Env, id: string, ov: Option<Override>)
    ensures ConfigIs(Overlay(EnvConfig(env, id), ov), env, id, ov)
  {}

  // ---- Ids -----------------------------------------------------------------------------------------

  function PyStrip(s: string): string { Strip(s, IS_PY_SPACE) }

  type KeyTable = map<string, string>

  function Resolve(table: KeyTable, keyOrId: string): string {
    var s := PyStrip(keyOrId);
    if s == [] then "UNKNOWN"
    else if s in table && table[s] != [] then table[s]
    else Upper(s)
  }

  /** What a text stands for: a registered key, with or without whitespace around it, for the
      key's id; a blank text for "UNKNOWN"; anything else for itself in upper case, without the
      whitespace. */
  predicate Names(table: KeyTable, text: string, id: string) {
    var s := Strip(text, IS_PY_SPACE);
    && (s == "" ==> id == "UNKNOWN")
    && (s != "" && s in table && table[s] != "" ==> id == table[s])
    && (s != "" && (s in table ==> table[s] == "") ==> id == Upper(s))
  }

  lemma ResolveNames(table: KeyTable, text: string, id: string)
    ensures Names(table, text, id) <==> id == Resolve(table, text)
  {}

  /** Keys are not in upper case, and ids are, without outer whitespace. */
  ghost predicate WellFormedTable(table: KeyTable) {
    && (forall k :: k in table ==> Upper(k) != k)
    && (forall k :: k in table ==> table[k] != [] && Upper(table[k]) == table[k] && PyStrip(table[k]) == table[k])
  }

  lemma StripOfUpper(s: string)
    ensures PyStrip(Upper(PyStrip(s))) == Upper(PyStrip(s))
  {
    var l, t := StripLeft(s, IS_PY_SPACE), PyStrip(s);
    StripLeftStart(s, IS_PY_SPACE);
    StripRightEnd(l, IS_PY_SPACE);
    if t != [] {
      var u := Upper(t);
      assert !PySpace(t[0]) && !PySpace(t[|t| - 1]);
      assert !PySpace(u[0]) && !PySpace(u[|u| - 1]);
    }
  }

  lemma UpperTwice(s: string)
    ensures Upper(Upper(s)) == Upper(s)
  {
    assert forall i :: 0 <= i < |s| ==> Upper(Upper(s))[i] == Upper(s)[i];
  }

  /** A resolved id resolves to itself and is in upper case. */
  lemma ResolveIdempotent(table: KeyTable, keyOrId: string)
    requires WellFormedTable(table)
    ensures var id := Resolve(table, keyOrId);
            Resolve(table, id) == id && Upper(id) == id && id != []
  {
    var s := PyStrip(keyOrId);
    StripOfUpper(keyOrId);
    UpperTwice(s);
    assert Upper("UNKNOWN") == "UNKNOWN" && PyStrip("UNKNOWN") == "UNKNOWN";
  }

  // ---- State ----------------------------------------------------------------------------------------

  /** A handler on a standard logger: one of ours, by the index of its EWTS logger, or one a
      user added. */
  datatype Handler = Ewts(owner: nat) | Foreign(tag: nat)

  datatype Built = Built(id: string, config: Config)

  /** EWTS loggers in order of construction; the cache and the handlers refer to them. */
  datatype State = State(built: seq<Built>, cache: map<string, nat>, overrides: map<string, Override>,
                         handlers: map<string, seq<Handler>>)

  const START := State([], map[], map[], map[])

  function HandlersOf(handlers: map<string, seq<Handler>>, name: string): seq<Handler> {
    if name in handlers then handlers[name] else []
  }

  function LoggerName(id: string): string { "ewts." + id }

  function WithoutEwts(hs: seq<Handler>): seq<Handler> {
    if hs == [] then []
    else (if hs[0].Ewts? then [] else [hs[0]]) + WithoutEwts(hs[1..])
  }

  function OverrideOf(overrides: map<string, Override>, id: string): Option<Override> {
    if id in overrides then Some(overrides[id]) else None
  }

  /** Constructing an EWTS logger replaces the EWTS handler of its standard logger. */
  function Construct(s: State, env: Env, id: string): State {
    var config := Overlay(EnvConfig(env, id), OverrideOf(s.overrides, id));
    var name := LoggerName(id);
    s.(built := s.built + [Built(id, config)],
       handlers := s.handlers[name := WithoutEwts(HandlersOf(s.handlers, name)) + [Ewts(|s.built|)]])
  }

  datatype Op =
    | Get(key: string)
    | Reset(key: string)
    | Setup(key: string, override: Override)
    | Configure(name: string)
    | AddHandler(name: string, tag: nat)

  function StepGet(s: State, env: Env, id: string): State {
    if id in s.cache then s
    else
      var t := Construct(s, env, Upper(id));
      t.(cache := t.cache[id := |s.built|])
  }

  function StepReset(s: State, id: string): State {
    s.(cache := s.cache - {id}, handlers := s.handlers[LoggerName(id) := []][id := []])
  }

  /** The id is resolved again by the reset and by the look-up. */
  function StepSetup(s: State, env: Env, table: KeyTable, id: string, ov: Override): State {
    var again := Resolve(table, id);
    var t := StepReset(s, again);
    StepGet(t.(overrides := t.overrides[Upper(id) := ov]), env, again)
  }

  /** Only a logger named after a registered id is taken over. */
  function StepConfigure(s: State, env: Env, ids: set<string>, name: string): State {
    if name !in ids then s else TakenOverState(s, env, name)
  }

  /** The logger loses all handlers and gets one for a new EWTS logger. */
  function TakenOverState(s: State, env: Env, name: string): State {
    var t := Construct(s.(handlers := s.handlers[name := []]), env, Upper(name));
    t.(handlers := t.handlers[name := [Ewts(|s.built|)]])
  }

  function Step(s: State, env: Env, table: KeyTable, op: Op): State {
    match op
    case Get(key) => StepGet(s, env, Resolve(table, key))
    case Reset(key) => StepReset(s, Resolve(table, key))
    case Setup(key, ov) => StepSetup(s, env, table, Resolve(table, key), ov)
    case Configure(name) => StepConfigure(s, env, table.Values, name)
    case AddHandler(name, tag) => s.(handlers := s.handlers[name := HandlersOf(s.handlers, name) + [Foreign(tag)]])
  }

  /** A logger handed out for an id: the cached one, with nothing changed, or a new one of that
      id with the configuration of the moment, cached from then on. */
  ghost predicate Hands(id: string, logger: nat, env: Env, before: State, after: State) {
    && id in after.cache && after.cache[id] == logger
    && (if id in before.cache then after == before && before.cache[id] == logger
        else
          && after.cache == before.cache[id := logger] && after.overrides == before.overrides
          && logger == |before.built| && |after.built| == logger + 1 && after.built[..logger] == before.built
          && after.built[logger].id == Upper(id)
          && ConfigIs(after.built[logger].config, env, Upper(id),
                      if Upper(id) in before.overrides then Some(before.overrides[Upper(id)]) else None))
  }

  lemma SetupIs(s: State, env: Env, table: KeyTable, key: string, ov: Override)
    requires WellFormedTable(table)
    ensures forall id :: Names(table, key, id) ==>
              var t := StepSetup(s, env, table, Resolve(table, key), ov);
              && t.overrides == s.overrides[id := ov]
              && id in t.cache && t.cache[id] == |s.built|
              && |t.built| == |s.built| + 1 && t.built[|s.built|].id == id
              && ConfigIs(t.built[|s.built|].config, env, id, Some(ov))
  {
    var id := Resolve(table, key);
    ResolveIdempotent(table, key);
    forall other { ResolveNames(table, key, other); }
    OverlayIs(env, id, Some(ov));
  }

  // ---- The program -----------------------------------------------------------------------------------

  class Runtime {
    const table: KeyTable
    var built: seq<Built>
    var cache: map<string, nat>
    var overrides: map<string, Override>
    var handlers: map<string, seq<Handler>>

    ghost function View(): State
      reads this
    {
      State(built, cache, overrides, handlers)
    }

    constructor (table: KeyTable)
      ensures this.table == table && View() == START
    {
      this.table := table;
      built, cache, overrides, handlers := [], map[], map[], map[];
    }

    method LoadConfig(env: Env, id: string) returns (cfg: Config)
      ensures cfg == Overlay(EnvConfig(env, id), OverrideOf(overrides, id))
      ensures ConfigIs(cfg, env, id, if id in overrides then Some(overrides[id]) else None)
    {
      OverlayIs(env, id, OverrideOf(overrides, id));
      cfg := EnvConfig(env, id);
      if id !in overrides { return; }
      var ov := overrides[id];
      if ov.inNgen.Some? { cfg := cfg.(inNgen := ov.inNgen.value); }
      if ov.enabled.Some? { cfg := cfg.(enabled := ov.enabled.value); }
      if ov.logDir.Some? { cfg := cfg.(logDir := ov.logDir); }
      if ov.fileName.Some? { cfg := cfg.(fileName := ov.fileName); }
      if ov.level.Some? { cfg := cfg.(level := ov.level.value); }
    }

    method NewEwtsLogger(env: Env, id: string) returns (logger: nat)
      modifies `built, `handlers
      ensures View() == Construct(old(View()), env, id)
      ensures logger == |old(built)|
    {
      var cfg := LoadConfig(env, id);
      logger := |built|;
      built := built + [Built(id, cfg)];
      var name := LoggerName(id);
      var existing := HandlersOf(handlers, name);
      var kept: seq<Handler> := [];
      for i := 0 to |existing|
        invariant kept + WithoutEwts(existing[i..]) == WithoutEwts(existing)
      {
        assert existing[i..][1..] == existing[i + 1..];
        if !existing[i].Ewts? { kept := kept + [existing[i]]; }
      }
      assert existing[|existing|..] == [] && kept + [] == kept;
      handlers := handlers[name := kept];
      AttachHandler(name, logger);
    }

    method GetLogger(env: Env, key: string) returns (logger: nat)
      modifies this
      ensures View() == StepGet(old(View()), env, Resolve(table, key))
      ensures logger == if Resolve(table, key) in old(cache) then old(cache)[Resolve(table, key)] else |old(built)|
      ensures forall id :: Names(table, key, id) ==> Hands(id, logger, env, old(View()), View())
    {
      var id := Resolve(table, key);
      forall other { ResolveNames(table, key, other); }
      OverlayIs(env, Upper(id), OverrideOf(overrides, Upper(id)));
      if id in cache { return cache[id]; }
      logger := NewEwtsLogger(env, Upper(id));
      cache := cache[id := logger];
    }

    method ResetLogger(key: string)
      modifies this
      ensures View() == StepReset(old(View()), Resolve(table, key))
      ensures forall id :: Names(table, key, id) ==>
                && cache == old(cache) - {id}
                && handlers == old(handlers)["ewts." + id := []][id := []]
                && built == old(built) && overrides == old(overrides)
    {
      forall other { ResolveNames(table, key, other); }
      var id := Resolve(table, key);
      cache := cache - {id};
      RemoveHandlers(LoggerName(id));
      RemoveHandlers(id);
    }

    /** Resets, records the override, and builds. */
    method SetupLogger(env: Env, key: string, ov: Override) returns (logger: nat)
      modifies this
      ensures View() == StepSetup(old(View()), env, table, Resolve(table, key), ov)
      ensures logger == |old(built)|
      ensures WellFormedTable(table) ==>
                forall id :: Names(table, key, id) ==>
                  && overrides == old(overrides)[id := ov]
                  && id in cache && cache[id] == logger
                  && |built| == |old(built)| + 1 && built[logger].id == id
                  && ConfigIs(built[logger].config, env, id, Some(ov))
    {
      var id := Resolve(table, key);
      if WellFormedTable(table) { SetupIs(View(), env, table, key, ov); }
      ResetLogger(id);
      overrides := overrides[Upper(id) := ov];
      logger := GetLogger(env, id);
    }

    method RemoveHandlers(name: string)
      modifies `handlers
      ensures handlers == old(handlers)[name := []]
    {
      handlers := handlers[name := []];
    }

    method AttachHandler(name: string, logger: nat)
      modifies `handlers
      ensures handlers == old(handlers)[name := HandlersOf(old(handlers), name) + [Ewts(logger)]]
    {
      handlers := handlers[name := HandlersOf(handlers, name) + [Ewts(logger)]];
    }

    /** False if the name is not a registered id. */
    method ConfigureExistingLogger(env: Env, name: string) returns (ok: bool)
      modifies this
      ensures ok <==> exists k :: k in table && table[k] == name
      ensures !ok ==> View() == old(View())
      ensures ok ==>
                && cache == old(cache) && overrides == old(overrides)
                && |built| == |old(built)| + 1 && built[..|old(built)|] == old(built)
                && built[|old(built)|].id == Upper(name)
                && name in handlers && handlers[name] == [Ewts(|old(built)|)]
      ensures View() == StepConfigure(old(View()), env, table.Values, name)
    {
      if name !in table.Values { return false; }
      TakeOver(env, name);
      return true;
    }

    method TakeOver(env: Env, name: string)
      modifies this
      ensures View() == TakenOverState(old(View()), env, name)
    {
      RemoveHandlers(name);
      var logger := NewEwtsLogger(env, Upper(name));
      assert |LoggerName(Upper(name))| == |name| + 5;
      assert HandlersOf(handlers, name) == [];
      AttachHandler(name, logger);
      assert handlers[name] == [Ewts(logger)];
    }
  }

  /** Asking by a registered key, with whatever whitespace around it, and then by its id gives
      the same logger. */
  method AskByKeyAndId(rt: Runtime, env: Env, env': Env, text: string) returns (byKey: nat, byId: nat)
    requires WellFormedTable(rt.table) && Strip(text, IS_PY_SPACE) in rt.table
    modifies rt
    ensures byKey == byId
  {
    ghost var id := rt.table[Strip(text, IS_PY_SPACE)];
    KeysAreNoBlanks(rt.table, text);
    byKey := rt.GetLogger(env, text);
    byId := rt.GetLogger(env', rt.table[Strip(text, IS_PY_SPACE)]);
  }

  lemma KeysAreNoBlanks(table: KeyTable, text: string)
    requires WellFormedTable(table) && Strip(text, IS_PY_SPACE) in table
    ensures var id := table[Strip(text, IS_PY_SPACE)]; Names(table, text, id) && Names(table, id, id)
  {
    var s := Strip(text, IS_PY_SPACE);
    assert s != "" by { assert Upper(s) != s; }
    ResolveIdempotent(table, text);
  }

  lemma ValuesAreUpper(table: KeyTable, name: string)
    requires WellFormedTable(table) && name in table.Values
    ensures Upper(name) == name
  {
    var k :| k in table && table[k] == name;
  }

  /** A standard logger's name is never an upper-case id. */
  lemma NamesDiffer(a: string, id: string)
    requires Upper(id) == id
    ensures LoggerName(a) != id
  {
    assert LoggerName(a)[0] == 'e';
    assert id != [] ==> id[0] == UpperChar(id[0]) != 'e';
  }

  // ---- Runs ----------------------------------------------------------------------------------------------

  datatype Timed = Timed(env: Env, op: Op)

  /** Runs are read from their last operation back. */
  function Run(table: KeyTable, ops: seq<Timed>): State {
    if ops == [] then START
    else
      var last := ops[|ops| - 1];
      Step(Run(table, ops[..|ops| - 1]), last.env, table, last.op)
  }

  /** The most recently built EWTS logger of an id. */
  function Latest(built: seq<Built>, id: string): Option<nat> {
    if built == [] then None
    else if built[|built| - 1].id == id then Some(|built| - 1)
    else Latest(built[..|built| - 1], id)
  }

  /** At most one EWTS handler in a list, and that of a given logger. */
  ghost predicate OnlyHandler(hs: seq<Handler>, owner: Option<nat>) {
    && (forall i :: 0 <= i < |hs| && hs[i].Ewts? ==> Some(hs[i].owner) == owner)
    && (forall i, j :: 0 <= i < j < |hs| ==> !(hs[i].Ewts? && hs[j].Ewts?))
  }

  ghost predicate HasEwts(hs: seq<Handler>) { exists i :: 0 <= i < |hs| && hs[i].Ewts? }

  lemma {:induction false} WithoutEwtsIs(hs: seq<Handler>)
    ensures !HasEwts(WithoutEwts(hs))
  {
    if hs != [] { WithoutEwtsIs(hs[1..]); }
  }

  /** It takes out our handlers and leaves a user's, in their order. */
  lemma {:induction false} WithoutEwtsKeeps(a: seq<Handler>, b: seq<Handler>, h: Handler)
    ensures WithoutEwts([]) == [] && WithoutEwts([h]) == if h.Foreign? then [h] else []
    ensures WithoutEwts(a + b) == WithoutEwts(a) + WithoutEwts(b)
  {
    assert [h][1..] == [];
    if a == [] {
      assert a + b == b;
    } else {
      WithoutEwtsKeeps(a[1..], b, h);
      assert (a + b)[0] == a[0] && (a + b)[1..] == a[1..] + b;
    }
  }

  lemma LatestSnoc(built: seq<Built>, b: Built, id: string)
    ensures Latest(built + [b], id) == if b.id == id then Some(|built|) else Latest(built, id)
  {
    assert (built + [b])[..|built|] == built;
  }

  lemma {:induction false} LatestIs(built: seq<Built>, id: string)
    ensures Latest(built, id).Some? ==> Latest(built, id).value < |built| && built[Latest(built, id).value].id == id
  {
    if built != [] { LatestIs(built[..|built| - 1], id); }
  }

  /** Handlers of the logger "ewts.<id>" under the invariant. */
  ghost predicate Attached(s: State, id: string) {
    && OnlyHandler(HandlersOf(s.handlers, "ewts." + id), Latest(s.built, id))
    && (id in s.cache ==> HasEwts(HandlersOf(s.handlers, "ewts." + id)) && s.cache[id] < |s.built|
                          && s.built[s.cache[id]].id == id)
  }

  lemma ConstructAttaches(s: State, env: Env, id: string)
    ensures var t := Construct(s, env, id);
            && Attached(t.(cache := s.cache[id := |s.built|]), id)
            && HasEwts(HandlersOf(t.handlers, LoggerName(id)))
  {
    var t := Construct(s, env, id);
    var kept := WithoutEwts(HandlersOf(s.handlers, LoggerName(id)));
    WithoutEwtsIs(HandlersOf(s.handlers, LoggerName(id)));
    LatestSnoc(s.built, t.built[|s.built|], id);
    var hs := HandlersOf(t.handlers, LoggerName(id));
    assert hs == kept + [Ewts(|s.built|)];
    assert hs[|kept|].Ewts?;
    assert forall i :: 0 <= i < |kept| ==> hs[i] == kept[i] && !kept[i].Ewts?;
  }

  lemma ConstructElsewhere(s: State, env: Env, id: string, other: string)
    requires Attached(s, other) && other != id
    ensures Attached(Construct(s, env, id), other)
  {
    LatestSnoc(s.built, Construct(s, env, id).built[|s.built|], other);
    assert LoggerName(other)[5..] == other && LoggerName(id)[5..] == id;
  }

  lemma NamesInjective(a: string, b: string)
    ensures LoggerName(a) == LoggerName(b) ==> a == b
  {
    assert LoggerName(a)[5..] == a && LoggerName(b)[5..] == b;
  }

  lemma ResetKeepsAttached(s: State, id: string, other: string)
    requires Attached(s, other) && Upper(id) == id
    ensures Attached(StepReset(s, id), other)
  {
    NamesDiffer(other, id);
    NamesInjective(other, id);
  }

  lemma GetKeepsAttached(s: State, env: Env, id: string, other: string)
    requires Attached(s, other) && Upper(id) == id
    ensures Attached(StepGet(s, env, id), other)
  {
    if id !in s.cache {
      if id == other { ConstructAttaches(s, env, id); } else { ConstructElsewhere(s, env, id, other); }
    }
  }

  lemma ConfigureKeepsAttached(s: State, env: Env, ids: set<string>, name: string, other: string)
    requires Attached(s, other) && (name in ids ==> Upper(name) == name)
    ensures Attached(StepConfigure(s, env, ids, name), other)
  {
    if name in ids {
      var s' := s.(handlers := s.handlers[name := []]);
      NamesDiffer(other, name);
      assert Attached(s', other);
      if name == other { ConfigureAttaches(s', env, name); } else { ConstructElsewhere(s', env, name, other); }
    }
  }

  /** Taking a logger over builds a new EWTS logger without caching it. */
  lemma ConfigureAttaches(s: State, env: Env, id: string)
    requires Attached(s, id)
    ensures Attached(Construct(s, env, id), id)
  {
    ConstructAttaches(s, env, id);
  }

  lemma AddKeepsAttached(s: State, name: string, tag: nat, other: string)
    requires Attached(s, other)
    ensures Attached(s.(handlers := s.handlers[name := HandlersOf(s.handlers, name) + [Foreign(tag)]]), other)
  {
    var hs := HandlersOf(s.handlers, name);
    var hs' := hs + [Foreign(tag)];
    assert forall i :: 0 <= i < |hs| ==> hs'[i] == hs[i];
    if HasEwts(hs) {
      var i :| 0 <= i < |hs| && hs[i].Ewts?;
      assert hs'[i].Ewts?;
    }
  }

  /** After any run every logger "ewts.<id>" carries at most one EWTS handler, whatever users
      added besides, and it belongs to the latest EWTS logger built for that id; a cached
      logger's standard logger does carry one. */
  lemma {:induction false} RunKeepsAttached(table: KeyTable, ops: seq<Timed>, id: string)
    requires WellFormedTable(table)
    ensures Attached(Run(table, ops), id)
  {
    if ops != [] {
      var init, last := ops[..|ops| - 1], ops[|ops| - 1];
      var s := Run(table, init);
      RunKeepsAttached(table, init, id);
      match last.op
      case Get(key) =>
        ResolveIdempotent(table, key);
        GetKeepsAttached(s, last.env, Resolve(table, key), id);
      case Reset(key) =>
        ResolveIdempotent(table, key);
        ResetKeepsAttached(s, Resolve(table, key), id);
      case Setup(key, ov) =>
        ResolveIdempotent(table, key);
        var r := Resolve(table, key);
        ResetKeepsAttached(s, r, id);
        var t := StepReset(s, r);
        GetKeepsAttached(t.(overrides := t.overrides[r := ov]), last.env, r, id);
      case Configure(name) =>
        if name in table.Values { ValuesAreUpper(table, name); }
        ConfigureKeepsAttached(s, last.env, table.Values, name, id);
      case AddHandler(name, tag) => AddKeepsAttached(s, name, tag, id);
    }
  }

  // ---- Overrides and configurations ---------------------------------------------------------------------

  /** The override of the last setup call for an id, no matter what was reset since. */
  function LastSetup(table: KeyTable, ops: seq<Timed>, id: string): Option<Override> {
    if ops == [] then None
    else
      var op := ops[|ops| - 1].op;
      if op.Setup? && Names(table, op.key, id) then Some(op.override)
      else LastSetup(table, ops[..|ops| - 1], id)
  }

  lemma {:induction false} OverridesAreLastSetups(table: KeyTable, ops: seq<Timed>, id: string)
    requires WellFormedTable(table)
    ensures OverrideOf(Run(table, ops).overrides, id) == LastSetup(table, ops, id)
  {
    if ops != [] {
      OverridesAreLastSetups(table, ops[..|ops| - 1], id);
      var op := ops[|ops| - 1].op;
      if op.Setup? { ResolveIdempotent(table, op.key); }
    }
  }

  /** Whatever an operation builds has for its configuration the environment of that moment,
      overlaid field by field with only the last setup call for its id up to and including
      the operation itself. Resets in between do not lift it. */
  lemma FreshConfig(table: KeyTable, ops: seq<Timed>, n: nat)
    requires WellFormedTable(table) && ops != []
    requires |Run(table, ops[..|ops| - 1]).built| <= n < |Run(table, ops).built|
    ensures n == |Run(table, ops[..|ops| - 1]).built|
    ensures var b := Run(table, ops).built[n];
            ConfigIs(b.config, ops[|ops| - 1].env, b.id, LastSetup(table, ops, b.id))
  {
    FreshOverlay(table, ops, n);
    var b := Run(table, ops).built[n];
    OverlayIs(ops[|ops| - 1].env, b.id, LastSetup(table, ops, b.id));
  }

  lemma FreshOverlay(table: KeyTable, ops: seq<Timed>, n: nat)
    requires WellFormedTable(table) && ops != []
    requires |Run(table, ops[..|ops| - 1]).built| <= n < |Run(table, ops).built|
    ensures n == |Run(table, ops[..|ops| - 1]).built|
    ensures var b := Run(table, ops).built[n];
            b.config == Overlay(EnvConfig(ops[|ops| - 1].env, b.id), LastSetup(table, ops, b.id))
  {
    var b := Run(table, ops).built[n];
    OverridesAreLastSetups(table, ops, b.id);
    OverridesAreLastSetups(table, ops[..|ops| - 1], b.id);
  }

  // ---- The cache and the handlers -------------------------------------------------------------------------

  function Cached(table: KeyTable, ops: seq<Timed>, id: string): bool {
    if ops == [] then false
    else
      var op := ops[|ops| - 1].op;
      if (op.Get? || op.Setup?) && Names(table, op.key, id) then true
      else if op.Reset? && Names(table, op.key, id) then false
      else Cached(table, ops[..|ops| - 1], id)
  }

  /** Whether an existing logger was taken over since the cached one was built. */
  function TakenOver(table: KeyTable, ops: seq<Timed>, id: string): bool {
    if ops == [] then false
    else
      var init, op := ops[..|ops| - 1], ops[|ops| - 1].op;
      if op.Configure? && op.name == id && id in table.Values then Cached(table, init, id)
      else if op.Get? && Names(table, op.key, id) then Cached(table, init, id) && TakenOver(table, init, id)
      else if (op.Reset? || op.Setup?) && Names(table, op.key, id) then false
      else TakenOver(table, init, id)
  }

  lemma {:induction false} CachedIs(table: KeyTable, ops: seq<Timed>, id: string)
    requires WellFormedTable(table)
    ensures id in Run(table, ops).cache <==> Cached(table, ops, id)
  {
    if ops != [] {
      CachedIs(table, ops[..|ops| - 1], id);
      var op := ops[|ops| - 1].op;
      if op.Setup? { ResolveIdempotent(table, op.key); }
    }
  }

  ghost predicate CachedIsLatest(s: State, id: string) {
    id in s.cache && Latest(s.built, id) == Some(s.cache[id])
  }

  lemma ConstructLatest(s: State, env: Env, id: string, other: string)
    ensures Latest(Construct(s, env, id).built, other)
            == if id == other then Some(|s.built|) else Latest(s.built, other)
  {
    LatestSnoc(s.built, Construct(s, env, id).built[|s.built|], other);
  }

  lemma GetLatest(s: State, env: Env, id: string, other: string)
    requires Upper(id) == id && other in StepGet(s, env, id).cache
    ensures CachedIsLatest(StepGet(s, env, id), other)
            <==> if id == other && id !in s.cache then true else CachedIsLatest(s, other)
  {
    ConstructLatest(s, env, id, other);
  }

  lemma ConfigureLatest(s: State, env: Env, ids: set<string>, name: string, id: string)
    requires (name in ids ==> Upper(name) == name) && id in s.cache && s.cache[id] < |s.built|
    ensures CachedIsLatest(StepConfigure(s, env, ids, name), id)
            <==> CachedIsLatest(s, id) && !(name in ids && name == id)
  {
    ConstructLatest(s.(handlers := s.handlers[name := []]), env, name, id);
  }

  /** What is known before the last operation of a run. */
  ghost predicate Before(table: KeyTable, ops: seq<Timed>, id: string) {
    ops != [] &&
    var init := ops[..|ops| - 1];
    var s := Run(table, init);
    && (id in s.cache <==> Cached(table, init, id))
    && (id in s.cache ==> s.cache[id] < |s.built| && (CachedIsLatest(s, id) <==> !TakenOver(table, init, id)))
  }

  lemma LatestAfterGet(table: KeyTable, ops: seq<Timed>, id: string)
    requires WellFormedTable(table) && Before(table, ops, id) && ops[|ops| - 1].op.Get? && Cached(table, ops, id)
    ensures id in Run(table, ops).cache
    ensures CachedIsLatest(Run(table, ops), id) <==> !TakenOver(table, ops, id)
  {
    var last := ops[|ops| - 1];
    var r := Resolve(table, last.op.key);
    ResolveIdempotent(table, last.op.key);
    ResolveNames(table, last.op.key, id);
    GetLatest(Run(table, ops[..|ops| - 1]), last.env, r, id);
  }

  lemma LatestAfterSetup(table: KeyTable, ops: seq<Timed>, id: string)
    requires WellFormedTable(table) && Before(table, ops, id) && ops[|ops| - 1].op.Setup? && Cached(table, ops, id)
    ensures id in Run(table, ops).cache
    ensures CachedIsLatest(Run(table, ops), id) <==> !TakenOver(table, ops, id)
  {
    var last := ops[|ops| - 1];
    var r := Resolve(table, last.op.key);
    ResolveIdempotent(table, last.op.key);
    ResolveNames(table, last.op.key, id);
    var t := StepReset(Run(table, ops[..|ops| - 1]), r);
    GetLatest(t.(overrides := t.overrides[r := last.op.override]), last.env, r, id);
  }

  lemma LatestAfterConfigure(table: KeyTable, ops: seq<Timed>, id: string)
    requires WellFormedTable(table) && Before(table, ops, id) && ops[|ops| - 1].op.Configure? && Cached(table, ops, id)
    ensures id in Run(table, ops).cache
    ensures CachedIsLatest(Run(table, ops), id) <==> !TakenOver(table, ops, id)
  {
    var last := ops[|ops| - 1];
    if last.op.name in table.Values { ValuesAreUpper(table, last.op.name); }
    ConfigureLatest(Run(table, ops[..|ops| - 1]), last.env, table.Values, last.op.name, id);
  }

  lemma LatestAfterOther(table: KeyTable, ops: seq<Timed>, id: string)
    requires Before(table, ops, id) && Cached(table, ops, id)
    requires ops[|ops| - 1].op.Reset? || ops[|ops| - 1].op.AddHandler?
    ensures id in Run(table, ops).cache
    ensures CachedIsLatest(Run(table, ops), id) <==> !TakenOver(table, ops, id)
  {
    if ops[|ops| - 1].op.Reset? { ResolveNames(table, ops[|ops| - 1].op.key, id); }
  }

  /** The logger `get_logger` hands out is the one the handler writes to exactly if no
      `configure_existing_logger` came for the id since it was cached. */
  lemma {:induction false} CachedIsLatestIff(table: KeyTable, ops: seq<Timed>, id: string)
    requires WellFormedTable(table) && Cached(table, ops, id)
    ensures id in Run(table, ops).cache
    ensures CachedIsLatest(Run(table, ops), id) <==> !TakenOver(table, ops, id)
  {
    assert Before(table, ops, id) by {
      var init := ops[..|ops| - 1];
      CachedIs(table, init, id);
      RunKeepsAttached(table, init, id);
      if Cached(table, init, id) { CachedIsLatestIff(table, init, id); }
    }
    match ops[|ops| - 1].op
    case Get(_) => LatestAfterGet(table, ops, id);
    case Setup(_, _) => LatestAfterSetup(table, ops, id);
    case Configure(_) => LatestAfterConfigure(table, ops, id);
    case _ => LatestAfterOther(table, ops, id);
  }

  /** Taking over the logger of an id after asking for it leaves the cache behind: the next
      `get_logger` returns an EWTS logger that the handler does not write to. */
  lemma TakeOverLeavesCacheBehind(table: KeyTable, env: Env, id: string)
    requires Names(table, id, id) && Upper(id) == id && id in table.Values
    ensures var s := Run(table, [Timed(env, Get(id)), Timed(env, Configure(id))]);
            id in s.cache && s.cache[id] == 0
            && HandlersOf(s.handlers, "ewts." + id) == [Ewts(1)]
  {
    var ops := [Timed(env, Get(id)), Timed(env, Configure(id))];
    var s1 := StepGet(START, env, id);
    assert Run(table, ops[..1]) == s1 by {
      assert ops[..1] == [Timed(env, Get(id))] && ops[..1][..0] == [];
    }
    OneTakeOver(s1, env, id);
  }

  lemma OneTakeOver(s1: State, env: Env, id: string)
    requires s1 == StepGet(START, env, id) && Upper(id) == id
    ensures var s := TakenOverState(s1, env, id);
            id in s.cache && s.cache[id] == 0 && HandlersOf(s.handlers, LoggerName(id)) == [Ewts(1)]
  {
    NamesDiffer(id, id);
    assert HandlersOf(s1.handlers, LoggerName(id)) == [Ewts(0)];
    assert WithoutEwts([Ewts(0)]) == [];
  }

  /** The table of the Python runtime. */
  const KEYS: KeyTable := map[
    "forcing" := "FORCING", "lstm" := "LSTM", "topoflow-glacier" := "TFGLACR", "t-route" := "TROUTE",
    "msw-mgr" := "MSWMGR", "cal-mgr" := "CALMGR", "eval-mgr" := "EVALMGR", "fcst-mgr" := "FCSTMGR",
    "rte" := "RTE", "assim-engine" := "ASSIM"]

  lemma UpperId(id: string)
    requires id != [] && forall i :: 0 <= i < |id| ==> 'A' <= id[i] <= 'Z'
    ensures Upper(id) == id && PyStrip(id) == id
  {
    assert StripLeft(id, IS_PY_SPACE) == id && StripRight(id, IS_PY_SPACE) == id;
  }

  lemma LowerKey(key: string)
    requires key != [] && 'a' <= key[0] <= 'z'
    ensures Upper(key) != key
  {
    assert Upper(key)[0] != key[0];
  }

  /** The table is one to which the results apply. */
  lemma KeysWellFormed()
    ensures WellFormedTable(KEYS)
  {
    forall k | k in KEYS
      ensures Upper(k) != k && KEYS[k] != [] && Upper(KEYS[k]) == KEYS[k] && PyStrip(KEYS[k]) == KEYS[k]
    {
      LowerKey(k);
      UpperId(KEYS[k]);
    }
  }
}
