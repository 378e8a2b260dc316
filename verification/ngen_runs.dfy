/** Whole runs of the ngen logger: what every call keeps, which sink a module's lines go to,
    and what each sink holds in the end. */
module NgenRuns {
  import opened Options
  import opened Text
  import opened Levels
  import opened ModuleRegistry
  import opened PayloadCodec
  import opened PayloadLog
  import opened LineSplit
  import opened NgenLogger

  datatype Timed = Timed(ctx: Context, call: Call)

  function Run(s: State, mods: Registry, calls: seq<Timed>): State
    decreases |calls|
  {
    if calls == [] then s else Run(Step(s, calls[0].ctx, mods, calls[0].call), mods, calls[1..])
  }

  // ---- What every call keeps ------------------------------------------------------------

  ghost predicate AllCanonical(levels: map<string, int>) {
    forall k :: k in levels ==> Canonical(levels[k])
  }

  /** Levels are canonical and the logger's own is that of the key "ngen"; split and unified
      files exclude each other; no file is open before initialisation, and no payload file
      while logging is off or there is no directory. */
  ghost predicate Good(s: State) {
    && AllCanonical(s.levels) && Canonical(s.logLevel)
    && (!s.initialized ==> !s.payload.open && !s.unified.open)
    && (s.initialized ==>
          && NGEN_KEY in s.levels && s.levels[NGEN_KEY] == s.logLevel
          && (s.split ==> !s.unified.open)
          && (!s.enabled || s.logDir == [] ==> !s.payload.open))
  }

  ghost predicate SameConfig(s: State, t: State) {
    && t.initialized == s.initialized && t.enabled == s.enabled && t.split == s.split && t.logDir == s.logDir
    && t.logLevel == s.logLevel && t.levels == s.levels && t.unified.open == s.unified.open
  }

  ghost predicate SameLines(s: State, t: State) {
    t.unified == s.unified && t.splitFiles == s.splitFiles && t.stdout == s.stdout
  }

  lemma {:induction false} ConfiguredLevelsCanonical(levels: map<string, int>, pairs: seq<(string, int)>)
    requires AllCanonical(levels) && NGEN_KEY in levels
    requires forall i :: 0 <= i < |pairs| ==> Canonical(pairs[i].1)
    ensures AllCanonical(PutAll(levels, pairs)) && NGEN_KEY in PutAll(levels, pairs)
  {
    if pairs != [] { ConfiguredLevelsCanonical(levels, pairs[..|pairs| - 1]); }
  }

  lemma InitKeepsGood(s: State, env: Env, mods: Registry)
    requires Good(s)
    ensures Good(AfterInit(s, env, mods)) && AfterInit(s, env, mods).initialized
    ensures AfterInit(s, env, mods).payload == s.payload
  {
    if !s.initialized && env.resultsDir != [] && FoundConfig(env).Some? {
      ConfiguredLevelsCanonical(s.levels[NGEN_KEY := INFO], ParsedLevels(FoundConfig(env).value.modules));
    }
  }

  lemma EffectiveLevelCanonical(s: State, mods: Registry, id: string)
    requires Good(s)
    ensures Canonical(EffectiveLevel(s, mods, id))
  {}

  lemma DeliverKeeps(s: State, id: string, lines: seq<string>, opens: bool)
    requires Good(s) && s.initialized
    ensures var t := Deliver(s, id, lines, opens);
            Good(t) && SameConfig(s, t) && t.payload == s.payload
  {}

  lemma WritePayloadKeeps(s: State, ctx: Context, mods: Registry, id: string, f: Fields)
    requires Good(s)
    ensures var t := WritePayload(s, ctx, mods, id, f);
            Good(t) && (s.initialized ==> SameConfig(s, t) && SameLines(s, t))
  {
    InitKeepsGood(s, ctx.env, mods);
  }

  lemma StepLogKeeps(s: State, ctx: Context, mods: Registry, id: string, level: int, message: string)
    requires Good(s)
    ensures var t := StepLog(s, ctx, mods, id, level, message);
            Good(t) && (s.initialized ==> SameConfig(s, t))
  {
    InitKeepsGood(s, ctx.env, mods);
    var t := AfterInit(s, ctx.env, mods);
    WritePayloadKeeps(t, ctx, mods, id, PayloadOf(Some(message), ctx.boost));
    DeliverKeeps(t, id, Prefixed(LinePrefix(ctx.ts, id, level), LoggedLines(message)), ctx.opens);
  }

  /** A call keeps the invariant, and after initialisation the configuration. */
  lemma StepKeepsGood(s: State, ctx: Context, mods: Registry, call: Call)
    requires Good(s)
    ensures Good(Step(s, ctx, mods, call))
    ensures s.initialized ==> SameConfig(s, Step(s, ctx, mods, call))
  {
    InitKeepsGood(s, ctx.env, mods);
    var t := AfterInit(s, ctx.env, mods);
    match call
    case Log(id, level, m) => StepLogKeeps(s, ctx, mods, id, level, m);
    case LogNgen(level, m) => StepLogKeeps(s, ctx, mods, NGEN_ID, level, m);
    case LogVarargs(id, level, f) => if f.Formatted? { StepLogKeeps(t, ctx, mods, id, level, f.text); }
    case LogNgenVarargs(level, f) => if f.Formatted? { StepLogKeeps(t, ctx, mods, NGEN_ID, level, f.text); }
    case PayloadJson(id, json) => WritePayloadKeeps(s, ctx, mods, id, PayloadOf(json, ctx.boost));
    case PayloadFields(id, status, prog, msg, modnm) =>
      WritePayloadKeeps(s, ctx, mods, id, Fields(status, prog, msg, modnm));
  }

  /** So the invariant holds after any run from the start. */
  lemma {:induction false} RunKeepsGood(s: State, mods: Registry, calls: seq<Timed>)
    requires Good(s)
    ensures Good(Run(s, mods, calls)) && (s.initialized ==> SameConfig(s, Run(s, mods, calls)))
    ensures Good(INITIAL)
    decreases |calls|
  {
    if calls != [] {
      StepKeepsGood(s, calls[0].ctx, mods, calls[0].call);
      RunKeepsGood(Step(s, calls[0].ctx, mods, calls[0].call), mods, calls[1..]);
    }
  }

  // ---- The overloads agree ---------------------------------------------------------------

  /** The registry files the logger's own id under the key "ngen" first. */
  ghost predicate KnowsNgen(mods: Registry) {
    KeysOf(mods, NGEN_ID) != [] && KeysOf(mods, NGEN_ID)[0] == NGEN_KEY
  }

  /** A varargs call does exactly what the string call does with the formatted text, though
      it filters beforehand, and the logger's own overloads do what the module overloads do
      for its id. */
  lemma OverloadsAgree(s: State, ctx: Context, mods: Registry, id: string, level: int, text: string)
    requires Good(s) && KnowsNgen(mods)
    ensures Step(s, ctx, mods, LogVarargs(id, level, Formatted(text))) == Step(s, ctx, mods, Log(id, level, text))
    ensures Step(s, ctx, mods, LogNgenVarargs(level, Formatted(text))) == Step(s, ctx, mods, LogNgen(level, text))
    ensures Step(s, ctx, mods, LogNgen(level, text)) == Step(s, ctx, mods, Log(NGEN_ID, level, text))
  {
    InitKeepsGood(s, ctx.env, mods);
    var t := AfterInit(s, ctx.env, mods);
    EffectiveLevelCanonical(t, mods, id);
    assert EffectiveLevel(t, mods, NGEN_ID) == t.logLevel;
  }

  /** No overload filters STATUS, whatever the module's level: each is the payload call. */
  lemma StatusIsNeverFiltered(s: State, ctx: Context, mods: Registry, id: string, text: string)
    requires Good(s) && KnowsNgen(mods)
    ensures var t := Step(s, ctx, mods, PayloadJson(id, Some(text)));
            Step(s, ctx, mods, Log(id, STATUS, text)) == t
            && Step(s, ctx, mods, LogVarargs(id, STATUS, Formatted(text))) == t
    ensures var t := Step(s, ctx, mods, PayloadJson(NGEN_ID, Some(text)));
            Step(s, ctx, mods, LogNgen(STATUS, text)) == t
            && Step(s, ctx, mods, LogNgenVarargs(STATUS, Formatted(text))) == t
  {
    InitKeepsGood(s, ctx.env, mods);
    OverloadsAgree(s, ctx, mods, id, STATUS, text);
    OverloadsAgree(s, ctx, mods, NGEN_ID, STATUS, text);
  }

  // ---- The configuration is read once ------------------------------------------------------

  /** A null format string is turned away before anything happens. */
  predicate Ignored(call: Call) {
    (call.LogVarargs? || call.LogNgenVarargs?) && call.format.NullFormat?
  }

  /** Any other first call behaves as if the logger had been initialised for it beforehand. */
  lemma InitThenStep(s: State, ctx: Context, mods: Registry, call: Call)
    requires Good(s) && !Ignored(call)
    ensures Step(s, ctx, mods, call) == Step(AfterInit(s, ctx.env, mods), ctx, mods, call)
  {
    InitKeepsGood(s, ctx.env, mods);
  }

  /** The first call of a run that is not ignored. */
  function FirstHeard(calls: seq<Timed>): (r: Option<nat>)
    ensures r.None? ==> forall i :: 0 <= i < |calls| ==> Ignored(calls[i].call)
    ensures r.Some? ==> r.value < |calls| && !Ignored(calls[r.value].call)
                        && forall i :: 0 <= i < r.value ==> Ignored(calls[i].call)
  {
    if calls == [] then None
    else if !Ignored(calls[0].call) then Some(0)
    else
      var r := FirstHeard(calls[1..]);
      if r.None? then None else Some(r.value + 1)
  }

  /** A run goes as if the logger had been initialised for that call before all others; if
      there is none nothing happens. */
  lemma {:induction false} RunFromInit(s: State, mods: Registry, calls: seq<Timed>)
    requires Good(s)
    ensures match FirstHeard(calls)
            case None => Run(s, mods, calls) == s
            case Some(i) => Run(s, mods, calls) == Run(AfterInit(s, calls[i].ctx.env, mods), mods, calls)
  {
    if calls != [] {
      if Ignored(calls[0].call) {
        RunFromInit(s, mods, calls[1..]);
      } else {
        InitThenStep(s, calls[0].ctx, mods, calls[0].call);
      }
    }
  }

  /** After a run the configuration is the one of the environment of the first call that is
      not ignored, and without such a call that of a fresh logger. */
  lemma FirstEnvironmentDecides(mods: Registry, calls: seq<Timed>)
    ensures match FirstHeard(calls)
            case None => Run(INITIAL, mods, calls) == INITIAL
            case Some(i) => SameConfig(AfterInit(INITIAL, calls[i].ctx.env, mods), Run(INITIAL, mods, calls))
  {
    RunFromInit(INITIAL, mods, calls);
    if FirstHeard(calls).Some? {
      var env := calls[FirstHeard(calls).value].ctx.env;
      InitKeepsGood(INITIAL, env, mods);
      RunKeepsGood(AfterInit(INITIAL, env, mods), mods, calls);
    }
  }

  // ---- Where lines go ---------------------------------------------------------------------------

  datatype Sink = Unified | Split(id: string) | Stdout

  function Content(s: State, k: Sink): seq<string> {
    match k
    case Unified => s.unified.lines
    case Split(id) => if id in s.splitFiles then s.splitFiles[id].lines else []
    case Stdout => s.stdout
  }

  /** The module and text of a call that logs lines, be it by string or by format. */
  datatype Request = Nothing | Lines(id: string, level: int, text: string) | Status(id: string, f: Fields)

  function RequestOf(c: Timed): Request {
    match c.call
    case Log(id, level, m) => Asked(c, id, level, m)
    case LogNgen(level, m) => Asked(c, NGEN_ID, level, m)
    case LogVarargs(id, level, f) => if f.Formatted? then Asked(c, id, level, f.text) else Nothing
    case LogNgenVarargs(level, f) => if f.Formatted? then Asked(c, NGEN_ID, level, f.text) else Nothing
    case PayloadJson(id, json) => Status(id, PayloadOf(json, c.ctx.boost))
    case PayloadFields(id, status, prog, msg, modnm) => Status(id, Fields(status, prog, msg, modnm))
  }

  function Asked(c: Timed, id: string, level: int, text: string): Request {
    if level == STATUS then Status(id, PayloadOf(Some(text), c.ctx.boost)) else Lines(id, level, text)
  }

  /** A call for lines that the configured levels let through. */
  predicate Admitted(s: State, mods: Registry, c: Timed) {
    RequestOf(c).Lines? && RequestOf(c).level >= EffectiveLevel(s, mods, RequestOf(c).id)
  }

  /** The lines of an admitted call: its non-blank lines behind its prefix. */
  function LinesOf(c: Timed): seq<string>
    requires RequestOf(c).Lines?
  {
    var r := RequestOf(c);
    Prefixed(LinePrefix(c.ctx.ts, r.id, r.level), LoggedLines(r.text))
  }

  /** Whether the first admitted call of a module finds its split file openable. */
  function FirstOpens(s: State, mods: Registry, calls: seq<Timed>, id: string): bool {
    if calls == [] then false
    else if Admitted(s, mods, calls[0]) && RequestOf(calls[0]).id == id then calls[0].ctx.opens
    else FirstOpens(s, mods, calls[1..], id)
  }

  /** The one sink of a module for the whole run. */
  function Destination(s: State, mods: Registry, calls: seq<Timed>, id: string): Sink {
    if s.split then
      if (if id in s.splitFiles then s.splitFiles[id].open else FirstOpens(s, mods, calls, id))
      then Split(id) else Stdout
    else if s.unified.open then Unified
    else Stdout
  }

  function Routing(s: State, mods: Registry, calls: seq<Timed>): string -> Sink {
    id => Destination(s, mods, calls, id)
  }

  /** What a routing sends to a sink over a run, in call order. */
  function Sent(s: State, mods: Registry, calls: seq<Timed>, route: string -> Sink, k: Sink): seq<string> {
    if calls == [] then []
    else
      (if Admitted(s, mods, calls[0]) && route(RequestOf(calls[0]).id) == k then LinesOf(calls[0]) else [])
      + Sent(s, mods, calls[1..], route, k)
  }

  /** What one call does to an initialised, enabled logger. */
  lemma StepByRequest(s: State, mods: Registry, c: Timed)
    requires Good(s) && s.initialized && s.enabled && KnowsNgen(mods)
    ensures var t := Step(s, c.ctx, mods, c.call);
            match RequestOf(c)
            case Nothing => t == s
            case Lines(id, level, text) =>
              t == if Admitted(s, mods, c) then Deliver(s, id, LinesOf(c), c.ctx.opens) else s
            case Status(id, f) => t == WritePayload(s, c.ctx, mods, id, f)
  {
    match c.call
    case LogVarargs(id, level, f) => if f.Formatted? { OverloadsAgree(s, c.ctx, mods, id, level, f.text); }
    case LogNgenVarargs(level, f) => if f.Formatted? { OverloadsAgree(s, c.ctx, mods, NGEN_ID, level, f.text); }
    case _ =>
  }

  lemma DeliverSplit(s: State, id: string, lines: seq<string>, opens: bool, k: Sink)
    requires s.split && !s.unified.open
    ensures var to := if (if id in s.splitFiles then s.splitFiles[id].open else opens) then Split(id) else Stdout;
            Content(Deliver(s, id, lines, opens), k) == Content(s, k) + if k == to then lines else []
  {}

  /** A delivery adds its lines to the module's sink and to no other. */
  lemma DeliverToDestination(s: State, mods: Registry, c: Timed, rest: seq<Timed>, k: Sink)
    requires Good(s) && s.initialized && Admitted(s, mods, c)
    ensures var id := RequestOf(c).id;
            Content(Deliver(s, id, LinesOf(c), c.ctx.opens), k)
            == Content(s, k) + if Destination(s, mods, [c] + rest, id) == k then LinesOf(c) else []
  {
    var all := [c] + rest;
    assert all[0] == c;
    if s.split { DeliverSplit(s, RequestOf(c).id, LinesOf(c), c.ctx.opens, k); }
  }

  lemma StepAdds(s: State, mods: Registry, c: Timed, rest: seq<Timed>, k: Sink)
    requires Good(s) && s.initialized && s.enabled && KnowsNgen(mods)
    ensures Content(Step(s, c.ctx, mods, c.call), k)
            == Content(s, k) + Added(s, mods, [c] + rest, k)
  {
    StepByRequest(s, mods, c);
    match RequestOf(c)
    case Lines(id, level, text) =>
      if Admitted(s, mods, c) { DeliverToDestination(s, mods, c, rest, k); }
    case Status(id, f) => WritePayloadKeeps(s, c.ctx, mods, id, f);
    case Nothing =>
  }

  /** A call changes no configuration, and opens no split file but that of a module whose
      lines it is the first to deliver. */
  ghost predicate KeepsRoutes(s: State, t: State, mods: Registry, c: Timed) {
    && SameConfig(s, t)
    && forall id ::
         if s.split && Admitted(s, mods, c) && RequestOf(c).id == id && id !in s.splitFiles then
           id in t.splitFiles && t.splitFiles[id].open == c.ctx.opens
         else
           (id in t.splitFiles <==> id in s.splitFiles)
           && (id in s.splitFiles ==> t.splitFiles[id].open == s.splitFiles[id].open)
  }

  lemma StepKeepsRoutes(s: State, mods: Registry, c: Timed)
    requires Good(s) && s.initialized && s.enabled && KnowsNgen(mods)
    ensures KeepsRoutes(s, Step(s, c.ctx, mods, c.call), mods, c)
  {
    StepKeepsGood(s, c.ctx, mods, c.call);
    StepByRequest(s, mods, c);
    match RequestOf(c)
    case Status(id, f) => WritePayloadKeeps(s, c.ctx, mods, id, f);
    case Lines(id, level, text) => if Admitted(s, mods, c) { DeliverKeepsRoutes(s, mods, c); }
    case Nothing =>
  }

  lemma DeliverKeepsRoutes(s: State, mods: Registry, c: Timed)
    requires Good(s) && s.initialized && Admitted(s, mods, c)
    ensures KeepsRoutes(s, Deliver(s, RequestOf(c).id, LinesOf(c), c.ctx.opens), mods, c)
  {
    DeliverKeeps(s, RequestOf(c).id, LinesOf(c), c.ctx.opens);
  }

  /** So no call changes where any module's later lines go. */
  lemma DestinationIsStable(s: State, mods: Registry, c: Timed, rest: seq<Timed>, id: string)
    requires Good(s) && s.initialized && s.enabled && KnowsNgen(mods)
    ensures Destination(Step(s, c.ctx, mods, c.call), mods, rest, id) == Destination(s, mods, [c] + rest, id)
  {
    StepKeepsRoutes(s, mods, c);
    RoutesDecide(s, Step(s, c.ctx, mods, c.call), mods, c, rest, id);
  }

  lemma RoutesDecide(s: State, t: State, mods: Registry, c: Timed, rest: seq<Timed>, id: string)
    requires KeepsRoutes(s, t, mods, c)
    ensures Destination(t, mods, rest, id) == Destination(s, mods, [c] + rest, id)
  {
    SameFilter(s, t, mods, rest, id);
    assert ([c] + rest)[0] == c && ([c] + rest)[1..] == rest;
  }

  lemma {:induction false} SameFilter(s: State, t: State, mods: Registry, calls: seq<Timed>, id: string)
    requires SameConfig(s, t)
    ensures FirstOpens(s, mods, calls, id) == FirstOpens(t, mods, calls, id)
  {
    if calls != [] { SameFilter(s, t, mods, calls[1..], id); }
  }

  lemma {:induction false} SameSent(s: State, t: State, mods: Registry, calls: seq<Timed>,
                                    route: string -> Sink, route': string -> Sink, k: Sink)
    requires SameConfig(s, t) && forall id :: route(id) == route'(id)
    ensures Sent(s, mods, calls, route, k) == Sent(t, mods, calls, route', k)
  {
    if calls != [] { SameSent(s, t, mods, calls[1..], route, route', k); }
  }

  /** Over any run of an initialised, enabled logger every sink gains exactly the non-blank
      lines of the admitted messages whose module's destination it is, once each and in call
      order; and a module has one destination for the whole run. */
  lemma {:induction false} RunDelivers(s: State, mods: Registry, calls: seq<Timed>, k: Sink)
    requires Good(s) && s.initialized && s.enabled && KnowsNgen(mods)
    ensures Content(Run(s, mods, calls), k)
            == Content(s, k) + Sent(s, mods, calls, Routing(s, mods, calls), k)
    decreases |calls|
  {
    if calls != [] {
      var c, rest := calls[0], calls[1..];
      var t := Step(s, c.ctx, mods, c.call);
      assert calls == [c] + rest;
      StepKeepsGood(s, c.ctx, mods, c.call);
      RunDelivers(t, mods, rest, k);
      StepKeepsRoutes(s, mods, c);
      StepAdds(s, mods, c, rest, k);
      SentAfterStep(s, t, mods, c, rest, k);
      Regroup(Content(s, k), Added(s, mods, calls, k), Sent(t, mods, rest, Routing(t, mods, rest), k));
    }
  }

  /** What a call adds to a sink. */
  function Added(s: State, mods: Registry, calls: seq<Timed>, k: Sink): seq<string>
    requires calls != []
  {
    if Admitted(s, mods, calls[0]) && Routing(s, mods, calls)(RequestOf(calls[0]).id) == k then LinesOf(calls[0])
    else []
  }

  lemma SentAfterStep(s: State, t: State, mods: Registry, c: Timed, rest: seq<Timed>, k: Sink)
    requires KeepsRoutes(s, t, mods, c)
    ensures var all := [c] + rest;
            Sent(s, mods, all, Routing(s, mods, all), k)
            == Added(s, mods, all, k) + Sent(t, mods, rest, Routing(t, mods, rest), k)
  {
    var all := [c] + rest;
    assert all[0] == c && all[1..] == rest;
    forall id ensures Routing(s, mods, all)(id) == Routing(t, mods, rest)(id) {
      RoutesDecide(s, t, mods, c, rest, id);
    }
    SameSent(s, t, mods, rest, Routing(s, mods, all), Routing(t, mods, rest), k);
  }

  /** A disabled logger never writes anything. */
  lemma {:induction false} DisabledWritesNothing(s: State, mods: Registry, calls: seq<Timed>)
    requires Good(s) && s.initialized && !s.enabled
    ensures Run(s, mods, calls) == s
  {
    if calls != [] {
      assert Step(s, calls[0].ctx, mods, calls[0].call) == s;
      DisabledWritesNothing(s, mods, calls[1..]);
    }
  }

  // ---- Which calls get through -----------------------------------------------------------------

  /** Which lines are admitted, by position in the registry: those at or above the level of the
      first entry's key, if the id has an entry and the key a level, and otherwise those at or
      above INFO, or the logger's own level for its own id. STATUS never asks for lines. */
  lemma AdmittedIs(s: State, mods: Registry, c: Timed, id: string, level: int, text: string)
    requires c.call == Log(id, level, text) || c.call == LogVarargs(id, level, Formatted(text))
    ensures (forall i :: 0 <= i < |mods| ==> mods[i].ewtsId != id) ==>
              (Admitted(s, mods, c) <==> level != 60 && level >= if id == "NGEN" then s.logLevel else 20)
    ensures forall i: nat :: FirstWithId(mods, id, i) ==>
              (Admitted(s, mods, c) <==>
                level != 60
                && level >= if mods[i].key != "" && mods[i].key in s.levels then s.levels[mods[i].key]
                            else if id == "NGEN" then s.logLevel else 20)
  {
    EffectiveLevelIs(s, mods, id);
  }

  /** Wherever a run has got to, a call for an id that is not registered delivers its lines, to
      the one sink of the id and behind its prefix, if and only if its level is at least 20 and
      is not STATUS; otherwise no sink changes. */
  lemma UnregisteredDelivers(s0: State, mods: Registry, before: seq<Timed>, c: Timed, id: string, level: int,
                             text: string, k: Sink)
    requires Good(s0) && s0.initialized && s0.enabled && KnowsNgen(mods)
    requires c.call == Log(id, level, text) || c.call == LogVarargs(id, level, Formatted(text))
    requires id != "NGEN" && forall i :: 0 <= i < |mods| ==> mods[i].ewtsId != id
    ensures var s := Run(s0, mods, before);
            var lines := Prefixed(LinePrefix(c.ctx.ts, id, level), LoggedLines(text));
            Content(Step(s, c.ctx, mods, c.call), k)
            == Content(s, k) + if level >= 20 && level != 60 && Destination(s, mods, [c], id) == k then lines else []
  {
    RunKeepsGood(s0, mods, before);
    var s := Run(s0, mods, before);
    AdmittedIs(s, mods, c, id, level, text);
    StepAdds(s, mods, c, [], k);
    assert [c] + [] == [c];
  }

  // ---- The payload file ---------------------------------------------------------------------------

  function EntryOf(c: Timed): Entry
    requires RequestOf(c).Status?
  {
    var f := RequestOf(c).f;
    Entry(c.ctx.ts, if RequestOf(c).id != [] then RequestOf(c).id else NGEN_ID, f.status, f.prog, f.msg, f.modnm)
  }

  /** One entry for each status call, well-formed or not, from the first on that finds the
      file open or openable. */
  function Entries(dir: string, calls: seq<Timed>, open: bool): seq<Entry> {
    if calls == [] then []
    else if !RequestOf(calls[0]).Status? then Entries(dir, calls[1..], open)
    else if open || (dir != [] && calls[0].ctx.opens) then [EntryOf(calls[0])] + Entries(dir, calls[1..], true)
    else Entries(dir, calls[1..], false)
  }

  lemma StepRecords(s: State, mods: Registry, c: Timed)
    requires Good(s) && s.initialized && s.enabled && KnowsNgen(mods)
    ensures var p := Step(s, c.ctx, mods, c.call).payload;
            if !RequestOf(c).Status? then p == s.payload
            else if s.payload.open || (s.logDir != [] && c.ctx.opens) then
              p == Stream(true, s.payload.lines + [RecordOf(EntryOf(c))])
            else p == Stream(false, s.payload.lines)
  {
    StepByRequest(s, mods, c);
    match RequestOf(c)
    case Lines(id, level, text) => DeliverKeeps(s, id, LinesOf(c), c.ctx.opens);
    case Status(id, f) => OneRecord(s, mods, c, id, f);
    case Nothing =>
  }

  lemma OneRecord(s: State, mods: Registry, c: Timed, id: string, f: Fields)
    requires Good(s) && s.initialized && s.enabled && RequestOf(c) == Status(id, f)
    ensures WritePayload(s, c.ctx, mods, id, f).payload
            == if s.payload.open || (s.logDir != [] && c.ctx.opens) then
                 Stream(true, s.payload.lines + [RecordOf(EntryOf(c))])
               else Stream(false, s.payload.lines)
  {}

  /** Over any run the payload file gains exactly the records of these entries, in call
      order. */
  lemma {:induction false} RunRecords(s: State, mods: Registry, calls: seq<Timed>)
    requires Good(s) && s.initialized && s.enabled && KnowsNgen(mods)
    ensures Run(s, mods, calls).payload.lines
            == s.payload.lines + RecordsOf(Entries(s.logDir, calls, s.payload.open))
    decreases |calls|
  {
    if calls != [] {
      var c, rest := calls[0], calls[1..];
      var t := Step(s, c.ctx, mods, c.call);
      StepKeepsGood(s, c.ctx, mods, c.call);
      StepRecords(s, mods, c);
      RunRecords(t, mods, rest);
      EntriesStep(s.logDir, c, rest, s.payload, t.payload);
    }
  }

  lemma EntriesStep(dir: string, c: Timed, rest: seq<Timed>, p: Stream, q: Stream)
    requires if !RequestOf(c).Status? then q == p
             else if p.open || (dir != [] && c.ctx.opens) then q == Stream(true, p.lines + [RecordOf(EntryOf(c))])
             else q == Stream(false, p.lines)
    ensures q.lines + RecordsOf(Entries(dir, rest, q.open))
            == p.lines + RecordsOf(Entries(dir, [c] + rest, p.open))
  {
    var all := [c] + rest;
    assert all[0] == c && all[1..] == rest;
    if RequestOf(c).Status? && (p.open || (dir != [] && c.ctx.opens)) {
      var es := Entries(dir, rest, true);
      assert ([EntryOf(c)] + es)[1..] == es;
      Regroup(p.lines, [RecordOf(EntryOf(c))], RecordsOf(es));
    }
  }

  function CountStatus(calls: seq<Timed>): nat {
    if calls == [] then 0 else (if RequestOf(calls[0]).Status? then 1 else 0) + CountStatus(calls[1..])
  }

  /** If the file can be opened no status call goes unrecorded; without a directory none is
      ever recorded. */
  lemma {:induction false} EveryStatusRecorded(dir: string, calls: seq<Timed>, open: bool)
    ensures (open || (dir != [] && forall i :: 0 <= i < |calls| ==> calls[i].ctx.opens)) ==>
              |Entries(dir, calls, open)| == CountStatus(calls)
    ensures !open && dir == [] ==> Entries(dir, calls, open) == []
  {
    if calls != [] {
      EveryStatusRecorded(dir, calls[1..], open);
      EveryStatusRecorded(dir, calls[1..], true);
    }
  }

  lemma {:induction false} EntriesPrintable(dir: string, calls: seq<Timed>, open: bool)
    requires forall j :: 0 <= j < |calls| && RequestOf(calls[j]).Status? ==> Printable(EntryOf(calls[j]))
    ensures forall i :: 0 <= i < |Entries(dir, calls, open)| ==> Printable(Entries(dir, calls, open)[i])
  {
    if calls != [] {
      assert RequestOf(calls[0]).Status? ==> Printable(EntryOf(calls[0]));
      EntriesPrintable(dir, calls[1..], open);
      EntriesPrintable(dir, calls[1..], true);
      EntriesPrintable(dir, calls[1..], false);
    }
  }

  /** Read back line by line, the text of a run's payload file gives the fields of its status
      calls, in call order, with an exception where they were not readable. */
  lemma PayloadLogReadsBack(s: State, mods: Registry, calls: seq<Timed>, number: NumberReader)
    requires Good(s) && s.initialized && s.enabled && KnowsNgen(mods) && s.payload.lines == []
    requires forall j :: 0 <= j < |calls| && RequestOf(calls[j]).Status? ==> Printable(EntryOf(calls[j]))
    ensures var es := Entries(s.logDir, calls, s.payload.open);
            AllGiveBack(Outcomes(FileLines(FileText(Run(s, mods, calls).payload.lines)), number), es, number)
  {
    var es := Entries(s.logDir, calls, s.payload.open);
    assert Run(s, mods, calls).payload.lines == RecordsOf(es) by { RunRecords(s, mods, calls); }
    assert AllGiveBack(Outcomes(FileLines(FileText(RecordsOf(es))), number), es, number) by {
      EntriesPrintable(s.logDir, calls, s.payload.open);
      LogReadsBack(es, number);
    }
  }

  lemma InitWritesNothing(env: Env, mods: Registry, k: Sink)
    ensures Content(AfterInit(INITIAL, env, mods), k) == [] && AfterInit(INITIAL, env, mods).payload == CLOSED
  {}

  /** The sinks of a fresh logger after any run. */
  lemma RunFromStart(mods: Registry, calls: seq<Timed>, k: Sink)
    requires KnowsNgen(mods)
    ensures var t := Run(INITIAL, mods, calls);
            match FirstHeard(calls)
            case None => t == INITIAL
            case Some(i) =>
              var s := AfterInit(INITIAL, calls[i].ctx.env, mods);
              if s.enabled then
                && Content(t, k) == Sent(s, mods, calls, Routing(s, mods, calls), k)
                && t.payload.lines == RecordsOf(Entries(s.logDir, calls, false))
              else Content(t, k) == [] && t.payload.lines == []
  {
    RunFromInit(INITIAL, mods, calls);
    if FirstHeard(calls).Some? {
      var env := calls[FirstHeard(calls).value].ctx.env;
      var s := AfterInit(INITIAL, env, mods);
      InitKeepsGood(INITIAL, env, mods);
      InitWritesNothing(env, mods, k);
      if s.enabled {
        RunDelivers(s, mods, calls, k);
        RunRecords(s, mods, calls);
      } else {
        DisabledWritesNothing(s, mods, calls);
      }
    }
  }
}
