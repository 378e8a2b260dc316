/** The logger ngen shares among all languages: initialised once from the environment and a
    configuration file, filtering by module, writing lines to split files, one unified file
    or stdout, and status records to a payload file opened on first need. Files are modelled
    by the lines they hold; whether an open succeeds is a parameter of the call. */
module NgenLogger {
  import opened Options
  import opened Text
  import opened Levels
  import opened ModuleRegistry
  import opened PayloadFraming
  import opened PayloadCodec
  import opened LineSplit
  import opened ConfigSearch

  const NGEN_KEY := "ngen"
  const NGEN_ID := "NGEN"

  // ---- Levels in configuration ----------------------------------------------------------

  function TrimString(s: string): string { Strip(s, IS_C_SPACE) }

  predicate IsDigitString(s: string) { s != [] && AllDigits(s) }

  function ParseLevel(value: string): (r: int)
    ensures Canonical(r)
  {
    var v := Lower(TrimString(value));
    if v == "debug" then DEBUG
    else if v == "performance" || v == "perform" then PERFORM
    else if v == "info" then INFO
    else if v == "warning" || v == "warn" then WARNING
    else if v == "error" || v == "severe" then SEVERE
    else if v == "fatal" || v == "critical" then FATAL
    else if v == "status" then STATUS
    else if v == "notset" || v == "none" then NOTSET
    else if IsDigitString(v) then ClampCanonicalLevel(NumberOf(v))
    else INFO
  }

  function ConfiguredLevel(raw: string): (r: int)
    ensures Canonical(r)
  {
    if IsDigitString(raw) then ClampCanonicalLevel(NumberOf(raw)) else ParseLevel(raw)
  }

  /** The words for levels. */
  const LEVEL_WORDS: map<string, int> := map[
    "debug" := 10, "performance" := 15, "perform" := 15, "info" := 20, "warning" := 30, "warn" := 30,
    "error" := 40, "severe" := 40, "fatal" := 50, "critical" := 50, "status" := 60, "notset" := 0, "none" := 0]

  /** The least of the eight levels that is not below a number, or 60 above 60. */
  ghost predicate RoundsUpTo(n: nat, level: int) {
    && Canonical(level)
    && if n <= 60 then n <= level && forall c :: Canonical(c) && n <= c ==> level <= c else level == 60
  }

  /** The level a text stands for: a word of the table in any case, or a number that is rounded
      up; anything else is INFO. Whitespace around it does not count. */
  ghost predicate LevelOfText(text: string, level: int) {
    var word := Lower(Strip(text, IS_C_SPACE));
    if word in LEVEL_WORDS then level == LEVEL_WORDS[word]
    else if word != "" && AllDigits(word) then RoundsUpTo(NumberOf(word), level)
    else level == 20
  }

  lemma ClampRoundsUp(n: nat)
    ensures RoundsUpTo(n, ClampCanonicalLevel(n))
  {}

  lemma LowerDigits(s: string)
    ensures AllDigits(s) ==> Lower(s) == s
    ensures AllDigits(Lower(s)) ==> AllDigits(s)
  {
    forall i | 0 <= i < |s| && AllDigits(Lower(s)) ensures '0' <= s[i] <= '9' {
      assert Lower(s)[i] == LowerChar(s[i]);
    }
  }

  lemma WordsAreNoDigits(w: string)
    requires w in LEVEL_WORDS
    ensures !AllDigits(w)
  {
    assert w != "" && !('0' <= w[0] <= '9');
  }

  lemma TrimTwice(s: string)
    ensures TrimString(TrimString(s)) == TrimString(s)
  {
    var t := Strip(s, IS_C_SPACE);
    StripIs(s, t, IS_C_SPACE);
    assert TrimmedTo(t, t, IS_C_SPACE, 0, |t|);
    StripIs(t, t, IS_C_SPACE);
  }

  lemma ParsedWord(value: string)
    ensures var w := Lower(TrimString(value));
            !AllDigits(w) ==> ParseLevel(value) == if w in LEVEL_WORDS then LEVEL_WORDS[w] else 20
  {}

  lemma ConfiguredLevelIs(text: string)
    ensures LevelOfText(text, ConfiguredLevel(TrimString(text)))
  {
    var raw := TrimString(text);
    var w := Lower(raw);
    TrimTwice(text);
    LowerDigits(raw);
    if raw != "" && AllDigits(raw) {
      if w in LEVEL_WORDS { WordsAreNoDigits(w); }
      ClampRoundsUp(NumberOf(raw));
    } else if raw == "" {
      assert w == "";
      assert "" !in LEVEL_WORDS;
    } else {
      ParsedWord(raw);
    }
  }

  // ---- The world around the logger --------------------------------------------------------

  /** What a configuration file holds, as far as it is read. */
  datatype FileContent =
    | Unparsable
    | Config(ewtsEnabled: Option<bool>, loggingEnabled: Option<bool>, split: Option<bool>,
             modules: seq<(string, string)>)

  /** Environment variables (empty when unset), files, and whether the unified log opens. */
  datatype Env = Env(resultsDir: string, logDir: string, defaultLevel: string,
                     files: map<string, FileContent>, unifiedOpens: bool)

  function DefaultLevel(env: Env): (r: int)
    ensures Canonical(r)
  {
    if env.defaultLevel == [] then INFO else ConfiguredLevel(TrimString(env.defaultLevel))
  }

  // ---- The state ------------------------------------------------------------------------------

  datatype Stream = Stream(open: bool, lines: seq<string>)

  const CLOSED := Stream(false, [])

  datatype State = State(
    initialized: bool, enabled: bool, split: bool, logDir: string, logLevel: int,
    levels: map<string, int>, unified: Stream, splitFiles: map<string, Stream>,
    stdout: seq<string>, payload: Stream)

  const INITIAL := State(false, true, false, "", INFO, map[], CLOSED, map[], [], CLOSED)

  // ---- Initialisation ---------------------------------------------------------------------------

  function ParsedLevels(entries: seq<(string, string)>): (r: seq<(string, int)>)
    ensures |r| == |entries|
    ensures forall i :: 0 <= i < |r| ==> r[i] == (TrimString(entries[i].0), ConfiguredLevel(TrimString(entries[i].1)))
  {
    seq(|entries|, i requires 0 <= i < |entries| =>
      (TrimString(entries[i].0), ConfiguredLevel(TrimString(entries[i].1))))
  }

  function PutAll(levels: map<string, int>, pairs: seq<(string, int)>): map<string, int> {
    if pairs == [] then levels
    else PutAll(levels, pairs[..|pairs| - 1])[pairs[|pairs| - 1].0 := pairs[|pairs| - 1].1]
  }

  function AllAt(mods: Registry, level: int): map<string, int> {
    (map m | m in mods && m.key != "" :: m.key := level)[NGEN_KEY := level]
  }

  /** The configuration read from the results directory or an ancestor; `None` if there is
      none to read. */
  function FoundConfig(env: Env): (c: Option<FileContent>)
    ensures c.Some? ==> c.value.Config?
  {
    var hits := ConfigsOn(Chain(env.resultsDir), env.files);
    if hits != [] && env.files[hits[0]].Config? then Some(env.files[hits[0]]) else None
  }

  /** The configuration files among some directories, in order. */
  function ConfigsOn(dirs: seq<string>, files: map<string, FileContent>): (r: seq<string>)
    ensures forall i :: 0 <= i < |r| ==> r[i] in files
  {
    if dirs == [] then []
    else
      var candidate := JoinPath(dirs[0], CONFIG_NAME);
      (if candidate in files then [candidate] else []) + ConfigsOn(dirs[1..], files)
  }

  function Defaults(s: State, env: Env, mods: Registry): State {
    s.(enabled := true, split := false, levels := AllAt(mods, DefaultLevel(env)), logLevel := DefaultLevel(env))
  }

  function FromConfig(s: State, env: Env, c: FileContent): State
    requires c.Config?
  {
    var levels := PutAll(s.levels[NGEN_KEY := INFO], ParsedLevels(c.modules));
    s.(enabled := if c.ewtsEnabled.Some? then c.ewtsEnabled.value
                  else if c.loggingEnabled.Some? then c.loggingEnabled.value else true,
       split := c.split.Some? && c.split.value,
       levels := levels,
       logLevel := if NGEN_KEY in levels then levels[NGEN_KEY] else DefaultLevel(env))
  }

  function Configured(s: State, env: Env, mods: Registry): State {
    if env.resultsDir != [] && FoundConfig(env).Some? then FromConfig(s, env, FoundConfig(env).value)
    else Defaults(s, env, mods)
  }

  function WithLogFile(s: State, env: Env): State {
    var dir := if env.resultsDir != [] then env.resultsDir else env.logDir;
    s.(initialized := true, logDir := dir,
       unified := if dir == [] || s.split then s.unified else Stream(env.unifiedOpens, s.unified.lines))
  }

  function AfterInit(s: State, env: Env, mods: Registry): State {
    if s.initialized then s else WithLogFile(Configured(s, env, mods), env)
  }

  // ---- What initialisation amounts to -----------------------------------------------------------

  /** The last of some configured levels that is for a key. */
  ghost predicate LastFor(entries: seq<(string, string)>, key: string, i: nat) {
    i < |entries| && Strip(entries[i].0, IS_C_SPACE) == key
    && forall j :: i < j < |entries| ==> Strip(entries[j].0, IS_C_SPACE) != key
  }

  /** A key has the level its last entry gives; without one it keeps its own, which for "ngen"
      is INFO. */
  ghost predicate LevelRead(entries: seq<(string, string)>, before: map<string, int>, after: map<string, int>,
                            key: string)
  {
    && (forall i: nat :: LastFor(entries, key, i) ==> key in after && LevelOfText(entries[i].1, after[key]))
    && ((forall i :: 0 <= i < |entries| ==> Strip(entries[i].0, IS_C_SPACE) != key) ==>
          && (key in after <==> key in before || key == "ngen")
          && (key in after ==> after[key] == if key == "ngen" then 20 else before[key]))
  }

  /** The fields after a configuration has been read. */
  ghost predicate ConfigRead(c: FileContent, before: State, after: State)
    requires c.Config?
  {
    && (after.enabled <==> if c.ewtsEnabled.Some? then c.ewtsEnabled.value
                           else c.loggingEnabled.Some? ==> c.loggingEnabled.value)
    && (after.split <==> c.split == Some(true))
    && (forall key :: LevelRead(c.modules, before.levels, after.levels, key))
    && "ngen" in after.levels && after.logLevel == after.levels["ngen"]
  }

  ghost predicate DefaultLevelIs(env: Env, level: int) {
    if env.defaultLevel == "" then level == 20 else LevelOfText(env.defaultLevel, level)
  }

  /** The fields of a logger without configuration: all keys at the default level. */
  ghost predicate DefaultsTaken(env: Env, mods: Registry, after: State) {
    && after.enabled && !after.split
    && (forall key :: key in after.levels <==>
          key == "ngen" || (key != "" && exists i :: 0 <= i < |mods| && mods[i].key == key))
    && (forall key :: key in after.levels ==> DefaultLevelIs(env, after.levels[key]))
    && after.logLevel == after.levels["ngen"]
  }

  /** The fields of a logger that has just been initialised, with the nearest configuration
      file, if there is one. */
  ghost predicate Initialised(before: State, after: State, env: Env, mods: Registry, file: Option<string>)
    requires file.Some? ==> file.value in env.files
  {
    && after.initialized
    && after.logDir == (if env.resultsDir != "" then env.resultsDir else env.logDir)
    && (if env.resultsDir != "" && file.Some? && env.files[file.value].Config? then
          ConfigRead(env.files[file.value], before, after)
        else DefaultsTaken(env, mods, after))
    && after.unified == (if after.logDir == "" || after.split then before.unified
                         else Stream(env.unifiedOpens, before.unified.lines))
    && after.splitFiles == before.splitFiles && after.stdout == before.stdout && after.payload == before.payload
  }

  lemma {:induction false} PutLast(before: map<string, int>, pairs: seq<(string, int)>, i: nat)
    requires i < |pairs| && forall j :: i < j < |pairs| ==> pairs[j].0 != pairs[i].0
    ensures pairs[i].0 in PutAll(before, pairs) && PutAll(before, pairs)[pairs[i].0] == pairs[i].1
    decreases |pairs|
  {
    if i < |pairs| - 1 { PutLast(before, pairs[..|pairs| - 1], i); }
  }

  lemma {:induction false} PutNone(before: map<string, int>, pairs: seq<(string, int)>, key: string)
    requires forall i :: 0 <= i < |pairs| ==> pairs[i].0 != key
    ensures key in PutAll(before, pairs) <==> key in before
    ensures key in before ==> PutAll(before, pairs)[key] == before[key]
  {
    if pairs != [] { PutNone(before, pairs[..|pairs| - 1], key); }
  }

  lemma {:induction false} PutKeeps(before: map<string, int>, pairs: seq<(string, int)>, key: string)
    requires key in before
    ensures key in PutAll(before, pairs)
  {
    if pairs != [] { PutKeeps(before, pairs[..|pairs| - 1], key); }
  }

  lemma LevelIsRead(entries: seq<(string, string)>, before: map<string, int>, key: string)
    ensures LevelRead(entries, before, PutAll(before["ngen" := 20], ParsedLevels(entries)), key)
  {
    var start, pairs := before["ngen" := 20], ParsedLevels(entries);
    forall i: nat | LastFor(entries, key, i)
      ensures key in PutAll(start, pairs) && LevelOfText(entries[i].1, PutAll(start, pairs)[key])
    {
      PutLast(start, pairs, i);
      ConfiguredLevelIs(entries[i].1);
    }
    if forall i :: 0 <= i < |entries| ==> Strip(entries[i].0, IS_C_SPACE) != key {
      PutNone(start, pairs, key);
    }
  }

  lemma ConfigIsRead(s: State, env: Env, c: FileContent)
    requires c.Config?
    ensures ConfigRead(c, s, FromConfig(s, env, c))
  {
    var t := FromConfig(s, env, c);
    forall key ensures LevelRead(c.modules, s.levels, t.levels, key) {
      LevelIsRead(c.modules, s.levels, key);
    }
    PutKeeps(s.levels[NGEN_KEY := INFO], ParsedLevels(c.modules), "ngen");
  }

  lemma DefaultsAreTaken(s: State, env: Env, mods: Registry)
    ensures DefaultsTaken(env, mods, Defaults(s, env, mods))
  {
    var t := Defaults(s, env, mods);
    ConfiguredLevelIs(env.defaultLevel);
    forall key ensures key in t.levels <==>
                         key == "ngen" || (key != "" && exists i :: 0 <= i < |mods| && mods[i].key == key)
    {
      if key != "ngen" && key in t.levels {
        var m :| m in mods && m.key == key;
        var i :| 0 <= i < |mods| && mods[i] == m;
      }
      if i :| 0 <= i < |mods| && mods[i].key == key && key != "" {
        assert mods[i] in mods;
      }
    }
  }

  /** What reading the configuration is to achieve: success if and only if the nearest file
      parses, and then its fields. */
  ghost predicate NearestRead(before: State, after: State, env: Env, loaded: bool) {
    exists file :: NearestConfig(env.resultsDir, env.files.Keys, file)
                   && ReadFrom(before, after, env, file, loaded)
  }

  ghost predicate ReadFrom(before: State, after: State, env: Env, file: Option<string>, loaded: bool) {
    && (file.Some? ==> file.value in env.files)
    && (loaded <==> file.Some? && env.files[file.value].Config?)
    && (loaded ==> ConfigRead(env.files[file.value], before, after))
  }

  /** What initialisation is to achieve. */
  ghost predicate NearestTaken(before: State, after: State, env: Env, mods: Registry) {
    exists file :: NearestConfig(env.resultsDir, env.files.Keys, file)
                   && (file.Some? ==> file.value in env.files) && Initialised(before, after, env, mods, file)
  }

  lemma ReadIs(before: State, after: State, env: Env, loaded: bool)
    requires loaded <==> FoundConfig(env).Some?
    requires loaded ==> after == FromConfig(before, env, FoundConfig(env).value)
    ensures NearestRead(before, after, env, loaded)
  {
    var file := NearestFound(env);
    if loaded { ConfigIsRead(before, env, FoundConfig(env).value); }
    assert ReadFrom(before, after, env, file, loaded);
  }

  lemma NearestFound(env: Env) returns (file: Option<string>)
    ensures NearestConfig(env.resultsDir, env.files.Keys, file)
    ensures file.Some? ==> file.value in env.files
    ensures FoundConfig(env)
            == if file.Some? && env.files[file.value].Config? then Some(env.files[file.value]) else None
  {
    var hits := ConfigsOn(Chain(env.resultsDir), env.files);
    file := if hits == [] then None else Some(hits[0]);
    FirstOfHits(Chain(env.resultsDir), env.files);
    DeepestConfigWins(env.resultsDir, env.files.Keys, file);
  }

  /** Initialisation happens once, and leaves the fields as the nearest configuration or the
      defaults have it. */
  lemma AfterInitIs(s: State, env: Env, mods: Registry)
    ensures if s.initialized then AfterInit(s, env, mods) == s
            else NearestTaken(s, AfterInit(s, env, mods), env, mods)
  {
    if !s.initialized {
      var file := NearestFound(env);
      if FoundConfig(env).Some? { ConfigIsRead(s, env, FoundConfig(env).value); }
      DefaultsAreTaken(s, env, mods);
      assert Initialised(s, AfterInit(s, env, mods), env, mods, file);
    }
  }

  lemma {:induction false} FirstOfHits(dirs: seq<string>, files: map<string, FileContent>)
    ensures var hits := ConfigsOn(dirs, files);
            IsFirstConfig(dirs, files.Keys, if hits == [] then None else Some(hits[0]))
  {
    if dirs != [] {
      var candidate, rest := JoinPath(dirs[0], CONFIG_NAME), dirs[1..];
      FirstOfHits(rest, files);
      if candidate !in files && ConfigsOn(rest, files) != [] {
        var hit := ConfigsOn(rest, files)[0];
        var i :| 0 <= i < |rest| && hit == JoinPath(rest[i], CONFIG_NAME) && hit in files.Keys
                 && forall j :: 0 <= j < i ==> JoinPath(rest[j], CONFIG_NAME) !in files.Keys;
        assert dirs[i + 1] == rest[i];
        forall j | 0 <= j < i + 1 ensures JoinPath(dirs[j], CONFIG_NAME) !in files.Keys {
          if j > 0 { assert dirs[j] == rest[j - 1]; }
        }
      }
    }
  }

  // ---- Filtering ----------------------------------------------------------------------------------

  /** The level that decides about a module's messages: that of the first registry key with
      this id, if it is known; else the logger's own for its own id; else INFO. */
  function EffectiveLevel(s: State, mods: Registry, id: string): int {
    var keys := KeysOf(mods, id);
    if keys != [] && keys[0] != "" && keys[0] in s.levels then s.levels[keys[0]]
    else if id == NGEN_ID then s.logLevel
    else INFO
  }

  /** The entry at which a scan for an id stops. */
  ghost predicate FirstWithId(mods: Registry, id: string, i: nat) {
    i < |mods| && mods[i].ewtsId == id && forall j :: 0 <= j < i ==> mods[j].ewtsId != id
  }

  /** The deciding level by position in the registry: without an entry for the id it is INFO,
      or the logger's own for its own id; else it is that of the first entry's key, if that
      is set. */
  lemma EffectiveLevelIs(s: State, mods: Registry, id: string)
    ensures (forall i :: 0 <= i < |mods| ==> mods[i].ewtsId != id) ==>
              EffectiveLevel(s, mods, id) == if id == "NGEN" then s.logLevel else 20
    ensures forall i: nat :: FirstWithId(mods, id, i) ==>
              EffectiveLevel(s, mods, id) ==
                if mods[i].key != "" && mods[i].key in s.levels then s.levels[mods[i].key]
                else if id == "NGEN" then s.logLevel else 20
  {
    if forall i :: 0 <= i < |mods| ==> mods[i].ewtsId != id { NoEntry(mods, id); }
    forall i: nat | FirstWithId(mods, id, i) ensures Matches(mods, id) != [] && Matches(mods, id)[0] == mods[i] {
      FirstEntry(mods, id, i);
    }
  }

  // ---- Calls ------------------------------------------------------------------------------------------

  /** The fields of a status payload, the progress as it will be printed. */
  datatype Fields = Fields(status: string, prog: Option<string>, msg: string, modnm: string)

  /** What boost made of a payload text: fields, or the message to report instead. */
  datatype BoostOutcome = Parsed(fields: Fields) | Rejected(report: string)

  /** What the environment supplies to one call: variables and files, the clock, whether a
      file opened during the call opens, and how boost reads a payload. */
  datatype Context = Context(env: Env, ts: string, opens: bool, boost: BoostOutcome)

  /** The message of a varargs call: null, one that vsnprintf rejects, or a text. */
  datatype Format = NullFormat | BadFormat | Formatted(text: string)

  datatype Call =
    | Log(id: string, level: int, message: string)
    | LogNgen(level: int, message: string)
    | LogVarargs(id: string, level: int, format: Format)
    | LogNgenVarargs(level: int, format: Format)
    | PayloadJson(id: string, json: Option<string>)
    | PayloadFields(id: string, status: string, prog: Option<string>, msg: string, modnm: string)

  function LevelName(level: int): string {
    if level == NOTSET then "NOTSET "
    else if level == DEBUG then "DEBUG  "
    else if level == PERFORM then "PERFORM"
    else if level == WARNING then "WARNING"
    else if level == SEVERE then "SEVERE "
    else if level == FATAL then "FATAL  "
    else if level == STATUS then "STATUS "
    else "INFO   "
  }

  function LinePrefix(ts: string, id: string, level: int): string {
    ts + " " + PadEwtsId(id) + " " + LevelName(level)
  }

  const LEVEL_NAMES: map<int, string> := map[
    0 := "NOTSET ", 10 := "DEBUG  ", 15 := "PERFORM", 20 := "INFO   ", 30 := "WARNING", 40 := "SEVERE ",
    50 := "FATAL  ", 60 := "STATUS "]

  /** The stamp, eight characters of id in upper case, and seven of the level's name, which
      for a number between the levels is INFO. */
  lemma LinePrefixIs(ts: string, id: string, level: int)
    ensures LinePrefix(ts, id, level)
            == ts + " " + PadEwtsId(id) + " " + if level in LEVEL_NAMES then LEVEL_NAMES[level] else "INFO   "
  {}

  // ---- Writing -------------------------------------------------------------------------------------------

  /** Splits go to the module's own file, opened with its first message; if that file is not
      open, to the unified log; if that is not open, to stdout. */
  function Deliver(s: State, id: string, lines: seq<string>, opens: bool): State {
    var t := if s.split && id !in s.splitFiles then s.(splitFiles := s.splitFiles[id := Stream(opens, [])]) else s;
    if t.split && t.splitFiles[id].open then
      t.(splitFiles := t.splitFiles[id := Stream(true, t.splitFiles[id].lines + lines)])
    else if t.unified.open then t.(unified := Stream(true, t.unified.lines + lines))
    else t.(stdout := t.stdout + lines)
  }

  function OpenPayload(s: State, env: Env, mods: Registry, opens: bool): State {
    if s.payload.open then s
    else
      var t := AfterInit(s, env, mods);
      if !t.enabled || t.logDir == [] then t else t.(payload := Stream(opens, t.payload.lines))
  }

  /** One record per call while the payload file is or gets open. */
  function WritePayload(s: State, ctx: Context, mods: Registry, id: string, f: Fields): State
  {
    var t := OpenPayload(s, ctx.env, mods, ctx.opens);
    if !t.payload.open then t
    else
      var name := if id != [] then id else NGEN_ID;
      t.(payload := Stream(true, t.payload.lines + [Record(ctx.ts, name, f.status, f.prog, f.msg, f.modnm)]))
  }

  const NULL_PAYLOAD := "Malformed payload: payload message is null"

  /** The fields recorded for a payload text: those it holds, or an error report. */
  function PayloadOf(json: Option<string>, boost: BoostOutcome): Fields
  {
    match json
    case None => Fields("ERROR", Some("0"), NULL_PAYLOAD, "")
    case Some(text) =>
      var extracted := ExtractJsonPayload(text);
      if extracted.Malformed? then Fields("ERROR", None, extracted.error, "")
      else if boost.Rejected? then Fields("ERROR", None, boost.report, "")
      else boost.fields
  }

  /** What is recorded for a payload text, case by case. */
  lemma PayloadOfIs(text: string, boost: BoostOutcome)
    ensures PayloadOf(None, boost)
            == Fields("ERROR", Some("0"), "Malformed payload: payload message is null", "")
    ensures ExtractJsonPayload(text).Malformed? ==>
              PayloadOf(Some(text), boost) == Fields("ERROR", None, ExtractJsonPayload(text).error, "")
    ensures ExtractJsonPayload(text).Extracted? ==>
              PayloadOf(Some(text), boost)
              == if boost.Parsed? then boost.fields else Fields("ERROR", None, boost.report, "")
  {}

  // ---- One call -----------------------------------------------------------------------------------------------

  function StepLog(s0: State, ctx: Context, mods: Registry, id: string, level: int, message: string): State {
    var s := AfterInit(s0, ctx.env, mods);
    if !s.enabled then s
    else if level == STATUS then WritePayload(s, ctx, mods, id, PayloadOf(Some(message), ctx.boost))
    else if level < EffectiveLevel(s, mods, id) then s
    else Deliver(s, id, Prefixed(LinePrefix(ctx.ts, id, level), LoggedLines(message)), ctx.opens)
  }

  /** A varargs call filters first, at `threshold`, and only then formats and logs. */
  function StepVarargs(s0: State, ctx: Context, mods: Registry, id: string, level: int, format: Format,
                        own: bool): State
  {
    if format.NullFormat? then s0
    else
      var s := AfterInit(s0, ctx.env, mods);
      var threshold := if own then s.logLevel else EffectiveLevel(s, mods, id);
      if !s.enabled || level < threshold || format.BadFormat? then s
      else StepLog(s, ctx, mods, id, level, format.text)
  }

  function Step(s: State, ctx: Context, mods: Registry, call: Call): State {
    match call
    case Log(id, level, message) => StepLog(s, ctx, mods, id, level, message)
    case LogNgen(level, message) => StepLog(s, ctx, mods, NGEN_ID, level, message)
    case LogVarargs(id, level, format) => StepVarargs(s, ctx, mods, id, level, format, false)
    case LogNgenVarargs(level, format) => StepVarargs(s, ctx, mods, NGEN_ID, level, format, true)
    case PayloadJson(id, json) => WritePayload(s, ctx, mods, id, PayloadOf(json, ctx.boost))
    case PayloadFields(id, status, prog, msg, modnm) =>
      WritePayload(s, ctx, mods, id, Fields(status, prog, msg, modnm))
  }

  // ---- The program ------------------------------------------------------------------------------------------------

  class Logger {
    const modules: Registry
    var initialized: bool
    var loggingEnabled: bool
    var splitLogsByModule: bool
    var logFileDir: string
    var logLevel: int
    var moduleLogLevels: map<string, int>
    var logFile: Stream
    var splitLogFiles: map<string, Stream>
    var stdout: seq<string>
    var payloadFile: Stream

    ghost function View(): State
      reads this
    {
      State(initialized, loggingEnabled, splitLogsByModule, logFileDir, logLevel, moduleLogLevels,
            logFile, splitLogFiles, stdout, payloadFile)
    }

    constructor (modules: Registry)
      ensures this.modules == modules && View() == INITIAL
    {
      this.modules := modules;
      initialized, loggingEnabled, splitLogsByModule, logFileDir := false, true, false, "";
      logLevel, moduleLogLevels, logFile, splitLogFiles, stdout := INFO, map[], CLOSED, map[], [];
      payloadFile := CLOSED;
    }

    static method LocateConfig(env: Env) returns (cfg: Option<string>)
      ensures cfg.Some? ==> cfg.value in env.files
      ensures FoundConfig(env) == if cfg.Some? && env.files[cfg.value].Config? then Some(env.files[cfg.value]) else None
    {
      cfg := FindConfigFileFromPath(env.resultsDir, env.files.Keys);
      FirstConfig(Chain(env.resultsDir), env.files, cfg);
    }

    /** Reads the configuration; false if there is none. */
    method ReadConfigFromResultsDir(env: Env) returns (loaded: bool)
      modifies `loggingEnabled, `splitLogsByModule, `moduleLogLevels, `logLevel
      ensures loaded == FoundConfig(env).Some?
      ensures loaded ==> View() == FromConfig(old(View()), env, FoundConfig(env).value)
      ensures NearestRead(old(View()), View(), env, loaded)
    {
      ghost var before := View();
      var cfg := LocateConfig(env);
      loaded := TryConfig(env, cfg);
      ReadIs(before, View(), env, loaded);
    }

    /** Starts from the defaults and takes the fields of a file that parses. */
    method TryConfig(env: Env, cfg: Option<string>) returns (loaded: bool)
      requires cfg.Some? ==> cfg.value in env.files
      modifies `loggingEnabled, `splitLogsByModule, `moduleLogLevels, `logLevel
      ensures loaded <==> cfg.Some? && env.files[cfg.value].Config?
      ensures loaded ==> View() == FromConfig(old(View()), env, env.files[cfg.value])
    {
      loggingEnabled, splitLogsByModule := true, false;
      moduleLogLevels := moduleLogLevels[NGEN_KEY := INFO];
      if cfg.None? {
        logLevel := moduleLogLevels[NGEN_KEY];
        return false;
      }
      var content := env.files[cfg.value];
      if content.Unparsable? {
        logLevel := moduleLogLevels[NGEN_KEY];
        return false;
      }
      TakeConfig(env, content);
      return true;
    }

    method TakeConfig(env: Env, content: FileContent)
      requires content.Config? && !splitLogsByModule
      modifies `loggingEnabled, `splitLogsByModule, `moduleLogLevels, `logLevel
      ensures loggingEnabled == if content.ewtsEnabled.Some? then content.ewtsEnabled.value
                                else if content.loggingEnabled.Some? then content.loggingEnabled.value else true
      ensures splitLogsByModule == (content.split.Some? && content.split.value)
      ensures moduleLogLevels == PutAll(old(moduleLogLevels), ParsedLevels(content.modules))
      ensures logLevel == if NGEN_KEY in moduleLogLevels then moduleLogLevels[NGEN_KEY] else DefaultLevel(env)
    {
      var enabled := true;
      if content.ewtsEnabled.Some? {
        enabled := content.ewtsEnabled.value;
      } else if content.loggingEnabled.Some? {
        enabled := content.loggingEnabled.value;
      }
      loggingEnabled := enabled;
      if content.split.Some? { splitLogsByModule := content.split.value; }
      ReadModuleLevels(content.modules);
      logLevel := if NGEN_KEY in moduleLogLevels then moduleLogLevels[NGEN_KEY] else DefaultLevel(env);
    }

    method ReadModuleLevels(entries: seq<(string, string)>)
      modifies `moduleLogLevels
      ensures moduleLogLevels == PutAll(old(moduleLogLevels), ParsedLevels(entries))
    {
      ghost var pairs := ParsedLevels(entries);
      for i := 0 to |entries|
        invariant moduleLogLevels == PutAll(old(moduleLogLevels), pairs[..i])
      {
        assert pairs[..i + 1][..i] == pairs[..i];
        var key, raw := TrimString(entries[i].0), TrimString(entries[i].1);
        var level := INFO;
        if IsDigitString(raw) {
          level := ClampCanonicalLevel(NumberOf(raw));
        } else {
          level := ParseLevel(raw);
        }
        moduleLogLevels := moduleLogLevels[key := level];
      }
      assert pairs[..|pairs|] == pairs;
    }

    method SetDefaultLevels(level: int)
      modifies `moduleLogLevels
      ensures moduleLogLevels == AllAt(modules, level)
    {
      moduleLogLevels := map[];
      for i := 0 to |modules|
        invariant moduleLogLevels == map m | m in modules[..i] && m.key != "" :: m.key := level
      {
        assert modules[..i + 1] == modules[..i] + [modules[i]];
        if modules[i].key != "" {
          moduleLogLevels := moduleLogLevels[modules[i].key := level];
        }
      }
      assert modules[..|modules|] == modules;
      moduleLogLevels := moduleLogLevels[NGEN_KEY := level];
    }

    /** Does its work once; later environments are not looked at. */
    method InitIfNeeded(env: Env)
      modifies this
      ensures View() == AfterInit(old(View()), env, modules)
      ensures if old(initialized) then View() == old(View()) else NearestTaken(old(View()), View(), env, modules)
    {
      ghost var before := View();
      if initialized { return; }
      var loaded := false;
      if env.resultsDir != [] {
        loaded := ReadConfigFromResultsDir(env);
      }
      if !loaded {
        loggingEnabled, splitLogsByModule := true, false;
        SetDefaultLevels(DefaultLevel(env));
        logLevel := DefaultLevel(env);
      }
      assert View() == Configured(old(View()), env, modules);
      SetupLogFile(env);
      initialized := true;
      assert NearestTaken(before, View(), env, modules) by { AfterInitIs(before, env, modules); }
    }

    method SetupLogFile(env: Env)
      modifies `logFileDir, `logFile
      ensures View().(initialized := true) == WithLogFile(old(View()), env)
    {
      logFileDir := if env.resultsDir != [] then env.resultsDir else env.logDir;
      if logFileDir == [] { return; }
      if splitLogsByModule { return; }
      logFile := Stream(env.unifiedOpens, logFile.lines);
    }

    /** The scan over the registry, which stops at the first entry with the id. */
    method FindEffectiveLevel(id: string) returns (level: int)
      ensures level == EffectiveLevel(View(), modules, id)
      ensures (forall i :: 0 <= i < |modules| ==> modules[i].ewtsId != id) ==>
                level == if id == "NGEN" then logLevel else 20
      ensures forall i: nat :: FirstWithId(modules, id, i) ==>
                level == if modules[i].key != "" && modules[i].key in moduleLogLevels then
                           moduleLogLevels[modules[i].key]
                         else if id == "NGEN" then logLevel else 20
    {
      EffectiveLevelIs(View(), modules, id);
      level := logLevel;
      var found := false;
      ghost var hit := false;
      for i := 0 to |modules|
        invariant !hit && !found && level == logLevel && Matches(modules[..i], id) == []
      {
        MatchesPrefix(modules, i, id);
        if modules[i].ewtsId == id {
          MatchesOfPrefix(modules, i + 1, id);
          if modules[i].key != "" && modules[i].key in moduleLogLevels {
            level := moduleLogLevels[modules[i].key];
            found := true;
          }
          hit := true;
          break;
        }
      }
      assert modules[..|modules|] == modules;
      if !found && id == NGEN_ID {
        level := logLevel;
        found := true;
      }
      if !found { level := INFO; }
    }

    method OpenPayloadFileIfNeeded(env: Env, opens: bool) returns (ready: bool)
      modifies this
      ensures View() == OpenPayload(old(View()), env, modules, opens)
      ensures ready == payloadFile.open
    {
      if payloadFile.open { return true; }
      InitIfNeeded(env);
      if !loggingEnabled { return payloadFile.open; }
      if logFileDir == [] { return payloadFile.open; }
      payloadFile := Stream(opens, payloadFile.lines);
      ready := payloadFile.open;
    }

    method LogPayloadFields(ctx: Context, id: string, status: string, prog: Option<string>, msg: string, modnm: string)
      modifies this
      ensures View() == WritePayload(old(View()), ctx, modules, id, Fields(status, prog, msg, modnm))
    {
      var ready := OpenPayloadFileIfNeeded(ctx.env, ctx.opens);
      if !ready { return; }
      var json := BuildJson(status, prog, msg, modnm);
      var name := if id != [] then id else NGEN_ID;
      var record := Wrap(RecordPrefix(ctx.ts, name), json);
      payloadFile := Stream(true, payloadFile.lines + [record]);
    }

    method LogPayloadJson(ctx: Context, id: string, json: Option<string>) returns (ok: bool)
      modifies this
      ensures View() == WritePayload(old(View()), ctx, modules, id, PayloadOf(json, ctx.boost))
      ensures ok <==> json.Some? && ExtractJsonPayload(json.value).Extracted? && ctx.boost.Parsed?
    {
      if json.None? {
        LogPayloadFields(ctx, id, "ERROR", Some("0"), NULL_PAYLOAD, "");
        return false;
      }
      var extracted := ExtractJsonPayload(json.value);
      if extracted.Malformed? {
        LogPayloadFields(ctx, id, "ERROR", None, extracted.error, "");
        return false;
      }
      match ctx.boost {
        case Parsed(Fields(status, prog, msg, modnm)) =>
          LogPayloadFields(ctx, id, status, prog, msg, modnm);
          return true;
        case Rejected(report) =>
          LogPayloadFields(ctx, id, "ERROR", None, report, "");
          return false;
      }
    }

    method LogText(ctx: Context, id: string, level: int, message: string)
      modifies this
      ensures View() == StepLog(old(View()), ctx, modules, id, level, message)
    {
      InitIfNeeded(ctx.env);
      if !loggingEnabled { return; }
      if level == STATUS {
        var _ := LogPayloadJson(ctx, id, Some(message));
        return;
      }
      var effective := FindEffectiveLevel(id);
      if level < effective { return; }
      WriteMessage(id, LinePrefix(ctx.ts, id, level), message, ctx.opens);
    }

    method WriteMessage(id: string, prefix: string, message: string, opens: bool)
      modifies this
      ensures View() == Deliver(old(View()), id, Prefixed(prefix, LoggedLines(message)), opens)
    {
      if splitLogsByModule {
        if id !in splitLogFiles {
          splitLogFiles := splitLogFiles[id := Stream(opens, [])];
        }
        if splitLogFiles[id].open {
          var lines := WriteLines(prefix, message, splitLogFiles[id].lines);
          splitLogFiles := splitLogFiles[id := Stream(true, lines)];
          return;
        }
      }
      if logFile.open {
        var lines := WriteLines(prefix, message, logFile.lines);
        logFile := Stream(true, lines);
      } else {
        stdout := WriteLines(prefix, message, stdout);
      }
    }

    method LogFormat(ctx: Context, id: string, level: int, format: Format)
      modifies this
      ensures View() == StepVarargs(old(View()), ctx, modules, id, level, format, false)
    {
      if format.NullFormat? { return; }
      InitIfNeeded(ctx.env);
      if !loggingEnabled { return; }
      var effective := FindEffectiveLevel(id);
      if level < effective { return; }
      if format.BadFormat? { return; }
      LogText(ctx, id, level, format.text);
    }

    method LogFormatNgen(ctx: Context, level: int, format: Format)
      modifies this
      ensures View() == StepVarargs(old(View()), ctx, modules, NGEN_ID, level, format, true)
    {
      if format.NullFormat? { return; }
      InitIfNeeded(ctx.env);
      if !loggingEnabled { return; }
      if level < logLevel { return; }
      if format.BadFormat? { return; }
      LogText(ctx, NGEN_ID, level, format.text);
    }
  }

  /** The search's answer is the first configuration file on the chain. */
  lemma {:induction false} FirstConfig(dirs: seq<string>, files: map<string, FileContent>, cfg: Option<string>)
    requires IsFirstConfig(dirs, files.Keys, cfg)
    ensures cfg == if ConfigsOn(dirs, files) == [] then None else Some(ConfigsOn(dirs, files)[0])
  {
    if dirs != [] && JoinPath(dirs[0], CONFIG_NAME) !in files {
      var rest := dirs[1..];
      assert forall i :: 0 <= i < |rest| ==> rest[i] == dirs[i + 1];
      if cfg.Some? {
        var i :| 0 <= i < |dirs| && cfg.value == JoinPath(dirs[i], CONFIG_NAME) && cfg.value in files.Keys
                 && forall j :: 0 <= j < i ==> JoinPath(dirs[j], CONFIG_NAME) !in files.Keys;
        assert rest[i - 1] == dirs[i];
      }
      FirstConfig(rest, files, cfg);
    }
  }
}
