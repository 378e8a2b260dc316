/** The logger registries of the C and the Fortran runtime. C prepends to a linked list,
    Fortran regrows an array; both are find-or-create tables over normalised ids. */
module NativeRegistry {
  import opened Levels
  import opened Text

  const DEFAULT_ID := "EWTS"

  // ---- The table both implement ------------------------------------------------------

  datatype Entry = Entry(enabled: bool, level: int, useNgen: bool)

  type Table = map<string, Entry>

  /** Find an entry or create it; the bridge flag can only be raised. */
  function Get(t: Table, id: string, initial: Entry, ngen: bool): Table {
    if id in t then t[id := t[id].(useNgen := t[id].useNgen || ngen)]
    else t[id := initial.(useNgen := ngen)]
  }

  /** The environment: whether logging is on, and what each level variable parses to. */
  datatype Env = Env(enabled: bool, levels: map<string, nat>)

  function LevelVariable(env: Env, name: string): nat {
    if name in env.levels then env.levels[name] else NOTSET
  }

  function Prefix(s: string, n: nat): string { if |s| <= n then s else s[..n] }

  /** The module's own variable, else the global one, else INFO; `width` is how much of
      the variable's name fits the runtime's buffer. */
  function LevelFor(env: Env, id: string, width: nat): (r: nat)
    ensures r != NOTSET
  {
    var own := LevelVariable(env, Prefix(id + "_LOGLEVEL", width));
    var global := LevelVariable(env, "EWTS_LOG_LEVEL");
    if own != NOTSET then own else if global != NOTSET then global else INFO
  }

  /** The name of a module's level variable, as far as it fits the buffer. */
  ghost function OwnVariable(id: string, width: nat): string {
    var name := id + "_LOGLEVEL";
    if |name| <= width then name else name[..width]
  }

  /** Where the level of a new logger comes from: the module's own variable if it is set and not
      0, whatever the global one holds; else the global one if that is set and not 0; else
      INFO. */
  ghost predicate InitialLevel(env: Env, id: string, width: nat, level: nat) {
    var own := OwnVariable(id, width);
    if own in env.levels && env.levels[own] != 0 then level == env.levels[own]
    else if "EWTS_LOG_LEVEL" in env.levels && env.levels["EWTS_LOG_LEVEL"] != 0 then
      level == env.levels["EWTS_LOG_LEVEL"]
    else level == 20
  }

  lemma LevelForIs(env: Env, id: string, width: nat)
    ensures InitialLevel(env, id, width, LevelFor(env, id, width))
  {}

  /** For an id that leaves room for the suffix, with the variable's name written out. */
  lemma LevelForShortId(env: Env, id: string, width: nat, level: nat)
    requires |id| + 9 <= width && InitialLevel(env, id, width, level)
    ensures id + "_LOGLEVEL" in env.levels && env.levels[id + "_LOGLEVEL"] != 0 ==>
              level == env.levels[id + "_LOGLEVEL"]
    ensures (id + "_LOGLEVEL" in env.levels ==> env.levels[id + "_LOGLEVEL"] == 0) ==>
              level == if "EWTS_LOG_LEVEL" in env.levels && env.levels["EWTS_LOG_LEVEL"] != 0 then
                         env.levels["EWTS_LOG_LEVEL"]
                       else 20
  {
    assert |"_LOGLEVEL"| == 9;
  }

  function Fresh(env: Env, id: string, width: nat): Entry {
    Entry(env.enabled, LevelFor(env, id, width), false)
  }

  // ---- Normalised ids ----------------------------------------------------------------------

  const C_WIDTH := 63
  const FORTRAN_WIDTH := 64

  /** C: an empty id (or null) is the default; otherwise trimmed, cut to the
      buffer and upper-cased, be it to nothing. */
  function CKey(id: string): string {
    if id == [] then DEFAULT_ID else Upper(Prefix(Strip(id, IS_C_SPACE), C_WIDTH))
  }

  /** Fortran: only blanks are trimmed, a blank id is the default, and blanks at the end of
      the 64-character variable do not count. */
  function FortranKey(id: string): string {
    var t := StripRight(Prefix(Strip(id, IS_BLANK), FORTRAN_WIDTH), IS_BLANK);
    if t == [] then DEFAULT_ID else Upper(t)
  }

  /** The C trimming loops. */
  method TrimCopy(s: string, outSize: nat) returns (out: string)
    requires 0 < outSize
    ensures out == Prefix(Strip(s, IS_C_SPACE), outSize - 1)
  {
    var from := 0;
    while from < |s| && CSpace(s[from])
      invariant 0 <= from <= |s| && StripLeft(s[from..], IS_C_SPACE) == StripLeft(s, IS_C_SPACE)
    {
      assert s[from..][1..] == s[from + 1..];
      from := from + 1;
    }
    var rest := s[from..];
    assert rest == StripLeft(s, IS_C_SPACE);
    var len := |rest|;
    assert rest[..len] == rest;
    while len > 0 && CSpace(rest[len - 1])
      invariant 0 <= len <= |rest| && StripRight(rest[..len], IS_C_SPACE) == StripRight(rest, IS_C_SPACE)
    {
      assert rest[..len][..len - 1] == rest[..len - 1];
      len := len - 1;
    }
    assert rest[..len] == Strip(s, IS_C_SPACE);
    if len >= outSize { len := outSize - 1; }
    out := rest[..len];
  }

  /** The C upper-casing loop, over a trimmed copy of at most 127 characters. */
  method UpperCopy(s: string, outSize: nat) returns (out: string)
    requires 0 < outSize <= 128
    ensures out == Upper(Prefix(Strip(s, IS_C_SPACE), outSize - 1))
  {
    var tmp := TrimCopy(s, 128);
    out := [];
    var i := 0;
    while i < |tmp| && i + 1 < outSize
      invariant 0 <= i <= |tmp| && i < outSize && |out| == i
      invariant forall j :: 0 <= j < i ==> out[j] == UpperChar(tmp[j])
    {
      out := out + [UpperChar(tmp[i])];
      i := i + 1;
    }
    assert Prefix(Strip(s, IS_C_SPACE), outSize - 1) == tmp[..i];
  }

  lemma DefaultKey()
    ensures Upper(Prefix(Strip(DEFAULT_ID, IS_C_SPACE), C_WIDTH)) == DEFAULT_ID
  {
    assert StripLeft(DEFAULT_ID, IS_C_SPACE) == DEFAULT_ID;
    assert StripRight(DEFAULT_ID, IS_C_SPACE) == DEFAULT_ID;
  }

  /** The key under which C files an id. */
  method KeyOf(id: string) returns (key: string)
    ensures key == CKey(id)
  {
    key := UpperCopy(if id != [] then id else DEFAULT_ID, 64);
    DefaultKey();
  }

  /** Stripping blanks first makes no difference to C. */
  lemma {:induction false} StripsBoth(s: string)
    ensures var l := StripLeft(s, IS_BLANK);
            StripLeft(s, IS_C_SPACE) == StripLeft(l, IS_C_SPACE) && |StripLeft(l, IS_C_SPACE)| <= |l|
  {
    StripLeftStart(s, IS_BLANK);
    StripLeftStart(StripLeft(s, IS_BLANK), IS_C_SPACE);
    if s != [] && s[0] == ' ' { StripsBoth(s[1..]); }
  }

  lemma SpaceKeepsCase(c: char)
    ensures CSpace(UpperChar(c)) <==> CSpace(c)
    ensures UpperChar(c) == ' ' <==> c == ' '
  {}

  lemma StartsAlike(id: string)
    requires var t := Strip(id, IS_BLANK); t != [] && !CSpace(t[0])
    ensures StripLeft(id, IS_C_SPACE) == StripLeft(id, IS_BLANK)
    ensures var t, u := Strip(id, IS_BLANK), Strip(id, IS_C_SPACE); 0 < |u| <= |t| && u == t[..|u|]
  {
    var l := StripLeft(id, IS_BLANK);
    StripsBoth(id);
    StripRightEnd(l, IS_BLANK);
    StripRightEnd(l, IS_C_SPACE);
    var t, u := StripRight(l, IS_BLANK), StripRight(l, IS_C_SPACE);
    StripRightIff(l, IS_C_SPACE, |u|);
    assert t[0] == l[0];
    StripRightIff(l, IS_BLANK, |t|);
    assert |u| > 0 ==> l[|u| - 1] == u[|u| - 1];
  }

  /** Whether cutting C's copy of a text at k leaves off only what Fortran does not see either:
      of the 64 characters it sees, C's leave no blank at the end and only blanks behind. */
  ghost predicate CutsAlike(t: string, k: nat) {
    0 < k <= |t| && t[k - 1] != ' ' && forall i :: k <= i < |t| && i < FORTRAN_WIDTH ==> t[i] == ' '
  }

  /** For every id, the two runtimes file it under the same key exactly when it is empty, or
      its first character that is no blank is no other whitespace either and both cut it
      alike. */
  lemma KeysAgreeIff(id: string)
    ensures var t, k := Strip(id, IS_BLANK), |Prefix(Strip(id, IS_C_SPACE), C_WIDTH)|;
            CKey(id) == FortranKey(id) <==> id == [] || (t != [] && !CSpace(t[0]) && CutsAlike(t, k))
  {
    var t, u := Strip(id, IS_BLANK), Strip(id, IS_C_SPACE);
    var c, f := Prefix(u, C_WIDTH), Prefix(t, FORTRAN_WIDTH);
    var g := StripRight(f, IS_BLANK);
    if id == [] {
    } else if t == [] {
      AllBlank(id);
    } else if CSpace(t[0]) {
      KeysStartApart(id);
    } else {
      StartsAlike(id);
      StripLeftStart(id, IS_BLANK);
      var k := |c|;
      assert c == t[..k] && k <= |f| && f[..k] == t[..k];
      StripRightEnd(f, IS_BLANK);
      StripRightIff(f, IS_BLANK, k);
      StripRightIff(f, IS_BLANK, 0);
      assert t[0] != ' ' by { SpaceKeepsCase(t[0]); }
      assert g != [];
      assert Upper(c) == Upper(g) <==> c == g by {
        if Upper(c) == Upper(g) { assert |g| == k && g == f[..k]; }
      }
    }
  }

  lemma AllBlank(id: string)
    requires id != [] && Strip(id, IS_BLANK) == []
    ensures CKey(id) == [] && FortranKey(id) == DEFAULT_ID
  {
    var l := StripLeft(id, IS_BLANK);
    StripsBoth(id);
    StripLeftStart(id, IS_BLANK);
    StripRightIff(l, IS_BLANK, 0);
    assert l[..0] == [];
    assert l == [];
  }

  lemma KeysStartApart(id: string)
    requires id != [] && var t := Strip(id, IS_BLANK); t != [] && CSpace(t[0])
    ensures CKey(id) != FortranKey(id)
  {
    var t, u := Strip(id, IS_BLANK), Strip(id, IS_C_SPACE);
    StripLeftStart(id, IS_BLANK);
    StripRightEnd(StripLeft(id, IS_BLANK), IS_BLANK);
    assert t[0] != ' ';
    var f := Prefix(t, FORTRAN_WIDTH);
    StripRightEnd(f, IS_BLANK);
    StripRightIff(f, IS_BLANK, 0);
    var g := StripRight(f, IS_BLANK);
    assert g != [] && g[0] == t[0];
    SpaceKeepsCase(t[0]);
    if u != [] {
      StripLeftStart(id, IS_C_SPACE);
      StripRightEnd(StripLeft(id, IS_C_SPACE), IS_C_SPACE);
      SpaceKeepsCase(u[0]);
      assert CKey(id)[0] == UpperChar(u[0]);
    }
  }

  /** The keys spelled out. C: the default for an empty id, else the text without whitespace
      around it, in upper case, at most 63 characters of it. */
  lemma CKeyIs(id: string)
    ensures CKey("") == "EWTS"
    ensures id != "" ==>
              var t := Strip(id, IS_C_SPACE);
              |CKey(id)| == (if |t| <= 63 then |t| else 63)
              && forall i :: 0 <= i < |CKey(id)| ==> CKey(id)[i] == UpperChar(t[i])
  {}

  /** Fortran: the default for blanks, else the text without blanks around it, in upper case, at
      most 64 characters of it, of which blanks at the end do not count. */
  lemma FortranKeyIs(id: string)
    ensures var t, key := Strip(id, IS_BLANK), FortranKey(id);
            if t == "" then key == "EWTS"
            else
              && 0 < |key| <= |t| && |key| <= 64 && key[|key| - 1] != ' '
              && (forall i :: 0 <= i < |key| ==> key[i] == UpperChar(t[i]))
              && (forall i :: |key| <= i < |t| && i < 64 ==> t[i] == ' ')
  {
    var t := Strip(id, IS_BLANK);
    var f := Prefix(t, FORTRAN_WIDTH);
    var g := StripRight(f, IS_BLANK);
    StripLeftStart(id, IS_BLANK);
    StripRightEnd(StripLeft(id, IS_BLANK), IS_BLANK);
    StripRightEnd(f, IS_BLANK);
    StripRightIff(f, IS_BLANK, |g|);
    StripRightIff(f, IS_BLANK, 0);
    assert t != [] ==> f[0] == t[0] != ' ';
    if g != [] { SpaceKeepsCase(g[|g| - 1]); }
  }

  /** For instance, an id of blanks, and one of 64 letters. */
  lemma KeysApart()
    ensures CKey("  ") == "" && FortranKey("  ") == "EWTS"
    ensures var id := seq(64, _ => 'A'); |CKey(id)| == 63 && |FortranKey(id)| == 64
  {
    assert StripLeft("  ", IS_BLANK) == "" by { assert "  "[1..] == " " && " "[1..] == ""; }
    AllBlank("  ");
    var id := seq(64, _ => 'A');
    assert StripRight(id, IS_BLANK) == id && StripRight(id, IS_C_SPACE) == id;
  }

  /** Two ids whose trimmed text fits the buffer share a logger exactly when their trimmed
      texts are equal up to ASCII case; C trims all whitespace, Fortran blanks. */
  lemma SharingIff(a: string, b: string)
    ensures a != [] && b != [] && |Strip(a, IS_C_SPACE)| <= C_WIDTH && |Strip(b, IS_C_SPACE)| <= C_WIDTH ==>
              (CKey(a) == CKey(b) <==> Upper(Strip(a, IS_C_SPACE)) == Upper(Strip(b, IS_C_SPACE)))
    ensures 1 <= |Strip(a, IS_BLANK)| <= FORTRAN_WIDTH && 1 <= |Strip(b, IS_BLANK)| <= FORTRAN_WIDTH ==>
              (FortranKey(a) == FortranKey(b) <==> Upper(Strip(a, IS_BLANK)) == Upper(Strip(b, IS_BLANK)))
    ensures Strip(a, IS_C_SPACE) == Strip(a, IS_BLANK) && Strip(b, IS_C_SPACE) == Strip(b, IS_BLANK)
            && 1 <= |Strip(a, IS_BLANK)| <= C_WIDTH && 1 <= |Strip(b, IS_BLANK)| <= C_WIDTH ==>
              (CKey(a) == CKey(b) <==> FortranKey(a) == FortranKey(b))
  {
    StripsOnce(a);
    StripsOnce(b);
  }

  lemma StripsOnce(id: string)
    ensures StripRight(Strip(id, IS_BLANK), IS_BLANK) == Strip(id, IS_BLANK)
  {
    StripRightEnd(StripLeft(id, IS_BLANK), IS_BLANK);
  }

  // ---- Rows ----------------------------------------------------------------------------------

  datatype Row = Row(id: string, entry: Entry)

  /** The table the rows make up. */
  ghost function TableOf(rows: seq<Row>): Table {
    if rows == [] then map[]
    else TableOf(rows[..|rows| - 1])[rows[|rows| - 1].id := rows[|rows| - 1].entry]
  }

  ghost predicate Distinct(rows: seq<Row>) {
    rows == [] || (Distinct(rows[..|rows| - 1]) && rows[|rows| - 1].id !in TableOf(rows[..|rows| - 1]))
  }

  lemma {:induction false} RowPresent(rows: seq<Row>, k: nat)
    requires Distinct(rows) && k < |rows|
    ensures rows[k].id in TableOf(rows) && TableOf(rows)[rows[k].id] == rows[k].entry
  {
    if k < |rows| - 1 { RowPresent(rows[..|rows| - 1], k); }
  }

  lemma {:induction false} RowMissing(rows: seq<Row>, id: string)
    requires forall i :: 0 <= i < |rows| ==> rows[i].id != id
    ensures id !in TableOf(rows)
  {
    if rows != [] { RowMissing(rows[..|rows| - 1], id); }
  }

  lemma {:induction false} RowUnique(rows: seq<Row>, i: nat, k: nat)
    requires Distinct(rows) && i < k < |rows|
    ensures rows[i].id != rows[k].id
  {
    if k < |rows| - 1 { RowUnique(rows[..|rows| - 1], i, k); }
    else { RowPresent(rows[..k], i); }
  }

  lemma RowAdded(rows: seq<Row>, row: Row)
    requires Distinct(rows) && row.id !in TableOf(rows)
    ensures Distinct(rows + [row]) && TableOf(rows + [row]) == TableOf(rows)[row.id := row.entry]
  {
    assert (rows + [row])[..|rows|] == rows;
  }

  /** A found row's bridge flag may rise. */
  function Raised(row: Row, ngen: bool): Row {
    Row(row.id, row.entry.(useNgen := row.entry.useNgen || ngen))
  }

  lemma UpdatesCommute(t: Table, a: string, x: Entry, b: string, y: Entry)
    requires a != b
    ensures t[a := x][b := y] == t[b := y][a := x]
  {}

  lemma {:induction false} RowReplaced(rows: seq<Row>, k: nat, row: Row)
    requires Distinct(rows) && k < |rows| && row.id == rows[k].id
    ensures Distinct(rows[k := row]) && TableOf(rows[k := row]) == TableOf(rows)[row.id := row.entry]
  {
    var n := |rows| - 1;
    var init, last := rows[..n], rows[n];
    if k < n {
      RowReplaced(init, k, row);
      RowPresent(init, k);
      assert rows[k := row][..n] == init[k := row];
      assert last.id != row.id;
      UpdatesCommute(TableOf(init), row.id, row.entry, last.id, last.entry);
    } else {
      assert rows[k := row][..n] == init;
    }
  }

  lemma RowFound(rows: seq<Row>, k: nat, initial: Entry, ngen: bool)
    requires Distinct(rows) && k < |rows|
    ensures Distinct(rows[k := Raised(rows[k], ngen)])
    ensures TableOf(rows[k := Raised(rows[k], ngen)]) == Get(TableOf(rows), rows[k].id, initial, ngen)
  {
    RowPresent(rows, k);
    RowReplaced(rows, k, Raised(rows[k], ngen));
  }

  // ---- C: a linked list ------------------------------------------------------------------

  class CLogger {
    var id: string
    var useNgen: bool
    var initialized: bool
    var enabled: bool
    var level: nat
    var next: CLogger?

    constructor (id: string, useNgen: bool, next: CLogger?)
      ensures this.id == id && this.useNgen == useNgen && this.next == next
      ensures !initialized && enabled && level == INFO
    {
      this.id, this.useNgen, this.next := id, useNgen, next;
      initialized, enabled, level := false, true, INFO;
    }

    /** Reads the environment once. */
    method InitLoggerState(env: Env)
      modifies `initialized, `enabled, `level
      ensures initialized
      ensures if old(initialized) then enabled == old(enabled) && level == old(level)
              else enabled == env.enabled && level == LevelFor(env, id, C_WIDTH)
      ensures !old(initialized) ==> InitialLevel(env, id, 63, level)
    {
      if initialized { return; }
      initialized := true;
      enabled := env.enabled;
      var lvl := LevelVariable(env, Prefix(id + "_LOGLEVEL", C_WIDTH));
      if lvl != NOTSET {
        level := lvl;
      } else {
        lvl := LevelVariable(env, "EWTS_LOG_LEVEL");
        level := if lvl != NOTSET then lvl else INFO;
      }
    }
  }

  method NewLogger(key: string, ngen: bool, next: CLogger?, env: Env) returns (node: CLogger)
    ensures fresh(node) && node.initialized && node.next == next
    ensures Row(node.id, Entry(node.enabled, node.level, node.useNgen))
            == Row(key, Fresh(env, key, C_WIDTH).(useNgen := ngen))
  {
    node := new CLogger(key, ngen, next);
    node.InitLoggerState(env);
  }

  ghost predicate Shows(row: Row, node: CLogger)
    reads node
  {
    node.initialized && row == Row(node.id, Entry(node.enabled, node.level, node.useNgen))
  }

  class CRegistry {
    var loggers: CLogger?
    /** The loggers in order of creation; the list runs the other way. */
    ghost var nodes: seq<CLogger>
    ghost var rows: seq<Row>
    ghost var table: Table

    /** The logger created before the i-th, which is the next one down the list. */
    ghost function NodeBefore(i: nat): CLogger?
      requires i <= |nodes|
      reads `nodes
    {
      if i == 0 then null else nodes[i - 1]
    }

    /** The list links the loggers, and the rows show them. */
    ghost predicate Linked()
      reads `loggers, `nodes, `rows, nodes
    {
      && loggers == NodeBefore(|nodes|)
      && |rows| == |nodes|
      && (forall i {:trigger nodes[i].next} :: 0 <= i < |nodes| ==> nodes[i].next == NodeBefore(i))
      && (forall i :: 0 <= i < |nodes| ==> Shows(rows[i], nodes[i]))
    }

    ghost predicate Valid()
      reads this, nodes
    {
      Linked() && Distinct(rows) && table == TableOf(rows)
    }

    constructor ()
      ensures Valid() && table == map[] && nodes == []
    {
      loggers, nodes, rows, table := null, [], [], map[];
    }

    /** Finds or creates the logger of an id. Earlier loggers stay where they are and keep
        their ids, levels and switches; only the found one's bridge flag may change. */
    method GetLoggerState(id: string, ngen: bool, env: Env, memory: bool) returns (st: CLogger?)
      requires Valid()
      modifies this, nodes
      ensures Valid()
      ensures st == null <==> CKey(id) !in old(table) && !memory
      ensures st == null ==> table == old(table) && nodes == old(nodes)
      ensures st != null ==>
                && st in nodes && st.id == CKey(id)
                && table == Get(old(table), CKey(id), Fresh(env, CKey(id), C_WIDTH), ngen)
                && nodes == old(nodes) + if CKey(id) in old(table) then [] else [st]
      ensures forall n :: n in old(nodes) ==>
                n.id == old(n.id) && n.level == old(n.level) && n.enabled == old(n.enabled)
      ensures st != null && CKey(id) !in old(table) ==>
                st.enabled == env.enabled && st.useNgen == ngen && InitialLevel(env, CKey(id), 63, st.level)
    {
      var key := KeyOf(id);
      st := FindLogger(key);
      if st != null {
        FoundAgain(st, ngen, env);
      } else if memory {
        st := Prepend(key, ngen, env);
        assert InitialLevel(env, key, 63, st.level) by { LevelForIs(env, key, C_WIDTH); }
      }
    }

    /** Walks the list. */
    method FindLogger(key: string) returns (cur: CLogger?)
      requires Valid()
      ensures cur == null <==> key !in table
      ensures cur != null ==> cur in nodes && cur.id == key
    {
      cur := loggers;
      ghost var k: nat := |nodes|;
      while cur != null && cur.id != key
        invariant k <= |nodes| && cur == NodeBefore(k)
        invariant forall i :: k <= i < |nodes| ==> nodes[i].id != key
        decreases k
      {
        cur := cur.next;
        k := k - 1;
      }
      assert forall i :: 0 <= i < |rows| ==> rows[i].id == nodes[i].id;
      if cur == null { RowMissing(rows, key); } else { RowPresent(rows, k - 1); }
    }

    method FoundAgain(cur: CLogger, ngen: bool, env: Env)
      requires Valid() && cur in nodes
      modifies this`table, this`rows, cur
      ensures Valid() && cur.id == old(cur.id) && cur.level == old(cur.level) && cur.enabled == old(cur.enabled)
      ensures table == Get(old(table), cur.id, Fresh(env, cur.id, C_WIDTH), ngen)
    {
      ghost var k: nat :| k < |nodes| && nodes[k] == cur;
      assert Shows(rows[k], cur);
      RowFound(rows, k, Fresh(env, cur.id, C_WIDTH), ngen);
      RaiseFlag(cur, ngen, env, k);
      table := Get(table, cur.id, Fresh(env, cur.id, C_WIDTH), ngen);
    }

    method RaiseFlag(cur: CLogger, ngen: bool, env: Env, ghost k: nat)
      requires Linked() && Distinct(rows) && k < |nodes| && nodes[k] == cur
      modifies this`rows, cur
      ensures Linked() && rows == old(rows)[k := Raised(old(rows[k]), ngen)]
      ensures cur.id == old(cur.id) && cur.level == old(cur.level) && cur.enabled == old(cur.enabled)
    {
      forall i | 0 <= i < |rows| && i != k ensures nodes[i] != cur {
        if i < k { RowUnique(rows, i, k); } else { RowUnique(rows, k, i); }
      }
      assert Shows(rows[k], cur);
      ghost var before := rows;
      if ngen { cur.useNgen := true; }
      cur.InitLoggerState(env);
      rows := rows[k := Raised(rows[k], ngen)];
      forall i | 0 <= i < |nodes| ensures Shows(rows[i], nodes[i]) {
        assert i != k ==> old(Shows(before[i], nodes[i]));
      }
    }

    method Prepend(key: string, ngen: bool, env: Env) returns (node: CLogger)
      requires Valid() && key !in table
      modifies this
      ensures Valid() && fresh(node) && node.id == key
      ensures loggers == node && node.next == old(loggers) && nodes == old(nodes) + [node]
      ensures table == Get(old(table), key, Fresh(env, key, C_WIDTH), ngen)
      ensures node.enabled == env.enabled && node.useNgen == ngen && node.level == LevelFor(env, key, C_WIDTH)
    {
      node := NewLogger(key, ngen, loggers, env);
      Link(node);
    }

    method Link(node: CLogger)
      requires Valid() && node !in nodes && node.next == loggers && node.initialized && node.id !in table
      modifies this
      ensures Valid() && loggers == node && nodes == old(nodes) + [node]
      ensures table == old(table)[node.id := Entry(node.enabled, node.level, node.useNgen)]
    {
      ghost var row := Row(node.id, Entry(node.enabled, node.level, node.useNgen));
      ghost var grown := rows + [row];
      assert Distinct(grown) && TableOf(grown) == table[row.id := row.entry] by { RowAdded(rows, row); }
      Chain(node);
      assert rows == grown;
      table := table[row.id := row.entry];
    }

    method Chain(node: CLogger)
      requires Linked() && node !in nodes && node.next == loggers && node.initialized
      modifies `loggers, `nodes, `rows
      ensures Linked() && loggers == node && nodes == old(nodes) + [node]
      ensures rows == old(rows) + [Row(node.id, Entry(node.enabled, node.level, node.useNgen))]
    {
      ghost var rowsBefore, nodesBefore := rows, nodes;
      loggers := node;
      rows := rows + [Row(node.id, Entry(node.enabled, node.level, node.useNgen))];
      nodes := nodes + [node];
      forall i | 0 <= i < |nodes| ensures Shows(rows[i], nodes[i]) {
        assert i < |nodesBefore| ==> old(Shows(rowsBefore[i], nodesBefore[i]));
      }
    }
  }

  // ---- Fortran: an array that is regrown ----------------------------------------------------

  datatype Slot = Slot(id: string, initialized: bool, enabled: bool, level: nat)

  function SlotRows(slots: seq<Slot>): (rows: seq<Row>)
    ensures |rows| == |slots|
    ensures forall i :: 0 <= i < |slots| ==>
              rows[i] == Row(slots[i].id, Entry(slots[i].enabled, slots[i].level, false))
  {
    seq(|slots|, i requires 0 <= i < |slots| => Row(slots[i].id, Entry(slots[i].enabled, slots[i].level, false)))
  }

  ghost predicate AllInitialized(slots: seq<Slot>) {
    forall i :: 0 <= i < |slots| ==> slots[i].initialized
  }

  lemma SlotsGrown(before: seq<Slot>, slot: Slot)
    requires AllInitialized(before) && slot.initialized
    requires Distinct(SlotRows(before)) && slot.id !in TableOf(SlotRows(before))
    ensures var entry := Entry(slot.enabled, slot.level, false);
            && AllInitialized(before + [slot]) && Distinct(SlotRows(before + [slot]))
            && TableOf(SlotRows(before + [slot])) == TableOf(SlotRows(before))[slot.id := entry]
  {
    var row := Row(slot.id, Entry(slot.enabled, slot.level, false));
    RowAdded(SlotRows(before), row);
    assert SlotRows(before + [slot]) == SlotRows(before) + [row];
  }

  class FortranRegistry {
    var loggers: array<Slot>
    ghost var table: Table

    ghost predicate Valid()
      reads this, loggers
    {
      AllInitialized(loggers[..]) && table == TableOf(SlotRows(loggers[..])) && Distinct(SlotRows(loggers[..]))
    }

    constructor ()
      ensures Valid() && table == map[] && loggers.Length == 0 && fresh(loggers)
    {
      loggers := new Slot[0];
      table := map[];
    }

    /** A longer array with the old slots in front and an uninitialised one behind. */
    method AppendLogger(key: string) returns (idx: nat)
      modifies this
      ensures table == old(table) && fresh(loggers)
      ensures loggers.Length == old(loggers.Length) + 1 && idx == loggers.Length
      ensures loggers[..] == old(loggers[..]) + [Slot(key, false, true, INFO)]
    {
      var slots, n := loggers, loggers.Length;
      var tmp := new Slot[n + 1](i requires 0 <= i <= n && n == slots.Length reads slots =>
        if i < n then slots[i] else Slot(key, false, true, INFO));
      loggers := tmp;
      idx := n + 1;
    }

    /** Reads the environment for slot idx (counted from 1), once. */
    method InitLoggerState(idx: nat, env: Env)
      requires 1 <= idx <= loggers.Length
      modifies loggers
      ensures var s := old(loggers[idx - 1]);
              loggers[..] == old(loggers[..])[idx - 1 :=
                if s.initialized then s else Slot(s.id, true, env.enabled, LevelFor(env, s.id, FORTRAN_WIDTH))]
      ensures !old(loggers[idx - 1]).initialized ==> InitialLevel(env, loggers[idx - 1].id, 64, loggers[idx - 1].level)
    {
      LevelForIs(env, loggers[idx - 1].id, FORTRAN_WIDTH);
      var s := loggers[idx - 1];
      if s.initialized { return; }
      var level := LevelVariable(env, Prefix(s.id + "_LOGLEVEL", FORTRAN_WIDTH));
      if level == NOTSET {
        level := if "EWTS_LOG_LEVEL" in env.levels then env.levels["EWTS_LOG_LEVEL"] else INFO;
        if level == NOTSET { level := INFO; }
      }
      loggers[idx - 1] := Slot(s.id, true, env.enabled, level);
    }

    /** The slot with a key, counted from 1, or 0. */
    method FindSlot(key: string) returns (idx: nat)
      requires Valid()
      ensures idx == 0 <==> key !in table
      ensures idx > 0 ==> idx <= loggers.Length && loggers[idx - 1].id == key
    {
      for i := 0 to loggers.Length
        invariant forall j :: 0 <= j < i ==> loggers[j].id != key
      {
        if loggers[i].id == key {
          RowPresent(SlotRows(loggers[..]), i);
          return i + 1;
        }
      }
      RowMissing(SlotRows(loggers[..]), key);
      idx := 0;
    }

    /** Appends a slot for a key and initialises it. */
    method CreateSlot(key: string, env: Env) returns (idx: nat)
      requires Valid() && key !in table
      modifies this, loggers
      ensures Valid() && idx == loggers.Length
      ensures table == Get(old(table), key, Fresh(env, key, FORTRAN_WIDTH), false)
      ensures loggers.Length > 0 && loggers[idx - 1].id == key && old(loggers[..]) <= loggers[..]
      ensures loggers[idx - 1] == Slot(key, true, env.enabled, LevelFor(env, key, FORTRAN_WIDTH))
    {
      ghost var before := loggers[..];
      idx := AppendLogger(key);
      InitLoggerState(idx, env);
      ghost var slot := Slot(key, true, env.enabled, LevelFor(env, key, FORTRAN_WIDTH));
      SlotsGrown(before, slot);
      assert loggers[..] == before + [slot];
      assert loggers[idx - 1] == loggers[..][idx - 1];
      table := Get(table, key, Fresh(env, key, FORTRAN_WIDTH), false);
    }

    /** A slot found is initialised already and stays as it is. */
    method FoundAgain(idx: nat, env: Env)
      requires Valid() && 1 <= idx <= loggers.Length
      modifies this`table, loggers
      ensures Valid() && loggers[..] == old(loggers[..]) && loggers[idx - 1] == old(loggers[idx - 1])
      ensures var id := loggers[idx - 1].id;
              table == Get(old(table), id, Fresh(env, id, FORTRAN_WIDTH), false)
    {
      ghost var before := loggers[..];
      assert before[idx - 1].initialized && before[idx - 1] == loggers[idx - 1];
      InitLoggerState(idx, env);
      assert loggers[..] == before;
      assert loggers[idx - 1] == loggers[..][idx - 1];
      RowPresent(SlotRows(before), idx - 1);
    }

    /** Finds or creates the slot of an id. Indices handed out earlier still mean the same
        loggers, with the same level and switch. */
    method GetLoggerIndex(id: string, env: Env) returns (idx: nat)
      requires Valid()
      modifies this, loggers
      ensures Valid()
      ensures 1 <= idx <= loggers.Length && loggers[idx - 1].id == FortranKey(id)
      ensures table == Get(old(table), FortranKey(id), Fresh(env, FortranKey(id), FORTRAN_WIDTH), false)
      ensures old(loggers[..]) <= loggers[..]
      ensures FortranKey(id) !in old(table) ==>
                loggers[idx - 1].enabled == env.enabled
                && InitialLevel(env, FortranKey(id), 64, loggers[idx - 1].level)
    {
      var key := FortranKey(id);
      idx := FindSlot(key);
      if idx == 0 {
        idx := CreateSlot(key, env);
        assert InitialLevel(env, key, 64, loggers[idx - 1].level) by { LevelForIs(env, key, FORTRAN_WIDTH); }
      } else {
        FoundAgain(idx, env);
      }
    }
  }

  // ---- Runs ---------------------------------------------------------------------------------

  datatype Request = Request(id: string, ngen: bool, initial: Entry)

  function Run(t: Table, reqs: seq<Request>): Table {
    if reqs == [] then t
    else
      var last := reqs[|reqs| - 1];
      Get(Run(t, reqs[..|reqs| - 1]), last.id, last.initial, last.ngen)
  }

  ghost predicate Asked(reqs: seq<Request>, id: string) {
    exists i :: 0 <= i < |reqs| && reqs[i].id == id
  }

  ghost predicate AskedWithBridge(reqs: seq<Request>, id: string) {
    exists i :: 0 <= i < |reqs| && reqs[i].id == id && reqs[i].ngen
  }

  ghost predicate FirstFor(reqs: seq<Request>, id: string, i: nat) {
    i < |reqs| && reqs[i].id == id && !Asked(reqs[..i], id)
  }

  lemma AskedSnoc(init: seq<Request>, last: Request, id: string)
    ensures Asked(init + [last], id) <==> Asked(init, id) || last.id == id
    ensures AskedWithBridge(init + [last], id) <==> AskedWithBridge(init, id) || (last.id == id && last.ngen)
  {
    var reqs := init + [last];
    assert reqs[|init|] == last;
    assert forall i :: 0 <= i < |init| ==> reqs[i] == init[i];
  }

  /** Over any run from an empty registry a logger exists exactly if it was asked for; its
      level and switch are those read at its first request, whatever the environment is
      later; and its bridge flag is up exactly if some request raised it. */
  lemma {:induction false} RunIs(reqs: seq<Request>, id: string)
    ensures id in Run(map[], reqs) <==> Asked(reqs, id)
    ensures id in Run(map[], reqs) ==> (Run(map[], reqs)[id].useNgen <==> AskedWithBridge(reqs, id))
  {
    if reqs != [] {
      var init, last := reqs[..|reqs| - 1], reqs[|reqs| - 1];
      RunIs(init, id);
      AskedSnoc(init, last, id);
      assert reqs == init + [last];
    }
  }

  lemma {:induction false} FirstRequestDecides(reqs: seq<Request>, id: string, i: nat)
    requires FirstFor(reqs, id, i)
    ensures id in Run(map[], reqs)
    ensures Run(map[], reqs)[id].enabled == reqs[i].initial.enabled
    ensures Run(map[], reqs)[id].level == reqs[i].initial.level
  {
    var n := |reqs| - 1;
    RunIs(reqs[..n], id);
    if i < n {
      assert reqs[..n][..i] == reqs[..i];
      FirstRequestDecides(reqs[..n], id, i);
    }
  }

  function CRequest(id: string, env: Env): Request {
    Request(CKey(id), false, Fresh(env, CKey(id), C_WIDTH))
  }

  function FortranRequest(id: string, env: Env): Request {
    Request(FortranKey(id), false, Fresh(env, FortranKey(id), FORTRAN_WIDTH))
  }

  /** The two runtimes turn an id into the same request in every environment, and so any run
      of such requests into the same table, exactly when they file it under the same key and
      the key leaves room for the suffix of the level variable in C's buffer. */
  lemma RequestsAgreeIff(id: string)
    ensures (forall env :: CRequest(id, env) == FortranRequest(id, env))
            <==> CKey(id) == FortranKey(id) && |CKey(id) + "_LOGLEVEL"| <= C_WIDTH
  {
    var key := CKey(id);
    var name := Prefix(key + "_LOGLEVEL", FORTRAN_WIDTH);
    if key == FortranKey(id) && |key + "_LOGLEVEL"| > C_WIDTH {
      var env := Env(true, map[name := FATAL]);
      assert |name| == FORTRAN_WIDTH;
      assert LevelFor(env, key, FORTRAN_WIDTH) == FATAL;
      assert |Prefix(key + "_LOGLEVEL", C_WIDTH)| == C_WIDTH;
      assert LevelFor(env, key, C_WIDTH) == INFO;
      assert CRequest(id, env) != FortranRequest(id, env);
    }
    if CRequest(id, Env(true, map[])) == FortranRequest(id, Env(true, map[])) {
      assert key == FortranKey(id);
    }
  }
}
