/** Severity levels. The ngen logger rounds a configured threshold up to a canonical level,
    the Python runtime rounds a record's level down to one. */
module Levels {
  const NOTSET := 0
  const DEBUG := 10
  const PERFORM := 15
  const INFO := 20
  const WARNING := 30
  const SEVERE := 40
  const FATAL := 50
  const STATUS := 60

  predicate Canonical(v: int) { v in {0, 10, 15, 20, 30, 40, 50, 60} }

  /** ngen: the canonical level for a configured number. */
  function ClampCanonicalLevel(v: int): (r: int)
    ensures Canonical(r)
  {
    if v <= 0 then NOTSET
    else if v <= 10 then DEBUG
    else if v <= 15 then PERFORM
    else if v <= 20 then INFO
    else if v <= 30 then WARNING
    else if v <= 40 then SEVERE
    else if v <= 50 then FATAL
    else STATUS
  }

  /** Python: the EWTS level for the level of a standard logging record. */
  function MapPythonLevel(level: int): (r: int)
    ensures Canonical(r)
  {
    if level >= STATUS then STATUS
    else if level >= 50 then FATAL
    else if level >= 40 then SEVERE
    else if level >= 30 then WARNING
    else if level >= 20 then INFO
    else if level >= PERFORM then PERFORM
    else DEBUG
  }

  ghost predicate PassesSame(v: int, w: int) {
    forall c :: Canonical(c) ==> (c >= v <==> c >= w)
  }

  /** Clamping a threshold changes no canonical level's fate exactly when it is at most 60:
      a higher one would block STATUS and its clamped value does not. */
  lemma ClampKeepsFilterIff(v: int)
    ensures PassesSame(v, ClampCanonicalLevel(v)) <==> v <= STATUS
  {
    if v > STATUS { assert Canonical(STATUS); }
  }

  /** Clamping yields the least canonical level not below a threshold of at most 60, and 60
      above; mapping the greatest canonical level not above a record's level from 10 on, and
      10 below. */
  lemma ClampUpMapDown(v: int, c: int)
    requires Canonical(c)
    ensures v <= STATUS ==> (c >= ClampCanonicalLevel(v) <==> c >= v)
    ensures v > STATUS ==> ClampCanonicalLevel(v) == 60
    ensures v >= DEBUG && c >= DEBUG ==> (c <= MapPythonLevel(v) <==> c <= v)
    ensures v < DEBUG ==> MapPythonLevel(v) == 10
  {}

  /** A record through the standard Python logger: that logger's filter, then the EWTS
      handler's mapping, then the write, which filters again but never drops STATUS. A
      logger at level 0 filters at the level it inherits from its parents. */
  predicate PythonWrites(level: int, min: int, inherited: int) {
    level >= (if min == NOTSET then inherited else min)
    && (MapPythonLevel(level) == STATUS || MapPythonLevel(level) >= min)
  }

  ghost predicate WritesFromMinimum(min: int, inherited: int) {
    forall level :: level >= 0 ==> (PythonWrites(level, min, inherited) <==> level >= min)
  }

  /** For every minimum but 0, records are written exactly from the minimum up if and only
      if it is at most 10, canonical, or at least 60; a minimum in between two canonical
      levels loses the records that round down past it. A minimum of 0 lets everything
      through if and only if the parents do. */
  lemma PythonWritesFromMinimumIff(min: int, inherited: int)
    ensures WritesFromMinimum(min, inherited)
            <==> if min == NOTSET then inherited <= 0 else min <= DEBUG || Canonical(min) || min >= STATUS
  {
    if min == NOTSET {
      assert PythonWrites(0, min, inherited) <==> 0 >= inherited;
    } else if !(min <= DEBUG || Canonical(min) || min >= STATUS) {
      assert PythonWrites(min, min, inherited) <==> MapPythonLevel(min) >= min;
    }
  }

  /** For instance, a minimum of 25 loses warnings of level 25 to 29, and a minimum of 0 under
      a root logger at its default of WARNING loses everything below that. */
  lemma LostRecords()
    ensures !WritesFromMinimum(25, WARNING) && !PythonWrites(29, 25, WARNING)
    ensures !WritesFromMinimum(NOTSET, WARNING) && !PythonWrites(INFO, NOTSET, WARNING)
  {
    PythonWritesFromMinimumIff(25, WARNING);
    PythonWritesFromMinimumIff(NOTSET, WARNING);
  }
}
