/** Names of the files the ngen logger writes under MPI with a results directory: one per
    module and rank, one unified per rank, and one payload log per rank. */
module LogPaths {
  import opened Text
  import opened ConfigSearch

  lemma DecimalInjective(m: nat, n: nat)
    requires Decimal(m) == Decimal(n)
    ensures m == n
  {
    NumberOfDecimal(m);
    NumberOfDecimal(n);
  }

  function PrependPrefix(prefix: string, stem: string): string {
    if prefix == [] then stem else prefix + "_" + stem
  }

  const RANK_LABEL := "mpi_process"

  function FileName(prefix: string, stem: string, rank: nat): string {
    PrependPrefix(prefix, stem) + ("_" + RANK_LABEL + "_" + Decimal(rank)) + ".log"
  }

  /** The split log of a module; the unified log is that of `NGEN`. */
  function StandardPath(dir: string, prefix: string, id: string, rank: nat): string {
    JoinPath(dir, FileName(prefix, Lower(id), rank))
  }

  function PayloadPath(dir: string, prefix: string, rank: nat): string {
    JoinPath(dir, FileName(prefix, "ngen_payload", rank))
  }

  /** Where the part after the last underscore starts is no matter of choice. */
  lemma LastUnderscoreSplits(a: string, d: string, a': string, d': string)
    requires '_' !in d && '_' !in d'
    requires a + "_" + d == a' + "_" + d'
    ensures a == a' && d == d'
  {
    var s := a + "_" + d;
    assert s[|a|] == '_' && s[|a'|] == '_';
    assert forall i :: |a| < i < |s| ==> s[i] == d[i - |a| - 1];
    assert forall i :: |a'| < i < |s| ==> s[i] == d'[i - |a'| - 1];
    assert |a| == |a'|;
    assert a == s[..|a|] && a' == s[..|a|] && d == s[|a| + 1..] && d' == s[|a| + 1..];
  }

  lemma JoinPathInjective(dir: string, b: string, b': string)
    requires b != [] && b' != [] && JoinPath(dir, b) == JoinPath(dir, b')
    ensures b == b'
  {
    var head := if dir == [] then "" else if dir[|dir| - 1] == '/' then dir else dir + "/";
    assert JoinPath(dir, b) == head + b && JoinPath(dir, b') == head + b';
    assert (head + b)[|head|..] == b && (head + b')[|head|..] == b';
  }

  lemma FileNameInjective(prefix: string, stem: string, rank: nat, stem': string, rank': nat)
    requires FileName(prefix, stem, rank) == FileName(prefix, stem', rank')
    ensures stem == stem' && rank == rank'
  {
    var tail := "_" + RANK_LABEL;
    var p, p' := PrependPrefix(prefix, stem), PrependPrefix(prefix, stem');
    var s, s' := FileName(prefix, stem, rank), FileName(prefix, stem', rank');
    assert s[..|s| - 4] == p + tail + "_" + Decimal(rank);
    assert s'[..|s'| - 4] == p' + tail + "_" + Decimal(rank');
    LastUnderscoreSplits(p + tail, Decimal(rank), p' + tail, Decimal(rank'));
    DecimalInjective(rank, rank');
    assert p == (p + tail)[..|p|] && p' == (p' + tail)[..|p'|];
    if prefix != [] {
      assert p[|prefix| + 1..] == stem && p'[|prefix| + 1..] == stem';
    }
  }

  /** Two standard logs are one file exactly when the rank is the same and the module ids
      are, ignoring case. */
  lemma StandardPathsEqualIff(dir: string, prefix: string, id: string, rank: nat, id': string, rank': nat)
    ensures StandardPath(dir, prefix, id, rank) == StandardPath(dir, prefix, id', rank')
            <==> Lower(id) == Lower(id') && rank == rank'
  {
    if StandardPath(dir, prefix, id, rank) == StandardPath(dir, prefix, id', rank') {
      JoinPathInjective(dir, FileName(prefix, Lower(id), rank), FileName(prefix, Lower(id'), rank'));
      FileNameInjective(prefix, Lower(id), rank, Lower(id'), rank');
    }
  }

  lemma LowerInjectiveOnUpper(id: string, id': string)
    requires Upper(id) == id && Upper(id') == id' && Lower(id) == Lower(id')
    ensures id == id'
  {
    forall i | 0 <= i < |id| ensures id[i] == id'[i] {
      assert Upper(id)[i] == id[i] && Upper(id')[i] == id'[i];
      assert Lower(id)[i] == Lower(id')[i];
    }
  }

  /** For instance, ids that differ only in case write to one file. */
  lemma SameFileForBothCases(dir: string, prefix: string, rank: nat)
    ensures StandardPath(dir, prefix, "cfe", rank) == StandardPath(dir, prefix, "CFE", rank)
  {
    assert Lower("cfe") == Lower("CFE");
  }

  /** Upper-case ids, as the registry demands, therefore get files of their own. */
  lemma LogsAreSeparate(dir: string, prefix: string, id: string, rank: nat, id': string, rank': nat)
    requires Upper(id) == id && Upper(id') == id'
    ensures StandardPath(dir, prefix, id, rank) == StandardPath(dir, prefix, id', rank')
            <==> id == id' && rank == rank'
  {
    StandardPathsEqualIff(dir, prefix, id, rank, id', rank');
    if Lower(id) == Lower(id') { LowerInjectiveOnUpper(id, id'); }
  }

  /** Exactly the id "ngen_payload", in any case, gets the payload log of its rank; so no id of
      at most eight characters does. */
  lemma PayloadLogIsSeparate(dir: string, prefix: string, id: string, rank: nat, rank': nat)
    ensures StandardPath(dir, prefix, id, rank) == PayloadPath(dir, prefix, rank')
            <==> Lower(id) == "ngen_payload" && rank == rank'
    ensures |id| <= 8 ==> StandardPath(dir, prefix, id, rank) != PayloadPath(dir, prefix, rank')
  {
    if StandardPath(dir, prefix, id, rank) == PayloadPath(dir, prefix, rank') {
      JoinPathInjective(dir, FileName(prefix, Lower(id), rank), FileName(prefix, "ngen_payload", rank'));
      FileNameInjective(prefix, Lower(id), rank, "ngen_payload", rank');
    }
  }

  /** The names spelled out, without a prefix and with the one the environment may give. */
  lemma PathsAre(dir: string, prefix: string, id: string, rank: nat)
    requires dir != "" && dir[|dir| - 1] != '/'
    ensures StandardPath(dir, "", id, rank) == dir + "/" + (Lower(id) + "_mpi_process_" + Decimal(rank) + ".log")
    ensures prefix != "" ==>
              StandardPath(dir, prefix, id, rank)
              == dir + "/" + (prefix + "_" + Lower(id) + "_mpi_process_" + Decimal(rank) + ".log")
    ensures PayloadPath(dir, "", rank) == dir + "/" + ("ngen_payload_mpi_process_" + Decimal(rank) + ".log")
  {
    NameIs(Lower(id), rank);
    JoinedIs(dir, FileName("", Lower(id), rank));
    PayloadNameIs(rank);
    JoinedIs(dir, FileName("", "ngen_payload", rank));
    if prefix != "" { PrefixedPathIs(dir, prefix, Lower(id), rank); }
  }

  lemma PrefixedPathIs(dir: string, prefix: string, stem: string, rank: nat)
    requires dir != "" && dir[|dir| - 1] != '/' && prefix != ""
    ensures JoinPath(dir, FileName(prefix, stem, rank))
            == dir + "/" + (prefix + "_" + stem + "_mpi_process_" + Decimal(rank) + ".log")
  {
    NameIs(prefix + "_" + stem, rank);
    assert FileName(prefix, stem, rank) == FileName("", prefix + "_" + stem, rank);
    JoinedIs(dir, FileName(prefix, stem, rank));
  }

  lemma PayloadNameIs(rank: nat)
    ensures FileName("", "ngen_payload", rank) == "ngen_payload_mpi_process_" + Decimal(rank) + ".log"
  {
    NameIs("ngen_payload", rank);
    assert "ngen_payload" + "_mpi_process_" == "ngen_payload_mpi_process_";
  }

  lemma NameIs(stem: string, rank: nat)
    ensures FileName("", stem, rank) == stem + "_mpi_process_" + Decimal(rank) + ".log"
  {
    assert "_" + RANK_LABEL + "_" == "_mpi_process_";
  }

  lemma JoinedIs(dir: string, name: string)
    requires dir != "" && dir[|dir| - 1] != '/' && name != ""
    ensures JoinPath(dir, name) == dir + "/" + name
  {}
}
