/** Reading a payload log back: the file is the writer's records one after the other, and the
    reader takes it line by line. */
module PayloadLog {
  import opened Options
  import opened Text
  import opened LineSplit
  import opened PayloadFraming
  import opened PayloadCodec

  /** The lines of a file, each with the newline that ends it. */
  function FileLines(s: string): seq<string>
    decreases |s|
  {
    if s == [] then []
    else
      var n := LineLength(s);
      if n == |s| then [s] else [s[..n + 1]] + FileLines(s[n + 1..])
  }

  function FileText(records: seq<string>): string {
    if records == [] then [] else records[0] + FileText(records[1..])
  }

  /** What the reader makes of the lines, one after the other; those without a payload give
      nothing. */
  function Outcomes(lines: seq<string>, number: NumberReader): seq<Outcome> {
    if lines == [] then []
    else
      var r := ReadPayload(lines[0], number);
      (if r == NoPayload then [] else [r]) + Outcomes(lines[1..], number)
  }

  lemma FirstFileLine(line: string, more: string)
    requires '\n' !in line
    ensures FileLines((line + "\n") + more) == [line + "\n"] + FileLines(more)
  {
    var s := (line + "\n") + more;
    var n := LineLength(s);
    assert s[|line|] == '\n';
    assert forall i :: 0 <= i < |line| ==> s[i] == line[i];
    assert n == |line|;
    assert s[..n + 1] == line + "\n" && s[n + 1..] == more;
  }

  lemma NothingInFront(line: string, number: NumberReader)
    requires !Contains(line, BEGIN)
    ensures ReadPayload(line, number) == NoPayload
  {
    SkipTo(line, 0, |line|);
  }

  /** Cutting a harmless prefix leaves it harmless, and a part of it holds no begin
      sentinel. */
  lemma CutPrefix(prefix: string, body: string, n: nat)
    requires HarmlessPrefix(prefix, body) && n <= |prefix|
    ensures HarmlessPrefix(prefix[n..], body)
    ensures !Contains(prefix[..n], BEGIN)
  {
    var s := Wrap(prefix, body);
    assert s[n..|s|] == Wrap(prefix[n..], body) && s[0..n] == prefix[..n];
    forall k | 0 <= k < |prefix[n..]| ensures !OccursAt(Wrap(prefix[n..], body), BEGIN, k) {
      OccurrenceInSlice(s, BEGIN, n, |s|, k);
    }
    forall k: nat ensures !OccursAt(prefix[..n], BEGIN, k) {
      if k + |BEGIN| <= n { OccurrenceInSlice(s, BEGIN, 0, n, k); }
    }
  }

  lemma OutcomeOfLine(line: string, more: string, number: NumberReader)
    requires '\n' !in line
    ensures var r := ReadPayload(line + "\n", number);
            Outcomes(FileLines((line + "\n") + more), number)
            == (if r == NoPayload then [] else [r]) + Outcomes(FileLines(more), number)
  {
    FirstFileLine(line, more);
  }

  /** A body on one line reads alike behind any harmless text. */
  ghost predicate Reads(body: string, r: Outcome, number: NumberReader) {
    '\n' !in body && r != NoPayload
    && forall prefix :: HarmlessPrefix(prefix, body) ==> ReadPayload(Wrap(prefix, body), number) == r
  }

  lemma TakeLine(s: string) returns (line: string, left: string)
    requires s != [] && s[|s| - 1] == '\n'
    ensures s == (line + "\n") + left && '\n' !in line && |left| < |s|
    ensures left == [] || left[|left| - 1] == '\n'
  {
    var n := LineLength(s);
    line, left := s[..n], s[n + 1..];
  }

  /** Whole lines without a begin sentinel give nothing. */
  lemma {:induction false} FrontGivesNothing(front: string, rest: string, number: NumberReader)
    requires front == [] || front[|front| - 1] == '\n'
    requires !Contains(front, BEGIN)
    ensures Outcomes(FileLines(front + rest), number) == Outcomes(FileLines(rest), number)
    decreases |front|
  {
    if front == [] {
      assert front + rest == rest;
    } else {
      var line, left := TakeLine(front);
      PartsWithoutBegin(line + "\n", left);
      FrontGivesNothing(left, rest, number);
      Regroup(line + "\n", left, rest);
      NothingInFront(line + "\n", number);
      OutcomeOfLine(line, left + rest, number);
    }
  }

  lemma PartsWithoutBegin(a: string, b: string)
    requires !Contains(a + b, BEGIN)
    ensures !Contains(a, BEGIN) && !Contains(b, BEGIN)
  {
    var s := a + b;
    assert s[0..|a|] == a && s[|a|..|s|] == b;
    forall k: nat ensures !OccursAt(a, BEGIN, k) && !OccursAt(b, BEGIN, k) {
      if OccursAt(a, BEGIN, k) { OccurrenceInSlice(s, BEGIN, 0, |a|, k); }
      if OccursAt(b, BEGIN, k) { OccurrenceInSlice(s, BEGIN, |a|, |s|, k); }
    }
  }

  lemma WrappedOnOneLine(prefix: string, body: string, r: Outcome, more: string, number: NumberReader)
    requires HarmlessPrefix(prefix, body) && Reads(body, r, number) && '\n' !in prefix
    ensures Outcomes(FileLines(Wrap(prefix, body) + more), number) == [r] + Outcomes(FileLines(more), number)
  {
    var w := Wrap(prefix, body);
    WrapOneLine(prefix, body);
    assert w == w[..|w| - 1] + "\n";
    OutcomeOfLine(w[..|w| - 1], more, number);
  }

  /** Where the last line of a text begins. */
  function LastLine(s: string): (n: nat)
    ensures n <= |s| && '\n' !in s[n..] && (n > 0 ==> s[n - 1] == '\n')
  {
    if s == [] || s[|s| - 1] == '\n' then |s| else LastLine(s[..|s| - 1])
  }

  /** However many lines the text in front of a body is spread over, the reader gets the body
      and nothing else out of them. */
  lemma WrappedInFile(prefix: string, body: string, r: Outcome, more: string, number: NumberReader)
    requires HarmlessPrefix(prefix, body) && Reads(body, r, number)
    ensures Outcomes(FileLines(Wrap(prefix, body) + more), number) == [r] + Outcomes(FileLines(more), number)
  {
    var n := LastLine(prefix);
    CutPrefix(prefix, body, n);
    WrappedOnOneLine(prefix[n..], body, r, more, number);
    SplitWrapped(prefix, body, more, n);
    FrontGivesNothing(prefix[..n], Wrap(prefix[n..], body) + more, number);
  }

  lemma SplitWrapped(prefix: string, body: string, more: string, n: nat)
    requires n <= |prefix|
    ensures Wrap(prefix, body) + more == prefix[..n] + (Wrap(prefix[n..], body) + more)
  {
    assert prefix == prefix[..n] + prefix[n..];
  }

  /** One record of the log: when, for which module, which fields. */
  datatype Entry = Entry(ts: string, name: string, status: string, prog: Option<string>, msg: string, modnm: string)

  function RecordOf(e: Entry): string { Record(e.ts, e.name, e.status, e.prog, e.msg, e.modnm) }

  function RecordsOf(es: seq<Entry>): (r: seq<string>)
    ensures |r| == |es| && forall i :: 0 <= i < |es| ==> r[i] == RecordOf(es[i])
  {
    if es == [] then [] else [RecordOf(es[0])] + RecordsOf(es[1..])
  }

  ghost function ExpectedOf(e: Entry, number: NumberReader): Outcome {
    Expected(e.status, e.prog, e.msg, e.modnm, number)
  }

  ghost function ExpectedOfAll(es: seq<Entry>, number: NumberReader): (r: seq<Outcome>)
    ensures |r| == |es| && forall i :: 0 <= i < |es| ==> r[i] == ExpectedOf(es[i], number)
  {
    if es == [] then [] else [ExpectedOf(es[0], number)] + ExpectedOfAll(es[1..], number)
  }

  /** Stamps have no `<`, and progress texts are what a stream prints for a double. */
  ghost predicate Printable(e: Entry) { '<' !in e.ts && (e.prog.Some? ==> IsFloatText(e.prog.value)) }

  /** The reader's answer to an entry: exactly what was written, with no text for an empty one
      or "NULL"; an exception if the fields are not readable. */
  ghost predicate GivesBack(r: Outcome, e: Entry, number: NumberReader) {
    if !Readable(e.status, e.prog, e.msg, e.modnm, number) then r == Failed
    else
      && r.Read? && r.payload.status == e.status
      && r.payload.prog == (if e.prog.None? then None else number(e.prog.value))
      && r.payload.msg == (if e.msg == "" || e.msg == "NULL" then None else Some(e.msg))
      && r.payload.modnm == (if e.modnm == "" || e.modnm == "NULL" then None else Some(e.modnm))
  }

  ghost predicate AllGiveBack(rs: seq<Outcome>, es: seq<Entry>, number: NumberReader) {
    |rs| == |es| && forall i :: 0 <= i < |es| ==> GivesBack(rs[i], es[i], number)
  }

  lemma ExpectedGiveBack(es: seq<Entry>, number: NumberReader)
    ensures AllGiveBack(ExpectedOfAll(es, number), es, number)
  {
    forall i | 0 <= i < |es| ensures GivesBack(ExpectedOfAll(es, number)[i], es[i], number) {
      ExpectedIs(es[i].status, es[i].prog, es[i].msg, es[i].modnm, number);
    }
  }

  lemma TextOfMore(es: seq<Entry>)
    requires es != []
    ensures FileText(RecordsOf(es)) == RecordOf(es[0]) + FileText(RecordsOf(es[1..]))
  {
    assert RecordsOf(es)[1..] == RecordsOf(es[1..]);
  }

  lemma EntryReads(e: Entry, number: NumberReader)
    requires Printable(e)
    ensures Reads(JsonText(e.status, e.prog, e.msg, e.modnm), ExpectedOf(e, number), number)
  {
    var body := JsonText(e.status, e.prog, e.msg, e.modnm);
    BodyIsOneLine(e.status, e.prog, e.msg, e.modnm);
    forall prefix | HarmlessPrefix(prefix, body)
      ensures ReadPayload(Wrap(prefix, body), number) == ExpectedOf(e, number)
    {
      WrappedRoundTrip(prefix, e.status, e.prog, e.msg, e.modnm, number);
    }
  }

  lemma EntryInFile(e: Entry, more: string, number: NumberReader)
    requires Printable(e)
    ensures Outcomes(FileLines(RecordOf(e) + more), number)
            == [ExpectedOf(e, number)] + Outcomes(FileLines(more), number)
  {
    var body := JsonText(e.status, e.prog, e.msg, e.modnm);
    EntryReads(e, number);
    RecordPrefixHarmless(e.ts, e.name, body);
    WrappedInFile(RecordPrefix(e.ts, e.name), body, ExpectedOf(e, number), more, number);
  }

  /** Read line by line, the text of a payload log gives what was written, in order, whatever
      the ids are: a newline in the shown part of an id only adds a line without payload. */
  lemma LogReadsBack(es: seq<Entry>, number: NumberReader)
    requires forall i :: 0 <= i < |es| ==> Printable(es[i])
    ensures AllGiveBack(Outcomes(FileLines(FileText(RecordsOf(es))), number), es, number)
  {
    LogIsExpected(es, number);
    ExpectedGiveBack(es, number);
  }

  lemma {:induction false} LogIsExpected(es: seq<Entry>, number: NumberReader)
    requires forall i :: 0 <= i < |es| ==> Printable(es[i])
    ensures Outcomes(FileLines(FileText(RecordsOf(es))), number) == ExpectedOfAll(es, number)
  {
    if es != [] {
      LogIsExpected(es[1..], number);
      EntryInFile(es[0], FileText(RecordsOf(es[1..])), number);
      TextOfMore(es);
    }
  }
}
