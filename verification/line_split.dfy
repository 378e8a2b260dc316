/** Two ways to cut a message into log lines. The C runtime tokenises the buffer in place
    with strtok_r; the ngen logger reads lines from a stream and drops the blank ones. */
module LineSplit {
  import opened Text

  /** Length of the text before the first newline. */
  function LineLength(s: string): (n: nat)
    ensures n <= |s| && forall i :: 0 <= i < n ==> s[i] != '\n'
    ensures n < |s| ==> s[n] == '\n'
  {
    if s == [] || s[0] == '\n' then 0 else 1 + LineLength(s[1..])
  }

  /** `std::getline` until the stream ends: a final newline starts no further line. */
  function Lines(s: string): seq<string>
    decreases |s|
  {
    if s == [] then []
    else
      var n := LineLength(s);
      if n == |s| then [s] else [s[..n]] + Lines(s[n + 1..])
  }

  /** `strtok`: the non-empty stretches between newlines. */
  function Segments(s: string): seq<string>
    decreases |s|
  {
    if s == [] then []
    else if s[0] == '\n' then Segments(s[1..])
    else
      var n := LineLength(s);
      [s[..n]] + Segments(s[n..])
  }

  // ---- The ngen side -------------------------------------------------------------------

  function StripCr(line: string): string {
    if line != [] && line[|line| - 1] == '\r' then line[..|line| - 1] else line
  }

  predicate BlankLine(line: string) { forall i :: 0 <= i < |line| ==> line[i] == ' ' || line[i] == '\t' }

  /** Lines without one trailing carriage return each, blank ones dropped. */
  function Kept(lines: seq<string>): seq<string> {
    if lines == [] then []
    else (if BlankLine(StripCr(lines[0])) then [] else [StripCr(lines[0])]) + Kept(lines[1..])
  }

  lemma KeptCons(line: string, rest: seq<string>)
    ensures Kept([line] + rest) == (if BlankLine(StripCr(line)) then [] else [StripCr(line)]) + Kept(rest)
  {
    assert ([line] + rest)[1..] == rest;
  }

  function LoggedLines(message: string): seq<string> { Kept(Lines(message)) }

  /** Whether a line is logged, and the line without its carriage return. */
  method ShouldLogLine(line0: string) returns (keep: bool, line: string)
    ensures line == StripCr(line0) && keep == !BlankLine(line)
    ensures line0 == line + (if line0 != [] && line0[|line0| - 1] == '\r' then "\r" else "")
    ensures keep <==> exists i :: 0 <= i < |line| && line[i] != ' ' && line[i] != '\t'
  {
    line := line0;
    if line != [] && line[|line| - 1] == '\r' {
      line := line[..|line| - 1];
    }
    keep := exists i :: 0 <= i < |line| && line[i] != ' ' && line[i] != '\t';
  }

  /** The ngen writing loop: every kept line goes out behind the prefix. */
  method WriteLines(prefix: string, message: string, sink: seq<string>) returns (out: seq<string>)
    ensures out == sink + Prefixed(prefix, LoggedLines(message))
  {
    out := sink;
    var rest := message;
    ghost var done: seq<string> := [];
    while rest != []
      invariant out == sink + Prefixed(prefix, done)
      invariant done + LoggedLines(rest) == LoggedLines(message)
      decreases |rest|
    {
      var n := LineLength(rest);
      var keep, line := ShouldLogLine(rest[..n]);
      LineDone(message, done, rest, n);
      rest := if n == |rest| then [] else rest[n + 1..];
      if !keep { continue; }
      PrefixedSnoc(prefix, done, line);
      out := out + [prefix + " " + line];
      done := done + [line];
    }
    assert done + [] == done;
  }

  lemma LineDone(message: string, done: seq<string>, rest: string, n: nat)
    requires rest != [] && n == LineLength(rest) && done + LoggedLines(rest) == LoggedLines(message)
    ensures var line := StripCr(rest[..n]);
            (if BlankLine(line) then done else done + [line])
            + LoggedLines(if n == |rest| then [] else rest[n + 1..]) == LoggedLines(message)
  {
    NextLine(rest, n);
    var line := StripCr(rest[..n]);
    MoveAcross(done, line, LoggedLines(if n == |rest| then [] else rest[n + 1..]));
  }

  lemma MoveAcross(done: seq<string>, line: string, left: seq<string>)
    ensures done + ([line] + left) == (done + [line]) + left
    ensures [] + left == left
  {}

  lemma NextLine(rest: string, n: nat)
    requires rest != [] && n == LineLength(rest)
    ensures var line := StripCr(rest[..n]);
            LoggedLines(rest) == (if BlankLine(line) then [] else [line])
                                 + LoggedLines(if n == |rest| then [] else rest[n + 1..])
  {
    if n == |rest| {
      assert rest[..n] == rest && [rest] + [] == [rest];
      KeptCons(rest, []);
    } else {
      KeptCons(rest[..n], Lines(rest[n + 1..]));
    }
  }

  function Prefixed(prefix: string, lines: seq<string>): (r: seq<string>)
    ensures |r| == |lines|
  {
    if lines == [] then [] else [prefix + " " + lines[0]] + Prefixed(prefix, lines[1..])
  }

  lemma {:induction false} PrefixedIs(prefix: string, lines: seq<string>, i: nat)
    requires i < |lines|
    ensures Prefixed(prefix, lines)[i] == prefix + " " + lines[i]
  {
    if i > 0 { PrefixedIs(prefix, lines[1..], i - 1); }
  }

  lemma {:induction false} PrefixedSnoc(prefix: string, lines: seq<string>, line: string)
    ensures Prefixed(prefix, lines + [line]) == Prefixed(prefix, lines) + [prefix + " " + line]
  {
    if lines != [] {
      assert (lines + [line])[1..] == lines[1..] + [line];
      PrefixedSnoc(prefix, lines[1..], line);
    }
  }

  // ---- What the ngen lines are ---------------------------------------------------------

  /** The lines of a text are what its newlines separate; a final newline ends the last. */
  lemma LinesAre(line: string, rest: string)
    requires '\n' !in line
    ensures Lines("") == []
    ensures line != "" ==> Lines(line) == [line]
    ensures Lines(line + "\n" + rest) == [line] + Lines(rest)
  {
    var s := line + "\n" + rest;
    assert forall i :: 0 <= i < |line| ==> s[i] == line[i];
    assert s[|line|] == '\n';
    assert LineLength(s) == |line|;
    assert s[..|line|] == line && s[|line| + 1..] == rest;
    if line != "" { assert LineLength(line) == |line|; }
  }

  /** Which line is kept, and how. */
  lemma KeptLine(line: string)
    ensures var cut := if line != "" && line[|line| - 1] == '\r' then line[..|line| - 1] else line;
            Kept([line]) == if forall i :: 0 <= i < |cut| ==> cut[i] == ' ' || cut[i] == '\t' then [] else [cut]
  {
    KeptCons(line, []);
    assert [line] + [] == [line];
  }

  lemma KeptStep(line: string, rest: seq<string>)
    ensures Kept([line] + rest) == Kept([line]) + Kept(rest)
  {
    KeptCons(line, rest);
    KeptCons(line, []);
    assert [line] + [] == [line];
  }

  /** Each line is judged for itself. */
  lemma {:induction false} KeptConcat(a: seq<string>, b: seq<string>)
    ensures Kept([]) == [] && Kept(a + b) == Kept(a) + Kept(b)
  {
    if a == [] {
      assert a + b == b;
    } else {
      var line, rest := a[0], a[1..];
      KeptConcat(rest, b);
      assert a == [line] + rest && a + b == [line] + (rest + b);
      KeptStep(line, rest + b);
      KeptStep(line, rest);
      Regroup(Kept([line]), Kept(rest), Kept(b));
    }
  }

  // ---- The C side ------------------------------------------------------------------------

  /** The buffer still holds the message from a position on, and ends in a NUL. */
  ghost predicate Holds(buf: array<char>, text: string, from: nat)
    reads buf
  {
    buf.Length == |text| + 1 && buf[|text|] == NUL && from <= |text|
    && forall i :: from <= i < |text| ==> buf[i] == text[i]
  }

  /** One call of strtok_r on a buffer that holds a message from position `save` on: skips
      newlines, cuts the next token off with a NUL, and moves `save` past it. */
  method StrtokR(buf: array<char>, save: nat, ghost text: string)
    returns (found: bool, from: nat, to: nat, save': nat)
    requires Holds(buf, text, save) && NUL !in text
    modifies buf
    ensures Holds(buf, text, save')
    ensures !found ==> Segments(text[save..]) == []
    ensures found ==>
              && save <= from < to <= save' && buf[to] == NUL
              && buf[from..to] == text[from..to]
              && Segments(text[save..]) == [text[from..to]] + Segments(text[save'..])
    ensures forall i :: 0 <= i < buf.Length && !(found && i == to) ==> buf[i] == old(buf[i])
  {
    from := save;
    while buf[from] == '\n'
      invariant save <= from <= |text|
      invariant forall i :: save <= i < from ==> text[i] == '\n'
      decreases |text| - from
    {
      from := from + 1;
    }
    SkipNewlines(text, save, from);
    if buf[from] == NUL {
      assert text[from..] == [];
      return false, from, from, from;
    }
    to := from + 1;
    while buf[to] != '\n' && buf[to] != NUL
      invariant from < to <= |text|
      invariant forall i :: from <= i < to ==> text[i] != '\n'
      decreases |text| - to
    {
      to := to + 1;
    }
    TokenIsFirstSegment(text, from, to);
    save' := if buf[to] == '\n' then to + 1 else to;
    buf[to] := NUL;
    found := true;
  }

  lemma {:induction false} SkipNewlines(text: string, save: nat, from: nat)
    requires save <= from <= |text| && forall i :: save <= i < from ==> text[i] == '\n'
    ensures Segments(text[save..]) == Segments(text[from..])
    decreases from - save
  {
    if save < from {
      assert text[save..][0] == '\n' && text[save..][1..] == text[save + 1..];
      SkipNewlines(text, save + 1, from);
    }
  }

  lemma TokenIsFirstSegment(text: string, from: nat, to: nat)
    requires from < to <= |text| && forall i :: from <= i < to ==> text[i] != '\n'
    requires to < |text| ==> text[to] == '\n'
    ensures Segments(text[from..]) == [text[from..to]] + Segments(text[to..])
    ensures to < |text| ==> Segments(text[to..]) == Segments(text[to + 1..])
  {
    var s, n := text[from..], LineLength(text[from..]);
    assert n < |s| ==> text[from + n] == '\n';
    assert to < |text| ==> s[to - from] == '\n';
    assert n == to - from;
    assert s[..n] == text[from..to] && s[n..] == text[to..];
    if to < |text| { assert text[to..][1..] == text[to + 1..]; }
  }

  /** The C writing loop from a first token on. */
  method WriteTokens(prefix: string, buf: array<char>, from0: nat, to0: nat, save0: nat,
                     sink: seq<string>, ghost text: string)
    returns (out: seq<string>)
    requires from0 < to0 <= save0 && Holds(buf, text, save0) && NUL !in text
    modifies buf
    ensures out == sink + Prefixed(prefix, old([buf[from0..to0]]) + Segments(text[save0..]))
  {
    out := sink;
    var found, from, to, save := true, from0, to0, save0;
    ghost var all := [buf[from0..to0]] + Segments(text[save0..]);
    ghost var done: seq<string> := [];
    while found
      invariant 0 <= save && Holds(buf, text, save)
      invariant found ==> 0 <= from < to <= save
      invariant found ==> all == done + [buf[from..to]] + Segments(text[save..])
      invariant !found ==> all == done
      invariant out == sink + Prefixed(prefix, done)
      decreases found, |text| - save
    {
      var line := buf[from..to];
      PrefixedSnoc(prefix, done, line);
      out := out + [prefix + " " + line];
      done := done + [line];
      ghost var rest := Segments(text[save..]);
      assert all == done + rest;
      found, from, to, save := StrtokR(buf, save, text);
      if found { assert rest == [buf[from..to]] + Segments(text[save..]); }
    }
  }

  /** The C runtime's output for a message: every token behind the prefix, or the bare prefix
      if there is none. The message ends at its first NUL, so it has none inside. */
  method CLogLines(prefix: string, message: string, sink: seq<string>) returns (out: seq<string>)
    requires NUL !in message
    ensures out == sink + if Segments(message) == [] then [prefix] else Prefixed(prefix, Segments(message))
  {
    var n := |message|;
    var buf := new char[n + 1](i requires 0 <= i <= n => if i < n then message[i] else NUL);
    assert message[0..] == message;
    var found, from, to, save := StrtokR(buf, 0, message);
    if found {
      out := WriteTokens(prefix, buf, from, to, save, sink, message);
    } else {
      out := sink + [prefix];
    }
  }

  // ---- The two agree ----------------------------------------------------------------------

  /** The ngen lines of a message are the C segments of it with one trailing carriage
      return removed from each and the blank ones dropped, in order. */
  lemma {:induction false} SplittersAgree(s: string)
    ensures LoggedLines(s) == Kept(Segments(s))
    decreases |s|
  {
    if s != [] {
      var n := LineLength(s);
      if n < |s| {
        SplittersAgree(s[n + 1..]);
        assert s[n..][0] == '\n' && s[n..][1..] == s[n + 1..];
        assert Segments(s[n..]) == Segments(s[n + 1..]);
        assert n == 0 ==> s[n..] == s && s[..n] == "";
        KeptCons(s[..n], Segments(s[n..]));
      } else {
        assert s[..n] == s && s[n..] == [];
      }
      NextLine(s, n);
    }
  }

  /** The non-empty ones among some lines, in order. */
  function NonEmpty(lines: seq<string>): seq<string> {
    if lines == [] then [] else (if lines[0] == [] then [] else [lines[0]]) + NonEmpty(lines[1..])
  }

  /** The segments of a message are its lines without the empty ones, in order. */
  lemma {:induction false} SegmentsAreNonEmptyLines(s: string)
    ensures Segments(s) == NonEmpty(Lines(s))
    ensures forall x :: x in Lines(s) ==> '\n' !in x
    decreases |s|
  {
    if s != [] {
      var n := LineLength(s);
      if n < |s| {
        SegmentsAreNonEmptyLines(s[n + 1..]);
        assert s[n..][1..] == s[n + 1..];
      } else {
        assert s[..n] == s && s[n..] == [];
      }
    }
  }
}
