/** How a status payload is found in a line of text: the C++ writer looks for a pair of
    sentinels, the Python reader for every match of a non-greedy pattern. */
module PayloadFraming {
  import opened Options
  import opened Text

  const BEGIN := "<MSG_DATA>"
  const FINISH := "</MSG_DATA>"

  datatype Extraction = Extracted(json: string) | Malformed(error: string)

  function MissingSentinel(sentinel: string): string {
    "Malformed payload: missing sentinel " + sentinel
  }

  /** The C++ rule: no sentinel at all means the text itself is the payload; otherwise the
      first begin sentinel must have an end sentinel after it. */
  function ExtractJsonPayload(s: string): Extraction {
    var begin, finish := Find(s, BEGIN, 0), Find(s, FINISH, 0);
    if begin.None? && finish.None? then Extracted(s)
    else if finish.None? then Malformed(MissingSentinel(FINISH))
    else if begin.None? then Malformed(MissingSentinel(BEGIN))
    else
      var start := begin.value + |BEGIN|;
      var end := Find(s, FINISH, start);
      if end.None? then Malformed(MissingSentinel(FINISH))
      else Extracted(s[start..end.value])
  }

  // ---- The Python pattern <MSG_DATA>(.*?)</MSG_DATA> ------------------------------------

  /** Where the group of a match beginning at position `i` ends: at the first end sentinel,
      unless a newline, which `.` does not match, comes before it. */
  function MatchAt(s: string, i: nat): (r: Option<nat>)
    ensures r.Some? ==> i + |BEGIN| <= r.value && r.value + |FINISH| <= |s|
  {
    if !OccursAt(s, BEGIN, i) then None
    else
      var end := Find(s, FINISH, i + |BEGIN|);
      if end.Some? && '\n' !in s[i + |BEGIN|..end.value] then end else None
  }

  /** The groups of all matches from position `i` on, leftmost first, not overlapping. */
  function FindAll(s: string, i: nat): seq<string>
    decreases |s| - i
  {
    if i >= |s| then []
    else
      var end := MatchAt(s, i);
      if end.Some? then [s[i + |BEGIN|..end.value]] + FindAll(s, end.value + |FINISH|)
      else FindAll(s, i + 1)
  }

  ghost predicate HasSentinel(s: string) { Contains(s, BEGIN) || Contains(s, FINISH) }

  /** Positions that cannot begin a match are passed over. */
  lemma {:induction false} SkipTo(s: string, i: nat, j: nat)
    requires i <= j <= |s|
    requires forall k :: i <= k < j ==> MatchAt(s, k).None?
    ensures FindAll(s, i) == FindAll(s, j)
    decreases j - i
  {
    if i < j { SkipTo(s, i + 1, j); }
  }

  /** A group never holds a newline. */
  lemma {:induction false} GroupsAreOneLine(s: string, i: nat)
    ensures forall g :: g in FindAll(s, i) ==> '\n' !in g
    decreases |s| - i
  {
    if i < |s| {
      var end := MatchAt(s, i);
      if end.Some? { GroupsAreOneLine(s, end.value + |FINISH|); }
      else { GroupsAreOneLine(s, i + 1); }
    }
  }

  /** The first begin sentinel of a text, and the first end sentinel behind it. */
  ghost predicate FirstFrame(s: string, begin: nat, end: nat) {
    && OccursAt(s, BEGIN, begin) && (forall i: nat :: i < begin ==> !OccursAt(s, BEGIN, i))
    && begin + |BEGIN| <= end && OccursAt(s, FINISH, end)
    && (forall i: nat :: begin + |BEGIN| <= i < end ==> !OccursAt(s, FINISH, i))
  }

  /** The C++ rule fails and the pattern matches nowhere, or the rule's text is the pattern's
      first match. */
  predicate Agree(s: string) {
    match ExtractJsonPayload(s)
    case Malformed(_) => FindAll(s, 0) == []
    case Extracted(json) => FindAll(s, 0) != [] && FindAll(s, 0)[0] == json
  }

  /** A text without sentinels is its own payload. */
  lemma PlainTextIsPayload(s: string)
    requires !HasSentinel(s)
    ensures ExtractJsonPayload(s) == Extracted(s)
  {}

  /** What a failure says: the begin sentinel is missing if there is none, else the end
      sentinel. */
  lemma FailureNamesSentinel(s: string)
    requires ExtractJsonPayload(s).Malformed?
    ensures ExtractJsonPayload(s).error
            == if Contains(s, "<MSG_DATA>") then "Malformed payload: missing sentinel </MSG_DATA>"
               else "Malformed payload: missing sentinel <MSG_DATA>"
  {
    assert Contains(s, BEGIN) <==> Find(s, BEGIN, 0).Some?;
  }

  /** On a text with a sentinel the C++ rule succeeds exactly if there is a first frame, and
      yields what it encloses. */
  lemma ExtractsFirstFrame(s: string)
    requires HasSentinel(s)
    ensures ExtractJsonPayload(s).Malformed? <==> forall b: nat, e: nat :: !FirstFrame(s, b, e)
    ensures forall b: nat, e: nat :: FirstFrame(s, b, e) ==> ExtractJsonPayload(s) == Extracted(s[b + |BEGIN|..e])
  {
    var begin := Find(s, BEGIN, 0);
    assert begin.Some? || Find(s, FINISH, 0).Some?;
    forall b: nat, e: nat | FirstFrame(s, b, e) ensures ExtractJsonPayload(s) == Extracted(s[b + |BEGIN|..e]) {
      assert begin == Some(b) && Find(s, FINISH, b + |BEGIN|) == Some(e);
    }
    if ExtractJsonPayload(s).Extracted? {
      assert FirstFrame(s, begin.value, Find(s, FINISH, begin.value + |BEGIN|).value);
    }
  }

  lemma FirstFrameFound(s: string, b: nat, e: nat)
    requires FirstFrame(s, b, e)
    ensures Find(s, BEGIN, 0) == Some(b) && Find(s, FINISH, b + |BEGIN|) == Some(e)
    ensures MatchAt(s, b) == if '\n' in s[b + |BEGIN|..e] then None else Some(e)
  {}

  lemma AgreeOnFrame(s: string, b: nat, e: nat)
    requires FirstFrame(s, b, e)
    ensures Agree(s) <==> '\n' !in s[b + |BEGIN|..e]
  {
    FirstFrameFound(s, b, e);
    assert Contains(s, BEGIN);
    ExtractsFirstFrame(s);
    if '\n' in s[b + |BEGIN|..e] {
      GroupsAreOneLine(s, 0);
    } else {
      SkipTo(s, 0, b);
    }
  }

  /** On any text that has a sentinel the two readers agree exactly if what stands between the
      first begin sentinel and the first end sentinel behind it has no newline. */
  lemma ExtractorsAgreeIff(s: string)
    requires HasSentinel(s)
    ensures Agree(s) <==> forall b: nat, e: nat :: FirstFrame(s, b, e) ==> '\n' !in s[b + |BEGIN|..e]
  {
    forall b: nat, e: nat | FirstFrame(s, b, e) ensures Agree(s) <==> '\n' !in s[b + |BEGIN|..e] {
      AgreeOnFrame(s, b, e);
    }
    ExtractsFirstFrame(s);
    if ExtractJsonPayload(s).Malformed? { NoFrameNoMatch(s); }
  }

  lemma NoFrameNoMatch(s: string)
    requires HasSentinel(s) && ExtractJsonPayload(s).Malformed?
    ensures FindAll(s, 0) == []
  {
    assert Find(s, BEGIN, 0).Some? || Find(s, FINISH, 0).Some?;
    SkipTo(s, 0, |s|);
  }

  /** In particular, on one line of text the C++ rule succeeds exactly when the pattern
      matches, and yields its first match. */
  lemma ExtractorsAgreeOnOneLine(s: string)
    requires HasSentinel(s) && '\n' !in s
    ensures ExtractJsonPayload(s).Extracted? <==> FindAll(s, 0) != []
    ensures FindAll(s, 0) != [] ==> ExtractJsonPayload(s).json == FindAll(s, 0)[0]
  {
    ExtractorsAgreeIff(s);
  }

  /** For instance, the two part over a newline between the sentinels. */
  lemma NewlineBetweenSentinels()
    ensures !Agree("<MSG_DATA>\n</MSG_DATA>")
  {
    var s := "<MSG_DATA>\n</MSG_DATA>";
    assert OccursAt(s, BEGIN, 0) && OccursAt(s, FINISH, 11);
    assert s[10] == '\n';
    assert !OccursAt(s, FINISH, 10) by { if OccursAt(s, FINISH, 10) { CharOfOccurrence(s, FINISH, 10, 0); } }
    assert FirstFrame(s, 0, 11);
    assert '\n' in s[10..11];
    ExtractorsAgreeIff(s);
  }

  // ---- Sentinels cannot straddle ------------------------------------------------------

  /** A sentinel begins with `<` and has no other. */
  predicate IsSentinel(p: string) { p == BEGIN || p == FINISH }

  lemma SentinelShape(p: string)
    requires IsSentinel(p)
    ensures |p| >= 10 && p[0] == '<' && '<' !in p[1..] && ' ' !in p && '"' !in p && '\\' !in p
  {
    assert BEGIN[1..] == "MSG_DATA>" && FINISH[1..] == "/MSG_DATA>";
  }

  /** Text without `<` in front neither holds a sentinel nor helps form one. */
  lemma SkipPlainHead(a: string, b: string, p: string)
    requires IsSentinel(p) && '<' !in a
    ensures Contains(a + b, p) <==> Contains(b, p)
  {
    SentinelShape(p);
    var s := a + b;
    assert s[|a|..|s|] == b;
    if Contains(s, p) {
      var i: nat :| OccursAt(s, p, i);
      CharOfOccurrence(s, p, i, 0);
      OccurrenceInSlice(s, p, |a|, |s|, i - |a|);
    }
    if Contains(b, p) {
      var i: nat :| OccursAt(b, p, i);
      OccurrenceInSlice(s, p, |a|, |s|, i);
    }
  }

  /** A boundary character that no sentinel has inside it keeps both sides apart. */
  lemma SplitAtBoundary(a: string, b: string, p: string)
    requires IsSentinel(p) && b != [] && b[0] !in p[1..]
    ensures Contains(a + b, p) <==> Contains(a, p) || Contains(b, p)
  {
    SentinelShape(p);
    var s := a + b;
    assert s[0..|a|] == a && s[|a|..|s|] == b;
    if Contains(s, p) {
      var i: nat :| OccursAt(s, p, i);
      if i + |p| <= |a| {
        OccurrenceInSlice(s, p, 0, |a|, i);
      } else {
        if i < |a| { CharOfOccurrence(s, p, i, |a| - i); }
        OccurrenceInSlice(s, p, |a|, |s|, i - |a|);
      }
    }
    if Contains(a, p) {
      var i: nat :| OccursAt(a, p, i);
      OccurrenceInSlice(s, p, 0, |a|, i);
    }
    if Contains(b, p) {
      var i: nat :| OccursAt(b, p, i);
      OccurrenceInSlice(s, p, |a|, |s|, i);
    }
  }

  /** The first end sentinel from `start` on is the one at `close` exactly when the text
      between has none; it cannot borrow characters from the sentinel at `close`. */
  lemma FirstFinish(s: string, start: nat, close: nat)
    requires start <= close && OccursAt(s, FINISH, close)
    ensures var e := Find(s, FINISH, start);
            e.Some? && e.value <= close && (e.value == close <==> !Contains(s[start..close], FINISH))
  {
    SentinelShape(FINISH);
    var e := Find(s, FINISH, start).value;
    if e < close {
      CharOfOccurrence(s, FINISH, close, 0);
      if e + |FINISH| > close { CharOfOccurrence(s, FINISH, e, close - e); }
      OccurrenceInSlice(s, FINISH, start, close, e - start);
    } else if Contains(s[start..close], FINISH) {
      var i: nat :| OccursAt(s[start..close], FINISH, i);
      OccurrenceInSlice(s, FINISH, start, close, i);
    }
  }

  /** A body between sentinels, after a harmless prefix and before a newline. */
  function Wrap(prefix: string, body: string): string {
    prefix + BEGIN + body + FINISH + "\n"
  }

  lemma WrapParts(prefix: string, body: string)
    ensures var s, start := Wrap(prefix, body), |prefix| + |BEGIN|;
            && |s| == start + |body| + |FINISH| + 1
            && OccursAt(s, BEGIN, |prefix|) && OccursAt(s, FINISH, start + |body|)
            && s[start..start + |body|] == body
  {}

  /** A frame without a newline in it is the pattern's first match. */
  lemma FirstMatch(s: string, b: nat, e: nat)
    requires FirstFrame(s, b, e) && '\n' !in s[b + |BEGIN|..e]
    ensures FindAll(s, 0) == [s[b + |BEGIN|..e]] + FindAll(s, e + |FINISH|)
  {
    FirstFrameFound(s, b, e);
    SkipTo(s, 0, b);
  }

  lemma FrameBefore(s: string, b: nat, close: nat) returns (end: nat)
    requires OccursAt(s, BEGIN, b) && forall i: nat :: i < b ==> !OccursAt(s, BEGIN, i)
    requires b + |BEGIN| <= close && OccursAt(s, FINISH, close)
    ensures FirstFrame(s, b, end) && end <= close
    ensures end == close <==> !Contains(s[b + |BEGIN|..close], FINISH)
  {
    FirstFinish(s, b + |BEGIN|, close);
    end := Find(s, FINISH, b + |BEGIN|).value;
  }

  /** A body between sentinels at the end of a text: the pattern finds all of it, or first a
      cut of it at an earlier end sentinel. */
  lemma EnclosedMatch(s: string, b: nat, close: nat, body: string) returns (first: string, rest: seq<string>)
    requires OccursAt(s, BEGIN, b) && forall i: nat :: i < b ==> !OccursAt(s, BEGIN, i)
    requires b + |BEGIN| <= close && OccursAt(s, FINISH, close) && |s| == close + |FINISH| + 1
    requires body == s[b + |BEGIN|..close] && '\n' !in body
    ensures FindAll(s, 0) == [first] + rest
    ensures if Contains(body, FINISH) then first < body else first == body && rest == []
  {
    var end := FrameBefore(s, b, close);
    first, rest := s[b + |BEGIN|..end], FindAll(s, end + |FINISH|);
    assert first == body[..|first|];
    FirstMatch(s, b, end);
    if end == close { NoMoreMatches(s, end + |FINISH|); }
  }

  /** The pattern finds exactly the body if the body has no end sentinel, and otherwise its
      first match stops at the first one. */
  lemma WrappedBody(prefix: string, body: string)
    requires forall k :: 0 <= k < |prefix| ==> !OccursAt(Wrap(prefix, body), BEGIN, k)
    requires '\n' !in body
    ensures !Contains(body, FINISH) ==> FindAll(Wrap(prefix, body), 0) == [body]
    ensures Contains(body, FINISH) ==>
              FindAll(Wrap(prefix, body), 0) != [] && FindAll(Wrap(prefix, body), 0)[0] < body
  {
    WrapParts(prefix, body);
    var _, _ := EnclosedMatch(Wrap(prefix, body), |prefix|, |prefix| + |BEGIN| + |body|, body);
  }

  lemma NoMoreMatches(s: string, i: nat)
    requires i + 1 == |s|
    ensures FindAll(s, i) == []
  {
    assert FindAll(s, i + 1) == [];
  }
}
