/** The generator's constant names: how a registry key becomes an identifier. */
module Identifiers {
  import opened Text

  predicate Alnum(c: char) { 'A' <= c <= 'Z' || '0' <= c <= '9' }

  predicate Digit(c: char) { '0' <= c <= '9' }

  // ---- The generator's pipeline -----------------------------------------------------------

  /** Length of the run in front of characters that satisfy a test. */
  function Span(s: string, test: char -> bool): (n: nat)
    ensures n <= |s| && forall i :: 0 <= i < n ==> test(s[i])
    ensures n < |s| ==> !test(s[n])
  {
    if s != [] && test(s[0]) then 1 + Span(s[1..], test) else 0
  }

  const IS_ALNUM: char -> bool := c => Alnum(c)
  const IS_OTHER: char -> bool := c => !Alnum(c)
  const IS_UNDERSCORE: char -> bool := c => c == '_'

  /** `re.sub("[^A-Z0-9]+", "_", s)` */
  function ReplaceOthers(s: string): string
    decreases |s|
  {
    if s == [] then []
    else if Alnum(s[0]) then [s[0]] + ReplaceOthers(s[1..])
    else "_" + ReplaceOthers(s[Span(s, IS_OTHER)..])
  }

  /** `re.sub("_+", "_", s)` */
  function SqueezeUnderscores(s: string): string
    decreases |s|
  {
    if s == [] then []
    else if s[0] == '_' then "_" + SqueezeUnderscores(s[Span(s, IS_UNDERSCORE)..])
    else [s[0]] + SqueezeUnderscores(s[1..])
  }

  function IdentFromKey(key: string): string {
    var s := Upper(Strip(key, IS_PY_SPACE));
    var core := Strip(SqueezeUnderscores(ReplaceOthers(s)), IS_UNDERSCORE);
    var named := if core == [] then "MODULE" else core;
    if Digit(named[0]) then "M_" + named else named
  }

  // ---- The reference: words --------------------------------------------------------------

  /** The maximal alphanumeric runs of a text. */
  function Words(s: string): seq<string>
    decreases |s|
  {
    if s == [] then []
    else if Alnum(s[0]) then
      var n := Span(s, IS_ALNUM);
      [s[..n]] + Words(s[n..])
    else Words(s[1..])
  }

  function Join(ws: seq<string>): string {
    if ws == [] then [] else if |ws| == 1 then ws[0] else ws[0] + ("_" + Join(ws[1..]))
  }

  predicate IsWord(w: string) { w != [] && forall i :: 0 <= i < |w| ==> Alnum(w[i]) }

  predicate AreWords(ws: seq<string>) { forall i :: 0 <= i < |ws| ==> IsWord(ws[i]) }

  /** The words of the identifier: a stand-in when there are none, and a leading `M` in
      front of a digit. */
  function Patch(ws: seq<string>): seq<string> {
    if ws == [] then ["MODULE"]
    else if ws[0] != [] && Digit(ws[0][0]) then ["M"] + ws
    else ws
  }

  // ---- Words and joining are inverse -------------------------------------------------------

  lemma {:induction false} WordsAreWords(s: string)
    ensures AreWords(Words(s))
    decreases |s|
  {
    if s != [] {
      if Alnum(s[0]) { WordsAreWords(s[Span(s, IS_ALNUM)..]); }
      else { WordsAreWords(s[1..]); }
    }
  }

  lemma {:induction false} SpanOfWord(w: string, rest: string)
    requires forall i :: 0 <= i < |w| ==> Alnum(w[i])
    requires rest != [] ==> !Alnum(rest[0])
    ensures Span(w + rest, IS_ALNUM) == |w|
  {
    var s := w + rest;
    var n := Span(s, IS_ALNUM);
    assert forall i :: 0 <= i < |w| ==> s[i] == w[i];
    assert rest != [] ==> s[|w|] == rest[0];
  }

  lemma {:induction false} WordsOfJoin(ws: seq<string>)
    requires AreWords(ws)
    ensures Words(Join(ws)) == ws
  {
    if ws != [] {
      var tail := if |ws| == 1 then "" else "_" + Join(ws[1..]);
      SpanOfWord(ws[0], tail);
      var s := ws[0] + tail;
      assert s == Join(ws) && s[0] == ws[0][0];
      assert s[..|ws[0]|] == ws[0] && s[|ws[0]|..] == tail;
      if |ws| > 1 {
        assert tail[1..] == Join(ws[1..]);
        WordsOfJoin(ws[1..]);
      }
    }
  }

  // ---- The pipeline computes them -------------------------------------------------------------

  function Lead(s: string): string { if s != [] && !Alnum(s[0]) then "_" else "" }

  function Trail(s: string): string { if s != [] && !Alnum(s[|s| - 1]) then "_" else "" }

  lemma {:induction false} ReplaceWord(s: string, n: nat)
    requires n <= |s| && forall i :: 0 <= i < n ==> Alnum(s[i])
    ensures ReplaceOthers(s) == s[..n] + ReplaceOthers(s[n..])
  {
    if n > 0 {
      ReplaceWord(s[1..], n - 1);
      assert s[1..][n - 1..] == s[n..] && s[..n] == [s[0]] + s[1..][..n - 1];
    }
  }

  lemma {:induction false} WordsSkip(s: string, n: nat)
    requires n <= |s| && forall i :: 0 <= i < n ==> !Alnum(s[i])
    ensures Words(s) == Words(s[n..])
  {
    if n > 0 {
      WordsSkip(s[1..], n - 1);
      assert s[1..][n - 1..] == s[n..];
    }
  }

  lemma TrailOfRest(s: string, n: nat)
    requires n < |s|
    ensures Trail(s) == Trail(s[n..])
  {}

  /** After the first substitution: the words joined by single underscores, with one more at
      an end where the text began or ended with something else. */
  ghost predicate Shaped(s: string) {
    ReplaceOthers(s) == Lead(s) + if Words(s) == [] then "" else Join(Words(s)) + Trail(s)
  }

  lemma {:induction false} ReplacedShape(s: string)
    ensures Shaped(s)
    decreases |s|
  {
    if s != [] {
      if Alnum(s[0]) {
        ReplacedShape(s[Span(s, IS_ALNUM)..]);
        ShapeAtWord(s);
      } else {
        ReplacedShape(s[Span(s, IS_OTHER)..]);
        ShapeAtOther(s);
      }
    }
  }

  lemma ShapeAtWord(s: string)
    requires s != [] && Alnum(s[0]) && Shaped(s[Span(s, IS_ALNUM)..])
    ensures Shaped(s)
  {
    var n := Span(s, IS_ALNUM);
    var w, rest := s[..n], s[n..];
    ReplaceWord(s, n);
    ShapeOfWord(w, rest);
    assert Words(s) == [w] + Words(rest) && Lead(s) == "";
    if n < |s| { TrailOfRest(s, n); } else { assert Trail(s) == ""; }
  }

  lemma ShapeAtOther(s: string)
    requires s != [] && !Alnum(s[0]) && Shaped(s[Span(s, IS_OTHER)..])
    ensures Shaped(s)
  {
    var n := Span(s, IS_OTHER);
    var rest := s[n..];
    assert ReplaceOthers(s) == "_" + ReplaceOthers(rest);
    WordsSkip(s, n);
    assert Lead(s) == "_" && Lead(rest) == "";
    var shape := if Words(rest) == [] then "" else Join(Words(rest)) + Trail(rest);
    assert ReplaceOthers(rest) == "" + shape == shape;
    if n < |s| { TrailOfRest(s, n); }
  }

  lemma ShapeOfWord(w: string, rest: string)
    requires rest != [] ==> !Alnum(rest[0])
    ensures var ws := Words(rest);
            w + (Lead(rest) + if ws == [] then "" else Join(ws) + Trail(rest))
            == Join([w] + ws) + (if rest == [] then "" else Trail(rest))
  {
    var ws := Words(rest);
    if ws == [] {
      NoWords(rest);
      assert Lead(rest) == Trail(rest);
    } else {
      assert ([w] + ws)[1..] == ws;
      assert Lead(rest) == "_";
    }
  }

  lemma {:induction false} NoWords(s: string)
    requires Words(s) == []
    ensures forall i :: 0 <= i < |s| ==> !Alnum(s[i])
    decreases |s|
  {
    if s != [] { NoWords(s[1..]); }
  }

  /** No two adjacent underscores. */
  predicate Squeezed(s: string) {
    forall i :: 0 <= i < |s| - 1 ==> !(s[i] == '_' && s[i + 1] == '_')
  }

  lemma {:induction false} SqueezeIdle(s: string)
    requires Squeezed(s)
    ensures SqueezeUnderscores(s) == s
    decreases |s|
  {
    if s != [] {
      if s[0] == '_' {
        assert Span(s, IS_UNDERSCORE) == 1;
      }
      SqueezeIdle(s[1..]);
    }
  }

  lemma {:induction false} ReplacedIsSqueezed(s: string)
    ensures Squeezed(ReplaceOthers(s))
    ensures ReplaceOthers(s) != [] ==> s != [] && (ReplaceOthers(s)[0] == '_' <==> !Alnum(s[0]))
    decreases |s|
  {
    if s != [] {
      if Alnum(s[0]) { ReplacedIsSqueezed(s[1..]); }
      else { ReplacedIsSqueezed(s[Span(s, IS_OTHER)..]); }
    }
  }

  lemma {:induction false} JoinEnds(ws: seq<string>)
    requires AreWords(ws) && ws != []
    ensures var j := Join(ws); j != [] && j[0] == ws[0][0] && Alnum(j[0]) && Alnum(j[|j| - 1])
  {
    if |ws| > 1 { JoinEnds(ws[1..]); }
  }

  lemma StripUnderscores(a: string, j: string, b: string)
    requires a in {"", "_"} && b in {"", "_"}
    requires j != [] && j[0] != '_' && j[|j| - 1] != '_'
    ensures Strip(a + (j + b), IS_UNDERSCORE) == j
  {
    var s := a + (j + b);
    assert a == "_" ==> s[1..] == j + b;
    assert StripLeft(j + b, IS_UNDERSCORE) == j + b;
    assert StripLeft(s, IS_UNDERSCORE) == j + b;
    assert b == "_" ==> (j + b)[..|j + b| - 1] == j;
    assert b == "" ==> j + b == j;
    assert StripRight(j, IS_UNDERSCORE) == j;
  }

  /** Outer whitespace makes no word. */
  lemma {:induction false} StripLeftKeepsWords(s: string)
    ensures Words(Upper(StripLeft(s, IS_PY_SPACE))) == Words(Upper(s))
  {
    if s != [] && PySpace(s[0]) {
      StripLeftKeepsWords(s[1..]);
      assert Upper(s)[1..] == Upper(s[1..]);
    }
  }

  lemma {:induction false} StripRightKeepsWords(s: string)
    ensures Words(Upper(StripRight(s, IS_PY_SPACE))) == Words(Upper(s))
  {
    if s != [] && PySpace(s[|s| - 1]) {
      var init := s[..|s| - 1];
      StripRightKeepsWords(init);
      assert Upper(s) == Upper(init) + [s[|s| - 1]];
      WordsDropLast(Upper(init), s[|s| - 1]);
    }
  }

  lemma {:induction false} WordsDropLast(s: string, c: char)
    requires !Alnum(c)
    ensures Words(s + [c]) == Words(s)
    decreases |s|
  {
    var t := s + [c];
    if s == [] {
      assert t[1..] == [];
    } else if Alnum(s[0]) {
      var n := Span(s, IS_ALNUM);
      assert t == s[..n] + (s[n..] + [c]);
      SpanOfWord(s[..n], s[n..] + [c]);
      assert t[..n] == s[..n] && t[n..] == s[n..] + [c];
      WordsDropLast(s[n..], c);
    } else {
      assert t[1..] == s[1..] + [c];
      WordsDropLast(s[1..], c);
    }
  }

  /** Stripping, substituting, squeezing and trimming leave the joined words. */
  lemma TrimmedIsJoined(s: string)
    ensures Strip(SqueezeUnderscores(ReplaceOthers(s)), IS_UNDERSCORE) == Join(Words(s))
  {
    var ws := Words(s);
    ReplacedShape(s);
    ReplacedIsSqueezed(s);
    SqueezeIdle(ReplaceOthers(s));
    WordsAreWords(s);
    if ws == [] {
      OneUnderscore();
    } else {
      JoinEnds(ws);
      StripUnderscores(Lead(s), Join(ws), Trail(s));
    }
  }

  lemma OneUnderscore()
    ensures Strip("_", IS_UNDERSCORE) == "" && Strip("", IS_UNDERSCORE) == ""
  {
    assert "_"[1..] == "";
  }

  lemma JoinCons(w: string, ws: seq<string>)
    requires ws != []
    ensures Join([w] + ws) == w + ("_" + Join(ws))
  {
    assert ([w] + ws)[1..] == ws;
  }

  /** The whole pipeline: the words of the upper-cased key, patched, joined by underscores. */
  lemma IdentIsJoinedWords(key: string)
    ensures IdentFromKey(key) == Join(Patch(Words(Upper(key))))
  {
    StripLeftKeepsWords(key);
    StripRightKeepsWords(StripLeft(key, IS_PY_SPACE));
    var ws := Words(Upper(key));
    TrimmedIsJoined(Upper(Strip(key, IS_PY_SPACE)));
    WordsAreWords(Upper(key));
    if ws != [] {
      JoinEnds(ws);
      JoinCons("M", ws);
    }
  }

  // ---- Consequences ---------------------------------------------------------------------------

  predicate LegalIdentifier(s: string) {
    s != [] && !Digit(s[0]) && forall i :: 0 <= i < |s| ==> Alnum(s[i]) || s[i] == '_'
  }

  lemma PatchedAreWords(ws: seq<string>)
    requires AreWords(ws)
    ensures AreWords(Patch(ws)) && Patch(ws) != [] && !Digit(Patch(ws)[0][0])
    ensures Patch(Patch(ws)) == Patch(ws)
  {
    assert IsWord("MODULE") && IsWord("M");
  }

  lemma {:induction false} JoinChars(ws: seq<string>)
    requires AreWords(ws)
    ensures forall i :: 0 <= i < |Join(ws)| ==> Alnum(Join(ws)[i]) || Join(ws)[i] == '_'
  {
    if |ws| > 1 { JoinChars(ws[1..]); }
  }

  /** Every key gives a legal identifier, and an identifier is its own identifier. */
  lemma IdentLegalAndIdempotent(key: string)
    ensures LegalIdentifier(IdentFromKey(key))
    ensures IdentFromKey(IdentFromKey(key)) == IdentFromKey(key)
  {
    var ws := Words(Upper(key));
    WordsAreWords(Upper(key));
    PatchedAreWords(ws);
    IdentIsJoinedWords(key);
    JoinEnds(Patch(ws));
    JoinChars(Patch(ws));
    var id := IdentFromKey(key);
    IdentIsJoinedWords(id);
    assert Upper(id) == id;
    WordsOfJoin(Patch(ws));
  }

  /** Exactly when two keys share an identifier: their words agree, or one has none and the
      other is the stand-in, or one begins with a digit and the other has `M` before it. */
  ghost predicate Collide(x: seq<string>, y: seq<string>) {
    || x == y
    || (x == [] && y == ["MODULE"])
    || (y == [] && x == ["MODULE"])
    || (x != [] && x[0] != [] && Digit(x[0][0]) && y == ["M"] + x)
    || (y != [] && y[0] != [] && Digit(y[0][0]) && x == ["M"] + y)
  }

  lemma CollisionIff(a: string, b: string)
    ensures IdentFromKey(a) == IdentFromKey(b) <==> Collide(Words(Upper(a)), Words(Upper(b)))
  {
    var x, y := Words(Upper(a)), Words(Upper(b));
    IdentIsJoinedWords(a);
    IdentIsJoinedWords(b);
    WordsAreWords(Upper(a));
    WordsAreWords(Upper(b));
    PatchedAreWords(x);
    PatchedAreWords(y);
    WordsOfJoin(Patch(x));
    WordsOfJoin(Patch(y));
    if Patch(x) == Patch(y) && x != y {
      assert x != [] && Patch(x) == ["M"] + x ==> Patch(x)[1..] == x;
      assert y != [] && Patch(y) == ["M"] + y ==> Patch(y)[1..] == y;
    }
  }

  // ---- Letters, digits and examples -------------------------------------------------------

  lemma AlnumIs(c: char)
    ensures Alnum(c) <==> c in UPPER_LETTERS || c in "0123456789"
    ensures Digit(c) <==> c in "0123456789"
  {
    if 'A' <= c <= 'Z' { LetterCodes(c as int - 65); }
    if c in UPPER_LETTERS {
      var k :| 0 <= k < |UPPER_LETTERS| && UPPER_LETTERS[k] == c;
      LetterCodes(k);
    }
    if '0' <= c <= '9' { DigitTable(c as int - 48); }
    if c in "0123456789" {
      var k :| 0 <= k < 10 && "0123456789"[k] == c;
      DigitTable(k);
    }
  }

  /** Any other character separates words, and a run of alphanumeric ones is a word. */
  lemma {:induction false} WordsSplit(a: string, c: char, b: string)
    requires !Alnum(c)
    ensures Words(a + [c] + b) == Words(a) + Words(b)
    decreases |a|
  {
    var s := a + [c] + b;
    if a == [] {
      assert s[0] == c && s[1..] == b;
    } else if Alnum(a[0]) {
      var n := Span(a, IS_ALNUM);
      SpanInFront(a, c, b, n);
      WordsSplit(a[n..], c, b);
      assert s[..n] == a[..n] && s[n..] == a[n..] + [c] + b;
    } else {
      WordsSplit(a[1..], c, b);
      assert s[0] == a[0] && s[1..] == a[1..] + [c] + b;
    }
  }

  lemma SpanInFront(a: string, c: char, b: string, n: nat)
    requires !Alnum(c) && n == Span(a, IS_ALNUM)
    ensures Span(a + [c] + b, IS_ALNUM) == n
  {
    var s := a + [c] + b;
    assert forall i :: 0 <= i < |a| ==> s[i] == a[i];
    assert s[|a|] == c;
  }

  lemma OneWord(w: string)
    requires IsWord(w)
    ensures Words(w) == [w]
  {
    WordsOfJoin([w]);
    assert Join([w]) == w;
  }

  /** How the words are put together: one underscore between two, "MODULE" for none, and "M_" in
      front of a digit. */
  lemma NamesPutTogether(w: string, v: string)
    requires IsWord(w) && IsWord(v)
    ensures Join(Patch([])) == "MODULE"
    ensures Join(Patch([w, v])) == (if w[0] in "0123456789" then "M_" else "") + w + "_" + v
  {
    AlnumIs(w[0]);
    assert [w, v][1..] == [v];
    assert Join([w, v]) == w + ("_" + v);
    var all := ["M", w, v];
    assert all[1..] == [w, v] && ["M"] + [w, v] == all;
    assert Join(all) == "M" + ("_" + (w + ("_" + v)));
    assert "M" + ("_" + (w + ("_" + v))) == "M_" + w + "_" + v;
  }

  /** For instance, a key of two words, such as "snow-17" or "2d-flow", whatever stands between
      them. */
  lemma TwoWordKey(key: string, w: string, c: char, v: string)
    requires Upper(key) == w + [c] + v && IsWord(w) && IsWord(v) && !Alnum(c)
    ensures IdentFromKey(key) == (if w[0] in "0123456789" then "M_" else "") + w + "_" + v
    ensures IdentFromKey("") == "MODULE"
  {
    IdentIsJoinedWords(key);
    IdentIsJoinedWords("");
    WordsSplit(w, c, v);
    OneWord(w);
    OneWord(v);
    NamesPutTogether(w, v);
    assert [w] + [v] == [w, v] && Upper("") == "";
  }
}
