/** The status record: written by the ngen logger in C++, read back by Python. The two
    sides share nothing but the text, so the writer's escaping, the JSON grammar
    (section 7 of RFC 8259) and the sentinel framing all have to agree. */
module PayloadCodec {
  import opened Options
  import opened Text
  import opened PayloadFraming

  // ---- The writer -------------------------------------------------------------------

  function EscapeChar(c: char): string {
    match c
    case '"' => "\\\""
    case '\\' => "\\\\"
    case '\n' => "\\n"
    case '\r' => "\\r"
    case '\t' => "\\t"
    case _ => [c]
  }

  function Escape(s: string): string {
    if s == [] then [] else EscapeChar(s[0]) + Escape(s[1..])
  }

  lemma EscapeFrom(s: string, i: nat, out: string)
    requires i < |s|
    ensures out + Escape(s[i..]) == (out + EscapeChar(s[i])) + Escape(s[i + 1..])
  {
    assert s[i..][1..] == s[i + 1..];
    var e, rest := EscapeChar(s[i]), Escape(s[i + 1..]);
    assert out + (e + rest) == (out + e) + rest;
  }

  method EscapeJson(s: string) returns (out: string)
    ensures out == Escape(s)
  {
    out := [];
    for i := 0 to |s|
      invariant out + Escape(s[i..]) == Escape(s)
    {
      EscapeFrom(s, i, out);
      out := out + EscapeChar(s[i]);
    }
    assert s[|s|..] == [];
  }

  const NULL_TEXT := "NULL"

  /** Text an absent value is written for. */
  predicate Blank(v: string) { v == [] || v == NULL_TEXT }

  function StringValue(v: string): string {
    if Blank(v) then "null" else "\"" + (Escape(v) + "\"")
  }

  /** The text of a progress value: nothing when it is negative, otherwise what the C++
      stream printed for it. */
  function ProgValue(prog: Option<string>): string {
    match prog
    case None => "null"
    case Some(t) => t
  }

  function Member(key: string, value: string): string { "\"" + (key + ("\"" + (":" + value))) }

  /** The record body, fields in the order the writer adds them. */
  function JsonText(status: string, prog: Option<string>, msg: string, modnm: string): string {
    "{" + (Member("status", StringValue(status)) + ("," + (Member("prog", ProgValue(prog)) + (","
      + (Member("msg", StringValue(msg)) + ("," + (Member("modnm", StringValue(modnm)) + "}")))))))
  }

  method AddMember(json: string, first: bool, key: string, value: string)
    returns (json': string, first': bool)
    ensures json' == json + (if first then "" else ",") + Member(key, value) && !first'
  {
    json', first' := json, first;
    if !first' { json' := json' + ","; }
    first' := false;
    json' := json' + "\"" + key + "\":";
    json' := json' + value;
    assert json' == json + (if first then "" else ",") + Member(key, value);
  }

  method AddString(json: string, first: bool, key: string, value: string)
    returns (json': string, first': bool)
    ensures json' == json + (if first then "" else ",") + Member(key, StringValue(value)) && !first'
    ensures json' == json + (if first then "" else ",") + "\"" + key + "\":"
                     + if value == "" || value == "NULL" then "null" else "\"" + Escape(value) + "\""
  {
    var text := "null";
    if !(value == [] || value == NULL_TEXT) {
      var escaped := EscapeJson(value);
      text := "\"" + (escaped + "\"");
    }
    json', first' := AddMember(json, first, key, text);
    MemberText(json + (if first then "" else ","), key, text);
    assert text == if value == "" || value == "NULL" then "null" else "\"" + Escape(value) + "\"";
  }

  lemma MemberText(front: string, key: string, value: string)
    ensures front + Member(key, value) == front + "\"" + key + "\":" + value
  {}

  /** What the writer puts for a text: null for one that is empty or "NULL". */
  lemma StringValueIs(v: string)
    ensures StringValue(v) == if v == "" || v == "NULL" then "null" else "\"" + Escape(v) + "\""
    ensures StringValue(v) == "null" <==> v == "" || v == "NULL"
  {
    assert "\"" + (Escape(v) + "\"") == "\"" + Escape(v) + "\"";
    assert ("\"" + (Escape(v) + "\""))[0] == '"';
  }

  method BuildJson(status: string, prog: Option<string>, msg: string, modnm: string)
    returns (json: string)
    ensures json == JsonText(status, prog, msg, modnm)
  {
    var first := true;
    json := "{";
    json, first := AddString(json, first, "status", status);
    json, first := AddMember(json, first, "prog", ProgValue(prog));
    json, first := AddString(json, first, "msg", msg);
    json, first := AddString(json, first, "modnm", modnm);
    json := json + "}";
    RegroupMembers(Member("status", StringValue(status)), Member("prog", ProgValue(prog)),
                   Member("msg", StringValue(msg)), Member("modnm", StringValue(modnm)));
  }

  lemma RegroupMembers(a: string, b: string, c: string, d: string)
    ensures "{" + "" + a + "," + b + "," + c + "," + d + "}"
            == "{" + (a + ("," + (b + ("," + (c + ("," + (d + "}")))))))
  {}

  const ID_WIDTH := 8

  function PadEwtsId(id: string): (r: string)
    ensures |r| == ID_WIDTH
    ensures forall i :: 0 <= i < 8 ==> r[i] == if i < |id| then UpperChar(id[i]) else ' '
  {
    var s := Upper(id);
    if |s| >= ID_WIDTH then s[..ID_WIDTH] else s + seq(ID_WIDTH - |s|, _ => ' ')
  }

  function RecordPrefix(ts: string, id: string): string {
    ts + (" " + (PadEwtsId(id) + " STATUS  "))
  }

  /** The whole line of the payload log. */
  function Record(ts: string, id: string, status: string, prog: Option<string>, msg: string, modnm: string): string {
    Wrap(RecordPrefix(ts, id), JsonText(status, prog, msg, modnm))
  }

  /** The record as it stands in the file. */
  lemma RecordIs(ts: string, id: string, status: string, prog: Option<string>, msg: string, modnm: string)
    ensures Record(ts, id, status, prog, msg, modnm)
            == ts + " " + PadEwtsId(id) + " STATUS  <MSG_DATA>{\"status\":" + StringValue(status)
               + ",\"prog\":" + (if prog.Some? then prog.value else "null")
               + ",\"msg\":" + StringValue(msg) + ",\"modnm\":" + StringValue(modnm) + "}</MSG_DATA>\n"
  {
    var p := ProgValue(prog);
    BodyText(StringValue(status), p, StringValue(msg), StringValue(modnm));
    var body := JsonText(status, prog, msg, modnm);
    RecordText(ts, PadEwtsId(id), body);
    RecordParts(ts, PadEwtsId(id), StringValue(status), p, StringValue(msg), StringValue(modnm));
  }

  lemma BodyText(a: string, b: string, c: string, d: string)
    ensures "{" + (Member("status", a) + ("," + (Member("prog", b) + (","
              + (Member("msg", c) + ("," + (Member("modnm", d) + "}")))))))
            == "{\"status\":" + a + ",\"prog\":" + b + ",\"msg\":" + c + ",\"modnm\":" + d + "}"
  {
    var s := "{\"status\":" + a;
    var p := s + ",\"prog\":" + b;
    var m := p + ",\"msg\":" + c;
    MemberText("{", "status", a);
    assert "{" + "\"" + "status" + "\":" == "{\"status\":";
    NextMember(s, "prog", ",\"prog\":", b);
    NextMember(p, "msg", ",\"msg\":", c);
    NextMember(m, "modnm", ",\"modnm\":", d);
    ChainMembers(s, p, m, m + ",\"modnm\":" + d,
                 Member("status", a), Member("prog", b), Member("msg", c), Member("modnm", d));
  }

  lemma ChainMembers(s: string, p: string, m: string, n: string, a: string, b: string, c: string, d: string)
    requires s == "{" + a && p == s + "," + b && m == p + "," + c && n == m + "," + d
    ensures "{" + (a + ("," + (b + ("," + (c + ("," + (d + "}"))))))) == n + "}"
  {
    RegroupMembers(a, b, c, d);
    assert "{" + "" + a == "{" + a;
  }

  lemma NextMember(front: string, key: string, head: string, value: string)
    requires head == ",\"" + key + "\":"
    ensures front + "," + Member(key, value) == front + head + value
  {
    MemberText(front + ",", key, value);
    assert front + "," + "\"" + key + "\":" == front + head;
  }

  lemma RecordText(ts: string, pad: string, body: string)
    ensures Wrap(ts + (" " + (pad + " STATUS  ")), body)
            == ts + " " + pad + " STATUS  <MSG_DATA>" + body + "</MSG_DATA>\n"
  {}

  lemma RecordParts(ts: string, pad: string, a: string, b: string, c: string, d: string)
    ensures ts + " " + pad + " STATUS  <MSG_DATA>"
            + ("{\"status\":" + a + ",\"prog\":" + b + ",\"msg\":" + c + ",\"modnm\":" + d + "}") + "</MSG_DATA>\n"
            == ts + " " + pad + " STATUS  <MSG_DATA>{\"status\":" + a
               + ",\"prog\":" + b + ",\"msg\":" + c + ",\"modnm\":" + d + "}</MSG_DATA>\n"
  {}

  // ---- The reader's JSON ---------------------------------------------------------------

  datatype Json = Null | Str(text: string) | Num(token: string)

  predicate ControlChar(c: char) { c < ' ' }

  function Unescaped(c: char): Option<char> {
    match c
    case '"' => Some('"')
    case '\\' => Some('\\')
    case '/' => Some('/')
    case 'b' => Some(8 as char)
    case 'f' => Some(12 as char)
    case 'n' => Some('\n')
    case 'r' => Some('\r')
    case 't' => Some('\t')
    case _ => None
  }

  /** A string body, from after its opening quote: the text it stands for and what follows
      the closing quote. Unescaped control characters are refused. */
  function ScanString(s: string): (r: Option<(string, string)>)
    ensures r.Some? ==> |r.value.1| < |s|
  {
    if s == [] || ControlChar(s[0]) then None
    else if s[0] == '"' then Some(([], s[1..]))
    else if s[0] != '\\' then
      var r := ScanString(s[1..]);
      if r.None? then None else Some(([s[0]] + r.value.0, r.value.1))
    else if |s| == 1 || Unescaped(s[1]).None? then None
    else
      var r := ScanString(s[2..]);
      if r.None? then None else Some(([Unescaped(s[1]).value] + r.value.0, r.value.1))
  }

  predicate NumberChar(c: char) { '0' <= c <= '9' || c in "+-.eE" }

  /** Length of the run of number characters in front. */
  function NumberSpan(s: string): (n: nat)
    ensures n <= |s|
  {
    if s != [] && NumberChar(s[0]) then 1 + NumberSpan(s[1..]) else 0
  }

  predicate StartsWithNull(s: string) {
    |s| >= 4 && s[0] == 'n' && s[1] == 'u' && s[2] == 'l' && s[3] == 'l'
  }

  function ParseValue(s: string): (r: Option<(Json, string)>)
    ensures r.Some? ==> |r.value.1| < |s|
  {
    if StartsWithNull(s) then Some((Null, s[4..]))
    else if s != [] && s[0] == '"' then
      var r := ScanString(s[1..]);
      if r.None? then None else Some((Str(r.value.0), r.value.1))
    else
      var n := NumberSpan(s);
      if n == 0 then None else Some((Num(s[..n]), s[n..]))
  }

  type Dict = map<string, Json>

  /** The members of an object up to its closing brace; a later key replaces an earlier. */
  function ParseMembers(s: string, d: Dict): Option<(Dict, string)>
    decreases |s|
  {
    if s == [] || s[0] != '"' then None
    else
      var k := ScanString(s[1..]);
      if k.None? || k.value.1 == [] || k.value.1[0] != ':' then None
      else
        var v := ParseValue(k.value.1[1..]);
        if v.None? || v.value.1 == [] then None
        else
          var d', rest := d[k.value.0 := v.value.0], v.value.1;
          if rest[0] == '}' then Some((d', rest[1..]))
          else if rest[0] == ',' then ParseMembers(rest[1..], d')
          else None
  }

  function ParseObject(s: string): Option<(Dict, string)> {
    if |s| < 2 || s[0] != '{' then None
    else if s[1] == '}' then Some((map[], s[2..]))
    else ParseMembers(s[1..], map[])
  }

  /** `json.loads` of a flat object: nothing may follow the closing brace. */
  function Loads(s: string): Option<Dict> {
    var r := ParseObject(s);
    if r.Some? && r.value.1 == [] then Some(r.value.0) else None
  }

  // ---- The reader's payload ------------------------------------------------------------

  const STATUSES: set<string> :=
    {"NULL", "INITIALIZING", "INITIALIZED", "STARTING", "IN_PROGRESS", "COMPLETE", "ERROR"}

  datatype Payload = Payload(status: string, prog: Option<real>, msg: Option<string>, modnm: Option<string>)

  /** No payload in the text, an exception, or a payload. */
  datatype Outcome = NoPayload | Failed | Read(payload: Payload)

  /** How the reader turns a number token into a float; `None` if it is no JSON number. */
  type NumberReader = string -> Option<real>

  predicate TextOrNone(d: Dict, key: string) { key in d ==> !d[key].Num? }

  function GetText(d: Dict, key: string): Option<string> {
    if key in d && d[key].Str? then Some(d[key].text) else None
  }

  predicate ProgOk(d: Dict, number: NumberReader) {
    ("prog" in d && d["prog"] != Null) ==>
      d["prog"].Num? && number(d["prog"].token).Some? && 0.0 <= number(d["prog"].token).value <= 1.0
  }

  function PayloadOfDict(d: Dict, number: NumberReader): Outcome {
    if !(d.Keys <= {"status", "prog", "msg", "modnm"}) then Failed
    else if !("status" in d && d["status"].Str? && d["status"].text in STATUSES) then Failed
    else if !ProgOk(d, number) || !TextOrNone(d, "msg") || !TextOrNone(d, "modnm") then Failed
    else
      var prog := if "prog" in d && d["prog"].Num? then number(d["prog"].token) else None;
      Read(Payload(d["status"].text, prog, GetText(d, "msg"), GetText(d, "modnm")))
  }

  /** What the Python reader makes of a piece of log text. */
  function ReadPayload(s: string, number: NumberReader): Outcome {
    var groups := FindAll(s, 0);
    if groups == [] then NoPayload
    else if |groups| != 1 then Failed
    else
      var d := Loads(groups[0]);
      if d.None? then Failed else PayloadOfDict(d.value, number)
  }

  /** The reader as it runs: it rewrites the decoded dictionary entry by entry, then builds
      the payload, which collects every complaint before raising. */
  method PayloadOfLogMsg(s: string, number: NumberReader) returns (r: Outcome)
    ensures r == ReadPayload(s, number)
  {
    var groups := FindAll(s, 0);
    if groups == [] { return NoPayload; }
    if |groups| != 1 { return Failed; }
    var loaded := Loads(groups[0]);
    if loaded.None? { return Failed; }
    var d := loaded.value;
    if "status" !in d || !d["status"].Str? || d["status"].text !in STATUSES { return Failed; }
    var prog: Option<real> := None;
    if "prog" in d && d["prog"] != Null {
      if !d["prog"].Num? || number(d["prog"].token).None? { return Failed; }
      prog := number(d["prog"].token);
    }
    if !(d.Keys <= {"status", "prog", "msg", "modnm"}) { return Failed; }
    var errs: seq<string> := [];
    if prog.Some? && !(0.0 <= prog.value <= 1.0) { errs := errs + ["prog"]; }
    if "msg" in d && d["msg"].Num? { errs := errs + ["msg"]; }
    if "modnm" in d && d["modnm"].Num? { errs := errs + ["modnm"]; }
    if errs != [] { return Failed; }
    r := Read(Payload(d["status"].text, prog, GetText(d, "msg"), GetText(d, "modnm")));
  }

  /** The escapes of section 7 of RFC 8259 that take two characters. */
  lemma EscapeTable(c: char)
    ensures Unescaped('"') == Some('"') && Unescaped('\\') == Some('\\') && Unescaped('/') == Some('/')
    ensures Unescaped('n') == Some('\n') && Unescaped('r') == Some('\r') && Unescaped('t') == Some('\t')
    ensures Unescaped('b') == Some(8 as char) && Unescaped('f') == Some(12 as char)
    ensures c !in "\"\\/bfnrt" ==> Unescaped(c).None?
  {
    var escapes := "\"\\/bfnrt";
    assert escapes[0] == '"' && escapes[1] == '\\' && escapes[2] == '/' && escapes[3] == 'b' && escapes[4] == 'f'
           && escapes[5] == 'n' && escapes[6] == 'r' && escapes[7] == 't';
  }

  /** What the reader accepts of a decoded object: a status of the list, no member but the
      four, a progress that is null or a number from 0 to 1, and texts or null otherwise. */
  lemma AcceptedIff(d: Dict, number: NumberReader)
    ensures PayloadOfDict(d, number).Read? <==>
              && "status" in d && d["status"].Str?
              && d["status"].text in {"NULL", "INITIALIZING", "INITIALIZED", "STARTING", "IN_PROGRESS", "COMPLETE",
                                      "ERROR"}
              && (forall k :: k in d ==> k == "status" || k == "prog" || k == "msg" || k == "modnm")
              && ("prog" in d ==> d["prog"] == Null
                                  || (d["prog"].Num? && number(d["prog"].token).Some?
                                      && 0.0 <= number(d["prog"].token).value <= 1.0))
              && ("msg" in d ==> d["msg"] == Null || d["msg"].Str?)
              && ("modnm" in d ==> d["modnm"] == Null || d["modnm"].Str?)
    ensures PayloadOfDict(d, number) != NoPayload
  {}

  /** A text with a second payload in it is refused. */
  lemma OnePayloadOnly(s: string, b: nat, e: nat, number: NumberReader)
    requires FirstFrame(s, b, e) && '\n' !in s[b + |BEGIN|..e]
    requires FindAll(s, e + |FINISH|) != []
    ensures ReadPayload(s, number) == Failed
  {
    FirstMatch(s, b, e);
  }

  // ---- Escaping and scanning are inverse -----------------------------------------------

  /** Characters `EscapeJson` may pass through raw without breaking the grammar. */
  predicate Clean(s: string) { forall i :: 0 <= i < |s| ==> CleanChar(s[i]) }

  predicate CleanChar(c: char) { ControlChar(c) ==> c == '\n' || c == '\r' || c == '\t' }

  lemma ScanPair(x: char, tail: string)
    requires Unescaped(x).Some?
    ensures ScanString(['\\', x] + tail) ==
              if ScanString(tail).None? then None
              else Some(([Unescaped(x).value] + ScanString(tail).value.0, ScanString(tail).value.1))
  {
    var s := ['\\', x] + tail;
    assert s[0] == '\\' && s[1] == x && s[2..] == tail;
  }

  lemma ScanPlain(c: char, tail: string)
    requires c != '"' && c != '\\'
    ensures ScanString([c] + tail) ==
              if ControlChar(c) || ScanString(tail).None? then None
              else Some(([c] + ScanString(tail).value.0, ScanString(tail).value.1))
  {
    var s := [c] + tail;
    assert s[0] == c && s[1..] == tail;
  }

  lemma ScanOneEscaped(c: char, tail: string)
    ensures ScanString(EscapeChar(c) + tail) ==
              if !CleanChar(c) || ScanString(tail).None? then None
              else Some(([c] + ScanString(tail).value.0, ScanString(tail).value.1))
  {
    match c
    case '"' => ScanPair('"', tail);
    case '\\' => ScanPair('\\', tail);
    case '\n' => ScanPair('n', tail);
    case '\r' => ScanPair('r', tail);
    case '\t' => ScanPair('t', tail);
    case _ => ScanPlain(c, tail);
  }

  /** An escaped body followed by a quote scans back to the original text and the exact
      remainder; a body with another control character does not scan at all. */
  lemma {:induction false} ScanEscaped(t: string, rest: string)
    ensures ScanString(Escape(t) + ("\"" + rest)) == if Clean(t) then Some((t, rest)) else None
  {
    if t == [] {
      assert Escape(t) + ("\"" + rest) == "\"" + rest;
      assert ("\"" + rest)[1..] == rest;
    } else {
      ScanEscaped(t[1..], rest);
      var tail := Escape(t[1..]) + ("\"" + rest);
      assert Escape(t) + ("\"" + rest) == EscapeChar(t[0]) + tail;
      ScanOneEscaped(t[0], tail);
      assert t == [t[0]] + t[1..];
      assert Clean(t) <==> CleanChar(t[0]) && Clean(t[1..]);
    }
  }

  /** A body whose closing quote has been cut off never scans. */
  lemma {:induction false} ScanExtends(s: string, more: string)
    ensures ScanString(s).Some? ==>
              ScanString(s + more) == Some((ScanString(s).value.0, ScanString(s).value.1 + more))
  {
    if ScanString(s).Some? {
      if s[0] == '"' {
        assert (s + more)[1..] == s[1..] + more;
      } else if s[0] != '\\' {
        ScanExtends(s[1..], more);
        assert (s + more)[1..] == s[1..] + more;
      } else {
        ScanExtends(s[2..], more);
        assert (s + more)[2..] == s[2..] + more;
      }
    }
  }

  lemma {:induction false} SpanExtends(s: string, more: string)
    requires NumberSpan(s) < |s|
    ensures NumberSpan(s + more) == NumberSpan(s)
  {
    if NumberChar(s[0]) {
      assert (s + more)[1..] == s[1..] + more;
      SpanExtends(s[1..], more);
    }
  }

  lemma ValueExtends(s: string, more: string)
    requires ParseValue(s).Some? && ParseValue(s).value.1 != []
    ensures ParseValue(s + more) == Some((ParseValue(s).value.0, ParseValue(s).value.1 + more))
  {
    var t := s + more;
    assert t[0] == s[0];
    if StartsWithNull(s) {
      assert t[4..] == s[4..] + more;
    } else if s[0] == '"' {
      ScanExtends(s[1..], more);
      assert t[1..] == s[1..] + more;
    } else {
      var n := NumberSpan(s);
      SpanExtends(s, more);
      assert t[n..] == s[n..] + more && t[..n] == s[..n];
    }
  }

  lemma MemberExtends(s: string, k: (string, string), v: (Json, string), more: string)
    requires s != [] && ScanString(s[1..]) == Some(k) && k.1 != []
    requires ParseValue(k.1[1..]) == Some(v) && v.1 != []
    ensures ScanString((s + more)[1..]) == Some((k.0, k.1 + more))
    ensures ParseValue((k.1 + more)[1..]) == Some((v.0, v.1 + more))
  {
    assert (s + more)[1..] == s[1..] + more;
    ScanExtends(s[1..], more);
    assert (k.1 + more)[1..] == k.1[1..] + more;
    ValueExtends(k.1[1..], more);
  }

  lemma ParseStep(s: string, d: Dict, k: (string, string), v: (Json, string))
    requires s != [] && s[0] == '"' && ScanString(s[1..]) == Some(k) && k.1 != [] && k.1[0] == ':'
    requires ParseValue(k.1[1..]) == Some(v) && v.1 != []
    ensures ParseMembers(s, d)
            == if v.1[0] == '}' then Some((d[k.0 := v.0], v.1[1..]))
               else if v.1[0] == ',' then ParseMembers(v.1[1..], d[k.0 := v.0])
               else None
  {}

  /** What parses as a complete object still parses, to the same members, in front of more
      text, which is then left over. */
  lemma {:induction false} MembersExtend(s: string, d: Dict, more: string)
    ensures ParseMembers(s, d).Some? ==>
              ParseMembers(s + more, d)
              == Some((ParseMembers(s, d).value.0, ParseMembers(s, d).value.1 + more))
    decreases |s|
  {
    if ParseMembers(s, d).Some? {
      var k := ScanString(s[1..]).value;
      var v := ParseValue(k.1[1..]).value;
      MemberExtends(s, k, v, more);
      assert (v.1 + more)[1..] == v.1[1..] + more;
      ParseStep(s, d, k, v);
      ParseStep(s + more, d, (k.0, k.1 + more), (v.0, v.1 + more));
      if v.1[0] == ',' { MembersExtend(v.1[1..], d[k.0 := v.0], more); }
    }
  }

  /** Nothing may follow an object. */
  lemma TrailingTextRefused(s: string, more: string)
    requires Loads(s).Some? && more != []
    ensures Loads(s + more).None?
  {
    assert (s + more)[0] == s[0] && (s + more)[1] == s[1];
    if s[1] == '}' {
      assert (s + more)[2..] == s[2..] + more;
    } else {
      assert (s + more)[1..] == s[1..] + more;
      MembersExtend(s[1..], map[], more);
    }
  }

  /** Cutting a text that is one object, or that does not parse, leaves no object. */
  lemma CutObjectFails(s: string, k: nat)
    requires k < |s|
    requires ParseObject(s).Some? ==> ParseObject(s).value.1 == []
    ensures Loads(s[..k]).None?
  {
    var p, more := s[..k], s[k..];
    assert s == p + more;
    if Loads(p).Some? && p[1] != '}' {
      assert s[1..] == p[1..] + more;
      MembersExtend(p[1..], map[], more);
    }
  }

  // ---- The record's members decode -----------------------------------------------------

  function JsonOf(v: string): Json { if Blank(v) then Null else Str(v) }

  function JsonOfProg(prog: Option<string>): Json {
    match prog
    case None => Null
    case Some(t) => Num(t)
  }

  predicate IsNumberText(t: string) { t != [] && forall c :: c in t ==> NumberChar(c) }

  /** What a C++ stream prints for a double that is not negative. */
  predicate IsFloatText(t: string) { IsNumberText(t) || t in {"inf", "nan", "-nan"} }

  /** The character after a member: a comma or the closing brace. */
  predicate Separator(c: char) { c == ',' || c == '}' }

  lemma QuotedParses(v: string, rest: string)
    ensures ParseValue("\"" + (Escape(v) + "\"") + rest) == if Clean(v) then Some((Str(v), rest)) else None
  {
    var s := "\"" + (Escape(v) + "\"") + rest;
    var e := Escape(v);
    assert s[1..] == e + ("\"" + rest);
    assert s[0] == '"';
    ScanEscaped(v, rest);
  }

  lemma NullParses(rest: string)
    ensures ParseValue("null" + rest) == Some((Null, rest))
  {
    assert ("null" + rest)[4..] == rest;
  }

  lemma StringValueParses(v: string, rest: string)
    ensures ParseValue(StringValue(v) + rest) == if Clean(v) then Some((JsonOf(v), rest)) else None
  {
    if Blank(v) {
      NullParses(rest);
    } else {
      QuotedParses(v, rest);
    }
  }

  lemma {:induction false} SpanOfNumber(t: string, rest: string)
    requires forall c :: c in t ==> NumberChar(c)
    requires rest != [] && !NumberChar(rest[0])
    ensures NumberSpan(t + rest) == |t|
  {
    if t == [] {
      assert t + rest == rest;
    } else {
      SpanOfNumber(t[1..], rest);
      assert (t + rest)[1..] == t[1..] + rest;
    }
  }

  lemma ProgValueParses(prog: Option<string>, rest: string)
    requires rest != [] && Separator(rest[0])
    requires prog.Some? ==> IsFloatText(prog.value)
    ensures var r := ParseValue(ProgValue(prog) + rest);
            if prog.None? || IsNumberText(prog.value) then r == Some((JsonOfProg(prog), rest))
            else r.None? || (r.value.1 != [] && !Separator(r.value.1[0]))
  {
    if prog.None? {
      NullParses(rest);
    } else if IsNumberText(prog.value) {
      NumberParses(prog.value, rest);
    } else if prog.value == "-nan" {
      var s := "-nan" + rest;
      assert NumberSpan(s[1..]) == 0;
      assert s[1..][0] == 'n';
    } else {
      var s := prog.value + rest;
      assert NumberSpan(s) == 0 && s[1] != 'u';
    }
  }

  lemma NumberParses(t: string, rest: string)
    requires IsNumberText(t) && rest != [] && Separator(rest[0])
    ensures ParseValue(t + rest) == Some((Num(t), rest))
  {
    var s := t + rest;
    assert s[0] == t[0] && t[0] in t;
    SpanOfNumber(t, rest);
    assert s[..|t|] == t && s[|t|..] == rest;
  }

  /** One member of an object whose value text is known to parse. */
  lemma MemberParses(key: string, value: string, rest: string, d: Dict)
    requires Escape(key) == key && Clean(key)
    requires rest != []
    ensures var v := ParseValue(value + rest);
            ParseMembers(Member(key, value) + rest, d) ==
              if v.None? || v.value.1 == [] then None
              else if v.value.1[0] == '}' then Some((d[key := v.value.0], v.value.1[1..]))
              else if v.value.1[0] == ',' then ParseMembers(v.value.1[1..], d[key := v.value.0])
              else None
  {
    KeyInFront(key, value, rest);
    ScanEscaped(key, ":" + (value + rest));
    assert (":" + (value + rest))[1..] == value + rest;
  }

  lemma KeyInFront(key: string, value: string, rest: string)
    ensures var s := Member(key, value) + rest;
            s[0] == '"' && s[1..] == key + ("\"" + (":" + (value + rest)))
  {}

  predicate Letters(s: string) { forall i :: 0 <= i < |s| ==> 'a' <= s[i] <= 'z' }

  lemma {:induction false} LettersArePlain(s: string)
    requires Letters(s)
    ensures Escape(s) == s && Clean(s)
  {
    if s != [] {
      LettersArePlain(s[1..]);
      assert s == [s[0]] + s[1..];
    }
  }

  /** A text member, then a comma and more, or the closing brace. */
  lemma TextMemberParses(key: string, v: string, rest: string, d: Dict)
    requires Letters(key)
    requires rest != [] && Separator(rest[0])
    ensures ParseMembers(Member(key, StringValue(v)) + rest, d) ==
              if !Clean(v) then None
              else if rest[0] == '}' then Some((d[key := JsonOf(v)], rest[1..]))
              else ParseMembers(rest[1..], d[key := JsonOf(v)])
  {
    LettersArePlain(key);
    MemberParses(key, StringValue(v), rest, d);
    StringValueParses(v, rest);
  }

  lemma ProgMemberParses(prog: Option<string>, rest: string, d: Dict)
    requires rest != [] && rest[0] == ','
    requires prog.Some? ==> IsFloatText(prog.value)
    ensures ParseMembers(Member("prog", ProgValue(prog)) + rest, d) ==
              if prog.Some? && !IsNumberText(prog.value) then None
              else ParseMembers(rest[1..], d["prog" := JsonOfProg(prog)])
  {
    LettersArePlain("prog");
    MemberParses("prog", ProgValue(prog), rest, d);
    ProgValueParses(prog, rest);
  }

  function FullDict(status: string, prog: Option<string>, msg: string, modnm: string): Dict {
    map["status" := JsonOf(status)]["prog" := JsonOfProg(prog)]["msg" := JsonOf(msg)]["modnm" := JsonOf(modnm)]
  }

  /** The writer's body read as an object: the four members, or nothing at all when some
      text holds a control character the writer does not escape, or the progress text is
      no number. */
  lemma BodyDecodes(status: string, prog: Option<string>, msg: string, modnm: string)
    requires prog.Some? ==> IsFloatText(prog.value)
    ensures ParseObject(JsonText(status, prog, msg, modnm)) ==
              if Clean(status) && Clean(msg) && Clean(modnm) && (prog.Some? ==> IsNumberText(prog.value)) then
                Some((FullDict(status, prog, msg, modnm), []))
              else None
  {
    var m2 := Member("prog", ProgValue(prog)) + ("," + LastMembers(msg, modnm));
    var m1 := Member("status", StringValue(status)) + ("," + m2);
    var s := JsonText(status, prog, msg, modnm);
    assert s == "{" + m1;
    assert s[0] == '{' && s[1] == m1[0] == '"' && s[1..] == m1;
    var d1: Dict := map["status" := JsonOf(status)];
    TextMemberParses("status", status, "," + m2, map[]);
    assert ("," + m2)[1..] == m2;
    ProgMemberParses(prog, "," + LastMembers(msg, modnm), d1);
    assert ("," + LastMembers(msg, modnm))[1..] == LastMembers(msg, modnm);
    LastMembersParse(msg, modnm, d1["prog" := JsonOfProg(prog)]);
  }

  function LastMembers(msg: string, modnm: string): string {
    Member("msg", StringValue(msg)) + ("," + (Member("modnm", StringValue(modnm)) + "}"))
  }

  lemma LastMembersParse(msg: string, modnm: string, d: Dict)
    ensures ParseMembers(LastMembers(msg, modnm), d) ==
              if Clean(msg) && Clean(modnm) then Some((d["msg" := JsonOf(msg)]["modnm" := JsonOf(modnm)], []))
              else None
  {
    var m4 := Member("modnm", StringValue(modnm)) + "}";
    TextMemberParses("msg", msg, "," + m4, d);
    assert ("," + m4)[1..] == m4;
    TextMemberParses("modnm", modnm, "}", d["msg" := JsonOf(msg)]);
    assert "}"[1..] == [];
  }

  // ---- The body and the sentinels -----------------------------------------------------

  lemma {:induction false} PlainPrefixOfEscaped(t: string, p: string)
    requires '\\' !in p && '"' !in p && '\n' !in p && '\r' !in p && '\t' !in p
    ensures p <= Escape(t) <==> p <= t
  {
    if p != [] && t != [] {
      PlainPrefixOfEscaped(t[1..], p[1..]);
      var e := EscapeChar(t[0]);
      assert p == [p[0]] + p[1..] && t == [t[0]] + t[1..];
      if |e| == 1 {
        assert Escape(t)[0] == t[0] && Escape(t)[1..] == Escape(t[1..]);
        assert p <= Escape(t) <==> p[0] == t[0] && p[1..] <= Escape(t)[1..];
      } else {
        assert Escape(t)[0] == '\\' && p[0] in p;
      }
    }
  }

  lemma OccursHere(s: string, p: string, i: nat)
    requires i <= |s|
    ensures OccursAt(s, p, i) <==> p <= s[i..]
  {
    if i + |p| <= |s| { assert s[i..][..|p|] == s[i..i + |p|]; }
  }

  /** Escaping neither makes nor breaks a sentinel. */
  lemma {:induction false} EscapeKeepsSentinels(t: string, p: string)
    requires IsSentinel(p)
    ensures Contains(Escape(t), p) <==> Contains(t, p)
  {
    SentinelShape(p);
    if t != [] {
      EscapeKeepsSentinels(t[1..], p);
      PlainPrefixOfEscaped(t, p);
      OccursHere(Escape(t), p, 0);
      OccursHere(t, p, 0);
      TailOccurrences([t[0]], t[1..], p);
      TailOccurrences(EscapeChar(t[0]), Escape(t[1..]), p);
      assert t == [t[0]] + t[1..];
      assert |EscapeChar(t[0])| == 2 ==> EscapeChar(t[0])[1] != '<';
    }
  }

  /** A sentinel in `a + b` begins at 0, inside `b`, or at the second character of `a`. */
  lemma TailOccurrences(a: string, b: string, p: string)
    requires IsSentinel(p) && 1 <= |a| <= 2 && (|a| == 2 ==> a[1] != '<')
    ensures Contains(a + b, p) <==> OccursAt(a + b, p, 0) || Contains(b, p)
  {
    SentinelShape(p);
    var s := a + b;
    assert s[|a|..|s|] == b;
    if Contains(s, p) {
      var i: nat :| OccursAt(s, p, i);
      CharOfOccurrence(s, p, i, 0);
      if i >= |a| { OccurrenceInSlice(s, p, |a|, |s|, i - |a|); }
    }
    if Contains(b, p) {
      var i: nat :| OccursAt(b, p, i);
      OccurrenceInSlice(s, p, |a|, |s|, i);
    }
  }

  lemma ValueSentinels(v: string, p: string)
    requires IsSentinel(p)
    ensures Contains(StringValue(v), p) <==> Contains(v, p)
  {
    SentinelShape(p);
    if Blank(v) {
      assert |v| < |p| && |StringValue(v)| < |p|;
    } else {
      SkipPlainHead("\"", Escape(v) + "\"", p);
      SplitAtBoundary(Escape(v), "\"", p);
      assert !Contains("\"", p);
      EscapeKeepsSentinels(v, p);
    }
  }

  lemma NoSentinelWithoutAngle(s: string, p: string)
    requires IsSentinel(p) && '<' !in s
    ensures !Contains(s, p)
  {
    SentinelShape(p);
    forall i: nat ensures !OccursAt(s, p, i) {
      if OccursAt(s, p, i) { CharOfOccurrence(s, p, i, 0); }
    }
  }

  lemma MemberSentinels(key: string, value: string, rest: string, p: string)
    requires IsSentinel(p) && '<' !in key && rest != [] && Separator(rest[0])
    ensures Contains(Member(key, value) + rest, p) <==> Contains(value, p) || Contains(rest, p)
  {
    var head := "\"" + key + "\":";
    assert Member(key, value) + rest == head + (value + rest);
    SkipPlainHead(head, value + rest, p);
    assert BEGIN[1..] == "MSG_DATA>" && FINISH[1..] == "/MSG_DATA>";
    SplitAtBoundary(value, rest, p);
  }

  /** The body contains an end sentinel exactly when one of its texts does. */
  lemma BodySentinels(status: string, prog: Option<string>, msg: string, modnm: string)
    requires prog.Some? ==> IsFloatText(prog.value)
    ensures Contains(JsonText(status, prog, msg, modnm), FINISH)
            <==> Contains(status, FINISH) || Contains(msg, FINISH) || Contains(modnm, FINISH)
  {
    var m4 := Member("modnm", StringValue(modnm)) + "}";
    var m3 := Member("msg", StringValue(msg)) + ("," + m4);
    var m2 := Member("prog", ProgValue(prog)) + ("," + m3);
    var m1 := Member("status", StringValue(status)) + ("," + m2);
    assert JsonText(status, prog, msg, modnm) == "{" + m1;
    SkipPlainHead("{", m1, FINISH);
    MemberSentinels("status", StringValue(status), "," + m2, FINISH);
    SkipPlainHead(",", m2, FINISH);
    MemberSentinels("prog", ProgValue(prog), "," + m3, FINISH);
    NoSentinelWithoutAngle(ProgValue(prog), FINISH);
    SkipPlainHead(",", m3, FINISH);
    MemberSentinels("msg", StringValue(msg), "," + m4, FINISH);
    SkipPlainHead(",", m4, FINISH);
    MemberSentinels("modnm", StringValue(modnm), "}", FINISH);
    NoSentinelWithoutAngle("}", FINISH);
    ValueSentinels(status, FINISH);
    ValueSentinels(msg, FINISH);
    ValueSentinels(modnm, FINISH);
  }

  lemma {:induction false} EscapedIsOneLine(t: string)
    ensures '\n' !in Escape(t)
  {
    if t != [] { EscapedIsOneLine(t[1..]); }
  }

  lemma BodyIsOneLine(status: string, prog: Option<string>, msg: string, modnm: string)
    requires prog.Some? ==> IsFloatText(prog.value)
    ensures '\n' !in JsonText(status, prog, msg, modnm)
  {
    EscapedIsOneLine(status);
    EscapedIsOneLine(msg);
    EscapedIsOneLine(modnm);
    var m4 := Member("modnm", StringValue(modnm)) + "}";
    var m3 := Member("msg", StringValue(msg)) + ("," + m4);
    var m2 := Member("prog", ProgValue(prog)) + ("," + m3);
    MemberIsOneLine("modnm", StringValue(modnm));
    MemberIsOneLine("msg", StringValue(msg));
    assert '\n' !in m3;
    MemberIsOneLine("prog", ProgValue(prog));
    assert '\n' !in m2;
    MemberIsOneLine("status", StringValue(status));
  }

  lemma MemberIsOneLine(key: string, value: string)
    requires '\n' !in key && '\n' !in value
    ensures '\n' !in Member(key, value)
  {}

  /** No begin sentinel starts in the record's prefix, whatever the module id: the id shows
      at most eight characters and a blank follows them. */
  lemma PrefixIsHarmless(ts: string, id: string, body: string, k: nat)
    requires '<' !in ts && k < |RecordPrefix(ts, id)|
    ensures !OccursAt(Wrap(RecordPrefix(ts, id), body), BEGIN, k)
  {
    var s := Wrap(RecordPrefix(ts, id), body);
    var idEnd := |ts| + 1 + ID_WIDTH;
    SentinelShape(BEGIN);
    assert s[idEnd] == ' ';
    assert k < |ts| ==> s[k] == ts[k];
    assert s[|ts|] == ' ';
    assert k >= idEnd ==> s[k] == " STATUS  "[k - idEnd];
    if OccursAt(s, BEGIN, k) {
      CharOfOccurrence(s, BEGIN, k, 0);
      CharOfOccurrence(s, BEGIN, k, idEnd - k);
    }
  }

  // ---- The round trip --------------------------------------------------------------------

  /** What is to be read for a text: nothing if it is empty or "NULL", and else itself. */
  function TextRead(v: string): Option<string> { if v == "" || v == "NULL" then None else Some(v) }

  function ProgRead(prog: Option<string>, number: NumberReader): Option<real> {
    match prog
    case None => None
    case Some(t) => number(t)
  }

  /** What a caller must check before writing. */
  ghost predicate Readable(status: string, prog: Option<string>, msg: string, modnm: string, number: NumberReader) {
    && status in {"INITIALIZING", "INITIALIZED", "STARTING", "IN_PROGRESS", "COMPLETE", "ERROR"}
    && Clean(msg) && Clean(modnm)
    && !Contains(msg, FINISH) && !Contains(modnm, FINISH)
    && (prog.Some? ==> IsNumberText(prog.value) && number(prog.value).Some?
                       && 0.0 <= number(prog.value).value <= 1.0)
  }

  lemma StatusesAreClean(status: string)
    requires status in STATUSES
    ensures Clean(status) && !Contains(status, FINISH) && status != []
  {
    NoSentinelWithoutAngle(status, FINISH);
  }

  /** No begin sentinel starts in front of the one that opens the body. */
  ghost predicate HarmlessPrefix(prefix: string, body: string) {
    forall k :: 0 <= k < |prefix| ==> !OccursAt(Wrap(prefix, body), BEGIN, k)
  }

  /** The reader's checks on a decoded body. */
  lemma DictAccepted(status: string, prog: Option<string>, msg: string, modnm: string, number: NumberReader)
    requires !Contains(msg, FINISH) && !Contains(modnm, FINISH)
    requires Clean(msg) && Clean(modnm) && (prog.Some? ==> IsNumberText(prog.value))
    ensures PayloadOfDict(FullDict(status, prog, msg, modnm), number) == Expected(status, prog, msg, modnm, number)
  {
    var d := FullDict(status, prog, msg, modnm);
    assert d.Keys == {"status", "prog", "msg", "modnm"};
    assert d["status"] == JsonOf(status) && d["msg"] == JsonOf(msg) && d["modnm"] == JsonOf(modnm);
    assert d["prog"] == JsonOfProg(prog);
    if status in STATUSES { StatusesAreClean(status); }
  }

  /** What the reader is to make of a record: the payload that was written, with blank texts
      as absent, if the fields are readable, and otherwise an exception. */
  ghost function Expected(status: string, prog: Option<string>, msg: string, modnm: string,
                          number: NumberReader): Outcome
  {
    if Readable(status, prog, msg, modnm, number) then
      Read(Payload(status, ProgRead(prog, number), TextRead(msg), TextRead(modnm)))
    else Failed
  }

  /** That is, of readable fields: status and progress as written, and the texts as written
      but for the two that stand for no text. */
  lemma ExpectedIs(status: string, prog: Option<string>, msg: string, modnm: string, number: NumberReader)
    ensures var r := Expected(status, prog, msg, modnm, number);
            if !Readable(status, prog, msg, modnm, number) then r == Failed
            else
              && r.Read? && r.payload.status == status
              && r.payload.prog == (if prog.None? then None else number(prog.value))
              && r.payload.msg == (if msg == "" || msg == "NULL" then None else Some(msg))
              && r.payload.modnm == (if modnm == "" || modnm == "NULL" then None else Some(modnm))
  {}

  /** Whatever harmless text stands in front of it, a record body reads as expected. */
  lemma WrappedRoundTrip(prefix: string, status: string, prog: Option<string>, msg: string, modnm: string,
                         number: NumberReader)
    requires HarmlessPrefix(prefix, JsonText(status, prog, msg, modnm))
    requires prog.Some? ==> IsFloatText(prog.value)
    ensures ReadPayload(Wrap(prefix, JsonText(status, prog, msg, modnm)), number)
            == Expected(status, prog, msg, modnm, number)
  {
    var body := JsonText(status, prog, msg, modnm);
    BodyIsOneLine(status, prog, msg, modnm);
    WrappedBody(prefix, body);
    BodySentinels(status, prog, msg, modnm);
    BodyDecodes(status, prog, msg, modnm);
    if status in STATUSES { StatusesAreClean(status); }
    if Contains(body, FINISH) {
      var first := FindAll(Wrap(prefix, body), 0)[0];
      assert first == body[..|first|];
      CutObjectFails(body, |first|);
    } else if Loads(body).Some? {
      DictAccepted(status, prog, msg, modnm, number);
    }
  }

  /** For every module id, status, progress, message and module name, the reader gets a
      payload out of the writer's record exactly when the fields are readable, and it is
      then the payload that was written, with blank texts as absent. Otherwise the reader
      raises: it never overlooks the record. */
  lemma RecordRoundTripIff(ts: string, id: string, status: string, prog: Option<string>, msg: string,
                           modnm: string, number: NumberReader)
    requires '<' !in ts
    requires prog.Some? ==> IsFloatText(prog.value)
    ensures ReadPayload(Record(ts, id, status, prog, msg, modnm), number) == Expected(status, prog, msg, modnm, number)
    ensures var r := ReadPayload(Record(ts, id, status, prog, msg, modnm), number);
            if !Readable(status, prog, msg, modnm, number) then r == Failed
            else
              && r.Read? && r.payload.status == status
              && r.payload.prog == (if prog.None? then None else number(prog.value))
              && r.payload.msg == (if msg == "" || msg == "NULL" then None else Some(msg))
              && r.payload.modnm == (if modnm == "" || modnm == "NULL" then None else Some(modnm))
  {
    RecordPrefixHarmless(ts, id, JsonText(status, prog, msg, modnm));
    WrappedRoundTrip(RecordPrefix(ts, id), status, prog, msg, modnm, number);
  }

  lemma RecordPrefixHarmless(ts: string, id: string, body: string)
    requires '<' !in ts
    ensures HarmlessPrefix(RecordPrefix(ts, id), body)
  {
    forall k | 0 <= k < |RecordPrefix(ts, id)|
      ensures !OccursAt(Wrap(RecordPrefix(ts, id), body), BEGIN, k)
    {
      PrefixIsHarmless(ts, id, body, k);
    }
  }

  /** A record is one line of the log exactly if the eight characters of the id it shows hold
      no newline. */
  lemma RecordIsOneLineIff(ts: string, id: string, status: string, prog: Option<string>, msg: string, modnm: string)
    requires '\n' !in ts && (prog.Some? ==> IsFloatText(prog.value))
    ensures var r := Record(ts, id, status, prog, msg, modnm);
            r != [] && r[|r| - 1] == '\n' && ('\n' !in r[..|r| - 1] <==> '\n' !in PadEwtsId(id))
  {
    BodyIsOneLine(status, prog, msg, modnm);
    WrapOneLine(RecordPrefix(ts, id), JsonText(status, prog, msg, modnm));
    var tail := PadEwtsId(id) + " STATUS  ";
    OneLineConcat(PadEwtsId(id), " STATUS  ");
    OneLineConcat(" ", tail);
    OneLineConcat(ts, " " + tail);
  }

  lemma WrapOneLine(head: string, body: string)
    requires '\n' !in body
    ensures var r := Wrap(head, body);
            r != [] && r[|r| - 1] == '\n' && ('\n' !in r[..|r| - 1] <==> '\n' !in head)
  {
    var r := Wrap(head, body);
    assert r[..|r| - 1] == head + (BEGIN + (body + FINISH));
    OneLineConcat(body, FINISH);
    OneLineConcat(BEGIN, body + FINISH);
    OneLineConcat(head, BEGIN + (body + FINISH));
  }

  lemma OneLineConcat(a: string, b: string)
    ensures '\n' !in a + b <==> '\n' !in a && '\n' !in b
  {}

  // ---- The writer's own error reports --------------------------------------------------

  lemma PrintableIsClean(s: string)
    requires forall i :: 0 <= i < |s| ==> s[i] >= ' '
    ensures Clean(s)
  {}

  lemma MissingSentinelText(sentinel: string)
    requires IsSentinel(sentinel)
    ensures Contains(MissingSentinel(sentinel), FINISH) <==> sentinel == FINISH
    ensures Clean(MissingSentinel(sentinel)) && !Blank(MissingSentinel(sentinel))
  {
    var head := "Malformed payload: missing sentinel ";
    SkipPlainHead(head, sentinel, FINISH);
    assert OccursAt(FINISH, FINISH, 0);
    assert |BEGIN| < |FINISH|;
    PrintableIsClean(head + sentinel);
  }

  /** The record the writer puts in place of a malformed status message. */
  function ErrorReport(ts: string, id: string, error: string): string {
    Record(ts, id, "ERROR", None, error, "")
  }

  /** A malformed status message is reported readably exactly when it lacks the begin
      sentinel. When the end sentinel is what is missing, the report quotes that sentinel
      unescaped and the reader raises on the writer's own record. */
  lemma ErrorReportReadableIff(ts: string, id: string, message: string, number: NumberReader)
    requires '<' !in ts
    requires ExtractJsonPayload(message).Malformed?
    ensures var error := ExtractJsonPayload(message).error;
            ReadPayload(ErrorReport(ts, id, error), number) ==
              if Contains(message, BEGIN) then Failed
              else Read(Payload("ERROR", None, Some(error), None))
  {
    var error := ExtractJsonPayload(message).error;
    MissingSentinelText(BEGIN);
    MissingSentinelText(FINISH);
    NoSentinelWithoutAngle("", FINISH);
    RecordRoundTripIff(ts, id, "ERROR", None, error, "", number);
    if Contains(message, BEGIN) {
      assert error == MissingSentinel(FINISH);
    } else {
      assert Find(message, BEGIN, 0).None?;
      assert error == MissingSentinel(BEGIN);
    }
  }

  /** For instance, a begin sentinel left open. */
  lemma UnfinishedMessageReport(number: NumberReader)
    ensures ExtractJsonPayload("<MSG_DATA>{}") == Malformed(MissingSentinel(FINISH))
    ensures ReadPayload(ErrorReport("", "NGEN", MissingSentinel(FINISH)), number) == Failed
  {
    var m := "<MSG_DATA>{}";
    assert OccursAt(m, BEGIN, 0);
    SkipPlainHead("", m, FINISH);
    forall i: nat ensures !OccursAt(m, FINISH, i) {
      if OccursAt(m, FINISH, i) { CharOfOccurrence(m, FINISH, i, 1); }
    }
    ErrorReportReadableIff("", "NGEN", m, number);
  }
}
