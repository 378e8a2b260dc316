/** The UTC stamps of the Fortran runtime: fixed-width decimal fields after conversion to
    UTC. Sorting the texts sorts the moments, whatever zones the clocks were in. */
module Timestamps {
  import opened Calendar
  import opened Text

  function Pow10(w: nat): (p: nat)
    ensures p > 0
  {
    if w == 0 then 1 else 10 * Pow10(w - 1)
  }

  /** The w decimal digits of n, zero-padded. */
  function Digits(n: nat, w: nat): (s: string)
    ensures |s| == w
  {
    if w == 0 then [] else Digits(n / 10, w - 1) + [DigitChar(n % 10)]
  }

  function Stars(w: nat): (s: string)
    ensures |s| == w
  {
    seq(w, _ => '*')
  }

  /** Edit descriptor `Iw.w`: exactly w digits, or w asterisks when the value does not fit. */
  function FortranField(n: int, w: nat): (s: string)
    ensures |s| == w
  {
    if 0 <= n < Pow10(w) then Digits(n, w) else Stars(w)
  }

  lemma {:induction false} DigitsOrder(m: nat, n: nat, w: nat)
    requires m < Pow10(w) && n < Pow10(w)
    ensures LexLess(Digits(m, w), Digits(n, w)) <==> m < n
    ensures Digits(m, w) == Digits(n, w) <==> m == n
  {
    if w > 0 {
      DigitsOrder(m / 10, n / 10, w - 1);
      var a, b := [DigitChar(m % 10)], [DigitChar(n % 10)];
      LexLessOfConcat(Digits(m / 10, w - 1), a, Digits(n / 10, w - 1), b);
      assert LexLess(a, b) <==> m % 10 < n % 10;
      assert Digits(m, w) == Digits(n, w)
             <==> Digits(m / 10, w - 1) == Digits(n / 10, w - 1) && a == b by {
        assert Digits(m, w)[..w - 1] == Digits(m / 10, w - 1);
        assert Digits(n, w)[..w - 1] == Digits(n / 10, w - 1);
        assert Digits(m, w)[w - 1..] == a && Digits(n, w)[w - 1..] == b;
      }
    }
  }

  // ---- Stamps as lists of fields ------------------------------------------------------

  /** A numeric field of a given width, the literal text after it, and what follows. */
  datatype Stamp = End | Field(value: int, width: nat, after: string, rest: Stamp)

  function Render(p: Stamp): string {
    match p
    case End => []
    case Field(n, w, after, rest) => FortranField(n, w) + (after + Render(rest))
  }

  function Width(p: Stamp): nat {
    match p
    case End => 0
    case Field(_, w, after, rest) => w + |after| + Width(rest)
  }

  predicate InRange(p: Stamp) {
    p.Field? ==> 0 <= p.value < Pow10(p.width) && InRange(p.rest)
  }

  predicate SameShape(p: Stamp, q: Stamp) {
    if p.Field? && q.Field? then
      p.width == q.width && p.after == q.after && SameShape(p.rest, q.rest)
    else p == q == End
  }

  /** Order of the values, first field first. */
  predicate FieldsLess(p: Stamp, q: Stamp)
    requires SameShape(p, q)
  {
    p.Field? && (p.value < q.value || (p.value == q.value && FieldsLess(p.rest, q.rest)))
  }

  lemma {:induction false} RenderWidth(p: Stamp)
    ensures |Render(p)| == Width(p)
  {
    if p.Field? { RenderWidth(p.rest); }
  }

  /** Texts of one shape compare as the values they show. */
  lemma {:induction false} RenderOrder(p: Stamp, q: Stamp)
    requires SameShape(p, q) && InRange(p) && InRange(q)
    ensures LexLess(Render(p), Render(q)) <==> FieldsLess(p, q)
    ensures Render(p) == Render(q) <==> p == q
  {
    if p.Field? {
      RenderOrder(p.rest, q.rest);
      DigitsOrder(p.value, q.value, p.width);
      var a, b := FortranField(p.value, p.width), FortranField(q.value, q.width);
      var x, y := p.after + Render(p.rest), q.after + Render(q.rest);
      LexLessOfConcat(a, x, b, y);
      LexLessOfConcat(p.after, Render(p.rest), q.after, Render(q.rest));
      Irreflexive(p.after);
      if Render(p) == Render(q) {
        assert a == (a + x)[..p.width] == (b + y)[..p.width] == b;
        assert x == (a + x)[p.width..] == (b + y)[p.width..] == y;
        assert Render(p.rest) == x[|p.after|..] == y[|p.after|..] == Render(q.rest);
      }
    }
  }

  lemma {:induction false} Irreflexive(s: string)
    ensures !LexLess(s, s)
  {
    if s != [] { Irreflexive(s[1..]); }
  }

  // ---- The two stamps -------------------------------------------------------------------

  /** What `date_and_time` reports: a local civil time, its zone, and the running second. */
  datatype Clock = Clock(local: Civil, zone: int, sec: nat, ms: nat)

  /** Seconds go to 60 to admit a leap second. */
  ghost predicate ValidClock(c: Clock) {
    Valid(c.local) && c.sec <= 60 && c.ms < 1000
  }

  function Iso(u: Civil, sec: nat, ms: nat): Stamp {
    Field(u.y, 4, "-", Field(u.mo, 2, "-", Field(u.d, 2, "T", Field(u.h, 2, ":",
      Field(u.mi, 2, ":", Field(sec, 2, ".", Field(ms, 3, "Z", End)))))))
  }

  function Compact(u: Civil, sec: nat): Stamp {
    Field(u.y, 4, "", Field(u.mo, 2, "", Field(u.d, 2, "T", Field(u.h, 2, "",
      Field(u.mi, 2, "", Field(sec, 2, "", End))))))
  }

  ghost function UtcOf(c: Clock): Civil { Utc(c.local, c.zone) }

  method UtcTimestampIsoMs(c: Clock) returns (ts: string)
    requires ValidClock(c)
    ensures ts == Render(Iso(UtcOf(c), c.sec, c.ms))
    ensures |ts| == 24
  {
    var u := AdjustUtc(c.local, c.zone);
    ts := Render(Iso(u, c.sec, c.ms));
    RenderWidth(Iso(u, c.sec, c.ms));
    IsoWidth(u, c.sec, c.ms);
  }

  method UtcTimestampCompact(c: Clock) returns (ts: string)
    requires ValidClock(c)
    ensures ts == Render(Compact(UtcOf(c), c.sec))
    ensures |ts| == 15
  {
    var u := AdjustUtc(c.local, c.zone);
    ts := Render(Compact(u, c.sec));
    RenderWidth(Compact(u, c.sec));
    CompactWidth(u, c.sec);
  }

  lemma IsoWidth(u: Civil, sec: nat, ms: nat)
    ensures Width(Iso(u, sec, ms)) == 24
  {
    var p := Iso(u, sec, ms).rest.rest.rest;
    assert Width(p.rest.rest.rest) == 4;
    assert Width(p.rest) == 10;
    assert Width(Iso(u, sec, ms).rest.rest) == 16;
  }

  lemma CompactWidth(u: Civil, sec: nat)
    ensures Width(Compact(u, sec)) == 15
  {
    var p := Compact(u, sec).rest.rest.rest;
    assert Width(p.rest.rest) == 2;
    assert Width(p) == 6;
    assert Width(Compact(u, sec).rest) == 11;
  }

  /** The moment comes first by UTC minute, then by second, then by millisecond. */
  ghost predicate Earlier(c: Clock, c': Clock) {
    var n, n' := Instant(c.local) - c.zone, Instant(c'.local) - c'.zone;
    n < n' || (n == n' && (c.sec < c'.sec || (c.sec == c'.sec && c.ms < c'.ms)))
  }

  ghost predicate SameMoment(c: Clock, c': Clock) {
    Instant(c.local) - c.zone == Instant(c'.local) - c'.zone && c.sec == c'.sec && c.ms == c'.ms
  }

  ghost predicate FourDigitYear(u: Civil) { 0 <= u.y <= 9999 }

  lemma Pow10Small()
    ensures Pow10(2) == 100 && Pow10(3) == 1000 && Pow10(4) == 10000
  {
    assert Pow10(1) == 10;
    assert Pow10(2) == 100;
    assert Pow10(3) == 1000;
  }

  lemma IsoFields(u: Civil, s: nat, m: nat, u': Civil, s': nat, m': nat)
    ensures SameShape(Iso(u, s, m), Iso(u', s', m'))
    ensures FieldsLess(Iso(u, s, m), Iso(u', s', m'))
            <==> Before(u, u') || (u == u' && (s < s' || (s == s' && m < m')))
    ensures (Valid(u) && FourDigitYear(u) && s < 100 && m < 1000) ==> InRange(Iso(u, s, m))
  {
    Pow10Small();
    var p, q := Iso(u, s, m).rest, Iso(u', s', m').rest;
    var pSec, qSec := p.rest.rest.rest.rest, q.rest.rest.rest.rest;
    assert SameShape(pSec.rest, qSec.rest) && (FieldsLess(pSec.rest, qSec.rest) <==> m < m');
    assert InRange(pSec.rest) <==> m < 1000;
    assert SameShape(p.rest.rest.rest, q.rest.rest.rest);
    assert InRange(p.rest.rest.rest) <==> 0 <= u.mi < 100 && s < 100 && m < 1000;
    assert SameShape(p.rest, q.rest);
    assert InRange(p.rest) <==> 0 <= u.d < 100 && 0 <= u.h < 100 && InRange(p.rest.rest.rest);
    ghost var bySec := s < s' || (s == s' && m < m');
    assert FieldsLess(pSec, qSec) <==> bySec;
    ghost var byMin := u.mi < u'.mi || (u.mi == u'.mi && bySec);
    assert FieldsLess(p.rest.rest.rest, q.rest.rest.rest) <==> byMin;
    ghost var byHour := u.h < u'.h || (u.h == u'.h && byMin);
    assert FieldsLess(p.rest.rest, q.rest.rest) <==> byHour;
    assert FieldsLess(p.rest, q.rest) <==> u.d < u'.d || (u.d == u'.d && byHour);
  }

  /** While UTC years have four digits, ISO texts sort as the moments do, across any mix
      of zones, and equal texts mean equal moments. */
  lemma IsoTextOrder(c: Clock, c': Clock)
    requires ValidClock(c) && ValidClock(c')
    requires FourDigitYear(UtcOf(c)) && FourDigitYear(UtcOf(c'))
    ensures LexLess(Render(Iso(UtcOf(c), c.sec, c.ms)), Render(Iso(UtcOf(c'), c'.sec, c'.ms)))
            <==> Earlier(c, c')
    ensures Render(Iso(UtcOf(c), c.sec, c.ms)) == Render(Iso(UtcOf(c'), c'.sec, c'.ms))
            <==> SameMoment(c, c')
  {
    var u, u' := UtcOf(c), UtcOf(c');
    IsoFields(u, c.sec, c.ms, u', c'.sec, c'.ms);
    IsoFields(u', c'.sec, c'.ms, u, c.sec, c.ms);
    RenderOrder(Iso(u, c.sec, c.ms), Iso(u', c'.sec, c'.ms));
    InstantOrder(u, u');
  }

  lemma CompactFields(u: Civil, s: nat, u': Civil, s': nat)
    ensures SameShape(Compact(u, s), Compact(u', s'))
    ensures FieldsLess(Compact(u, s), Compact(u', s')) <==> Before(u, u') || (u == u' && s < s')
    ensures (Valid(u) && FourDigitYear(u) && s < 100) ==> InRange(Compact(u, s))
  {
    Pow10Small();
    var p, q := Compact(u, s).rest, Compact(u', s').rest;
    var pMin, qMin := p.rest.rest.rest, q.rest.rest.rest;
    assert SameShape(pMin.rest, qMin.rest) && (FieldsLess(pMin.rest, qMin.rest) <==> s < s');
    assert InRange(pMin.rest) <==> s < 100;
    assert SameShape(p.rest.rest, q.rest.rest);
    assert InRange(p.rest.rest) <==> 0 <= u.h < 100 && 0 <= u.mi < 100 && s < 100;
    assert SameShape(p, q);
    ghost var byMin := u.mi < u'.mi || (u.mi == u'.mi && s < s');
    assert FieldsLess(pMin, qMin) <==> byMin;
    ghost var byHour := u.h < u'.h || (u.h == u'.h && byMin);
    assert FieldsLess(p.rest.rest, q.rest.rest) <==> byHour;
    assert FieldsLess(p.rest, q.rest) <==> u.d < u'.d || (u.d == u'.d && byHour);
  }

  /** The file-name stamp likewise, to the second. */
  lemma CompactTextOrder(c: Clock, c': Clock)
    requires ValidClock(c) && ValidClock(c')
    requires FourDigitYear(UtcOf(c)) && FourDigitYear(UtcOf(c'))
    ensures LexLess(Render(Compact(UtcOf(c), c.sec)), Render(Compact(UtcOf(c'), c'.sec)))
            <==> Earlier(c.(ms := 0), c'.(ms := 0))
    ensures Render(Compact(UtcOf(c), c.sec)) == Render(Compact(UtcOf(c'), c'.sec))
            <==> SameMoment(c.(ms := 0), c'.(ms := 0))
  {
    var u, u' := UtcOf(c), UtcOf(c');
    CompactFields(u, c.sec, u', c'.sec);
    CompactFields(u', c'.sec, u, c.sec);
    RenderOrder(Compact(u, c.sec), Compact(u', c'.sec));
    InstantOrder(u, u');
  }

  // ---- Where the stamp stops telling moments apart --------------------------------------

  ghost predicate IsoTextNamesOneMoment(u: Civil, sec: nat, ms: nat) {
    forall u': Civil :: Valid(u') && Render(Iso(u', sec, ms)) == Render(Iso(u, sec, ms)) ==> u' == u
  }

  lemma YearColumn(p: Stamp)
    requires p.Field? && p.width == 4
    ensures |Render(p)| >= 4 && Render(p)[..4] == FortranField(p.value, 4)
  {
    assert Render(p)[..4] == FortranField(p.value, 4);
  }

  lemma {:induction false} DigitsAreNoStars(n: nat, w: nat)
    ensures '*' !in Digits(n, w)
  {
    if w > 0 { DigitsAreNoStars(n / 10, w - 1); }
  }

  lemma StarsAreStars(w: nat)
    ensures w > 0 ==> '*' in Stars(w)
  {
    if w > 0 { assert Stars(w)[0] == '*'; }
  }

  /** A leap year and the year 400 later or earlier have the same months. */
  lemma LeapPeriod(y: int)
    ensures IsLeap(y) <==> IsLeap(y + 400)
  {}

  /** The ISO text of a UTC time determines it exactly when its year has four digits: any
      other year prints as asterisks, and so does the same date 400 years further out. */
  lemma IsoTextNamesOneMomentIff(u: Civil, sec: nat, ms: nat)
    requires Valid(u) && sec <= 60 && ms < 1000
    ensures IsoTextNamesOneMoment(u, sec, ms) <==> FourDigitYear(u)
  {
    Pow10Small();
    if FourDigitYear(u) {
      forall u': Civil | Valid(u') && Render(Iso(u', sec, ms)) == Render(Iso(u, sec, ms))
        ensures u' == u
      {
        if FourDigitYear(u') {
          IsoFields(u, sec, ms, u', sec, ms);
          IsoFields(u', sec, ms, u, sec, ms);
          RenderOrder(Iso(u, sec, ms), Iso(u', sec, ms));
        } else {
          YearColumn(Iso(u, sec, ms));
          YearColumn(Iso(u', sec, ms));
          DigitsAreNoStars(u.y, 4);
          StarsAreStars(4);
          assert false;
        }
      }
    } else {
      var far := u.(y := if u.y < 0 then u.y - 400 else u.y + 400);
      LeapPeriod(if u.y < 0 then u.y - 400 else u.y);
      assert Valid(far);
      assert Render(Iso(far, sec, ms)) == Render(Iso(u, sec, ms));
    }
  }

  /** For instance, the first minute of the year 10000 and that of the year 10400. */
  lemma SameStampFarApart()
    ensures var u, v := Civil(10000, 1, 1, 0, 0), Civil(10400, 1, 1, 0, 0);
            Valid(u) && Valid(v) && Render(Iso(u, 0, 0)) == Render(Iso(v, 0, 0)) && Instant(u) < Instant(v)
  {
    Pow10Small();
    InstantOrder(Civil(10000, 1, 1, 0, 0), Civil(10400, 1, 1, 0, 0));
  }

  // ---- How the stamps look ----------------------------------------------------------------

  /** Digits read back as the number they print. */
  lemma {:induction false} DigitsRead(n: nat, w: nat)
    requires n < Pow10(w)
    ensures AllDigits(Digits(n, w)) && NumberOf(Digits(n, w)) == n
  {
    if w == 0 {
    } else {
      DigitsRead(n / 10, w - 1);
      assert Digits(n, w)[..w - 1] == Digits(n / 10, w - 1);
    }
  }

  /** The ISO stamp column by column. */
  lemma IsoColumns(u: Civil, sec: nat, ms: nat)
    ensures Render(Iso(u, sec, ms))
            == FortranField(u.y, 4) + "-" + FortranField(u.mo, 2) + "-" + FortranField(u.d, 2) + "T"
               + FortranField(u.h, 2) + ":" + FortranField(u.mi, 2) + ":" + FortranField(sec, 2) + "."
               + FortranField(ms, 3) + "Z"
  {
    var p := Iso(u, sec, ms).rest.rest.rest;
    RenderOne(FortranField(ms, 3), "Z");
    assert Render(p.rest.rest.rest) == FortranField(ms, 3) + "Z";
    assert Render(p.rest.rest) == FortranField(sec, 2) + ("." + (FortranField(ms, 3) + "Z"));
    assert Render(p) == FortranField(u.h, 2) + (":" + (FortranField(u.mi, 2) + (":" + Render(p.rest.rest))));
    assert Render(Iso(u, sec, ms).rest.rest) == FortranField(u.d, 2) + ("T" + Render(p));
    assert Render(Iso(u, sec, ms).rest) == FortranField(u.mo, 2) + ("-" + Render(Iso(u, sec, ms).rest.rest));
  }

  lemma RenderOne(a: string, after: string)
    ensures a + (after + []) == a + after
  {}

  /** The file-name stamp column by column. */
  lemma CompactColumns(u: Civil, sec: nat)
    ensures Render(Compact(u, sec))
            == FortranField(u.y, 4) + FortranField(u.mo, 2) + FortranField(u.d, 2) + "T"
               + FortranField(u.h, 2) + FortranField(u.mi, 2) + FortranField(sec, 2)
  {
    var p := Compact(u, sec).rest.rest.rest;
    assert Render(p.rest.rest) == FortranField(sec, 2);
    assert Render(p) == FortranField(u.h, 2) + (FortranField(u.mi, 2) + FortranField(sec, 2));
    assert Render(Compact(u, sec).rest.rest) == FortranField(u.d, 2) + ("T" + Render(p));
  }

  /** A field is its number in exactly that many digits, or all asterisks. */
  lemma FieldIs(n: int, w: nat)
    ensures |FortranField(n, w)| == w
    ensures 0 <= n < Pow10(w) ==> AllDigits(FortranField(n, w)) && NumberOf(FortranField(n, w)) == n
    ensures !(0 <= n < Pow10(w)) ==> forall i :: 0 <= i < w ==> FortranField(n, w)[i] == '*'
    ensures Pow10(2) == 100 && Pow10(3) == 1000 && Pow10(4) == 10000
  {
    Pow10Small();
    if 0 <= n < Pow10(w) { DigitsRead(n, w); }
  }
}
