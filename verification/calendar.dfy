/** Local wall-clock time to UTC, as the Fortran runtime computes it: one day at a time,
    with carries across months and years. The loops are proved against a closed-form
    count of the days of the proleptic Gregorian calendar. */
module Calendar {

  /** A date and a time of day, to the minute. Nothing here says the fields are in range. */
  datatype Civil = Civil(y: int, mo: int, d: int, h: int, mi: int)

  /** Fortran's `mod`: the remainder takes the sign of the dividend. */
  function FortranMod(a: int, p: int): (r: int)
    requires p > 0
    ensures r == 0 <==> a % p == 0
    ensures a >= 0 ==> r == a % p
  {
    NegatedMultiple(a, p);
    if a >= 0 then a % p else -((-a) % p)
  }

  lemma NegatedMultiple(a: int, p: int)
    requires p > 0
    ensures (-a) % p == 0 <==> a % p == 0
  {
    if a % p == 0 { QuotientIs(-a, p, -(a / p), 0); }
    if (-a) % p == 0 { QuotientIs(a, p, -((-a) / p), 0); }
  }

  predicate IsLeap(y: int) {
    FortranMod(y, 4) == 0 && (FortranMod(y, 100) != 0 || FortranMod(y, 400) == 0)
  }

  function DaysInMonth(y: int, mo: int): int {
    if mo in {1, 3, 5, 7, 8, 10, 12} then 31
    else if mo in {4, 6, 9, 11} then 30
    else if mo == 2 then (if IsLeap(y) then 29 else 28)
    else 30
  }

  ghost predicate ValidDate(y: int, mo: int, d: int) {
    1 <= mo <= 12 && 1 <= d <= DaysInMonth(y, mo)
  }

  ghost predicate Valid(t: Civil) {
    ValidDate(t.y, t.mo, t.d) && 0 <= t.h < 24 && 0 <= t.mi < 60
  }

  // ---- The reference: a day count that knows nothing of the loops -------------------

  /** Days before 1 January of year y, with day 1 being 1 January of year 1. */
  ghost function YearStart(y: int): int {
    365 * (y - 1) + (y - 1) / 4 - (y - 1) / 100 + (y - 1) / 400
  }

  /** Days before month mo within its year. */
  ghost function MonthStart(y: int, mo: int): int {
    (367 * mo - 362) / 12 - (if mo <= 2 then 0 else if IsLeap(y) then 1 else 2)
  }

  ghost function DayNumber(y: int, mo: int, d: int): int {
    YearStart(y) + MonthStart(y, mo) + d
  }

  /** Minutes since the start of day 0: the point in time a civil time denotes. */
  ghost function Instant(t: Civil): int {
    1440 * DayNumber(t.y, t.mo, t.d) + 60 * t.h + t.mi
  }

  lemma DivStep(y: int, k: int)
    requires k > 0
    ensures y / k == (y - 1) / k + (if y % k == 0 then 1 else 0)
  {
    var q, r := y / k, y % k;
    if r == 0 {
      assert y - 1 == k * (q - 1) + (k - 1);
      QuotientIs(y - 1, k, q - 1, k - 1);
    } else {
      assert y - 1 == k * q + (r - 1);
      QuotientIs(y - 1, k, q, r - 1);
    }
  }

  lemma WholeMultiples(k: int, z: int)
    requires k > 0
    ensures z >= 1 ==> k * z >= k
    ensures z <= -1 ==> k * z <= -k
  {}

  lemma QuotientIs(n: int, k: int, q: int, r: int)
    requires 0 <= r < k && n == k * q + r
    ensures n / k == q
  {
    var q' := n / k;
    assert k * q' <= n < k * q' + k;
    assert -k < k * (q - q') < k;
    WholeMultiples(k, q - q');
  }

  /** The closed form gives a year 366 days exactly when the program calls it leap. */
  lemma YearLength(y: int)
    ensures YearStart(y + 1) == YearStart(y) + (if IsLeap(y) then 366 else 365)
  {
    DivStep(y, 4);
    DivStep(y, 100);
    DivStep(y, 400);
  }

  /** Twelve months of the program's lengths tile the year of the closed form. */
  lemma MonthLength(y: int, mo: int)
    requires 1 <= mo <= 12
    ensures MonthStart(y, mo) + DaysInMonth(y, mo)
            == if mo < 12 then MonthStart(y, mo + 1) else YearStart(y + 1) - YearStart(y)
    ensures 0 <= MonthStart(y, mo)
  {
    YearLength(y);
  }

  // ---- The day count orders dates ---------------------------------------------------

  ghost predicate DateBefore(y: int, mo: int, d: int, y': int, mo': int, d': int) {
    y < y' || (y == y' && (mo < mo' || (mo == mo' && d < d')))
  }

  lemma {:induction false} YearsApart(y: int, n: nat)
    ensures YearStart(y) + 365 * n <= YearStart(y + n)
  {
    if n > 0 {
      YearsApart(y, n - 1);
      YearLength(y + n - 1);
    }
  }

  lemma {:induction false} MonthsApart(y: int, mo: int, mo': int)
    requires 1 <= mo < mo' <= 12
    ensures MonthStart(y, mo) + DaysInMonth(y, mo) <= MonthStart(y, mo')
    decreases mo' - mo
  {
    MonthLength(y, mo);
    if mo + 1 < mo' {
      MonthsApart(y, mo + 1, mo');
      MonthLength(y, mo + 1);
    }
  }

  lemma WithinYear(y: int, mo: int, d: int)
    requires ValidDate(y, mo, d)
    ensures YearStart(y) < DayNumber(y, mo, d) <= YearStart(y + 1)
  {
    MonthLength(y, mo);
    if mo < 12 {
      MonthsApart(y, mo, 12);
      MonthLength(y, 12);
    }
  }

  /** Among valid dates an earlier date has a smaller day number. */
  lemma DayNumberMonotone(y: int, mo: int, d: int, y': int, mo': int, d': int)
    requires ValidDate(y, mo, d) && ValidDate(y', mo', d')
    requires DateBefore(y, mo, d, y', mo', d')
    ensures DayNumber(y, mo, d) < DayNumber(y', mo', d')
  {
    if y < y' {
      WithinYear(y, mo, d);
      WithinYear(y', mo', d');
      YearsApart(y + 1, y' - y - 1);
    } else if mo < mo' {
      MonthsApart(y, mo, mo');
    }
  }

  /** Hence a day number names at most one valid date. */
  lemma DayNumberInjective(y: int, mo: int, d: int, y': int, mo': int, d': int)
    requires ValidDate(y, mo, d) && ValidDate(y', mo', d')
    requires DayNumber(y, mo, d) == DayNumber(y', mo', d')
    ensures y == y' && mo == mo' && d == d'
  {
    if DateBefore(y, mo, d, y', mo', d') {
      DayNumberMonotone(y, mo, d, y', mo', d');
    } else if DateBefore(y', mo', d', y, mo, d) {
      DayNumberMonotone(y', mo', d', y, mo, d);
    }
  }

  /** Field-by-field order of civil times. */
  ghost predicate Before(a: Civil, b: Civil) {
    DateBefore(a.y, a.mo, a.d, b.y, b.mo, b.d)
    || (a.y == b.y && a.mo == b.mo && a.d == b.d && (a.h < b.h || (a.h == b.h && a.mi < b.mi)))
  }

  /** On valid civil times the field order is the order of the instants, and an instant
      names at most one of them. */
  lemma InstantOrder(a: Civil, b: Civil)
    requires Valid(a) && Valid(b)
    ensures Before(a, b) <==> Instant(a) < Instant(b)
    ensures a == b <==> Instant(a) == Instant(b)
  {
    if DateBefore(a.y, a.mo, a.d, b.y, b.mo, b.d) {
      DayNumberMonotone(a.y, a.mo, a.d, b.y, b.mo, b.d);
    } else if DateBefore(b.y, b.mo, b.d, a.y, a.mo, a.d) {
      DayNumberMonotone(b.y, b.mo, b.d, a.y, a.mo, a.d);
    }
  }

  // ---- The program's day steps ------------------------------------------------------

  method IncDay(y0: int, mo0: int, d0: int) returns (y: int, mo: int, d: int)
    ensures ValidDate(y0, mo0, d0) ==>
              ValidDate(y, mo, d) && DayNumber(y, mo, d) == DayNumber(y0, mo0, d0) + 1
  {
    y, mo, d := y0, mo0, d0;
    var dim := DaysInMonth(y, mo);
    d := d + 1;
    if d > dim {
      d := 1;
      mo := mo + 1;
      if mo > 12 {
        mo := 1;
        y := y + 1;
      }
    }
    if 1 <= mo0 <= 12 { MonthLength(y0, mo0); }
  }

  method DecDay(y0: int, mo0: int, d0: int) returns (y: int, mo: int, d: int)
    ensures ValidDate(y0, mo0, d0) ==>
              ValidDate(y, mo, d) && DayNumber(y, mo, d) == DayNumber(y0, mo0, d0) - 1
  {
    y, mo, d := y0, mo0, d0;
    if d > 1 {
      d := d - 1;
    } else {
      mo := mo - 1;
      if mo < 1 {
        mo := 12;
        y := y - 1;
      }
      d := DaysInMonth(y, mo);
    }
    if 1 <= mo <= 12 { MonthLength(y, mo); }
  }

  /** The two day steps undo each other, in either order. */
  method DayStepsCancel(y: int, mo: int, d: int) returns (there: Civil, back: Civil)
    requires ValidDate(y, mo, d)
    ensures there == Civil(y, mo, d, 0, 0) && back == Civil(y, mo, d, 0, 0)
  {
    var y1, mo1, d1 := IncDay(y, mo, d);
    var y2, mo2, d2 := DecDay(y1, mo1, d1);
    DayNumberInjective(y, mo, d, y2, mo2, d2);
    var y3, mo3, d3 := DecDay(y, mo, d);
    var y4, mo4, d4 := IncDay(y3, mo3, d3);
    DayNumberInjective(y, mo, d, y4, mo4, d4);
    there, back := Civil(y2, mo2, d2, 0, 0), Civil(y4, mo4, d4, 0, 0);
  }

  // ---- The conversion ---------------------------------------------------------------

  /** Local time to UTC for a zone `zone` minutes east of Greenwich, for every zone and for
      every hour and minute field, in range or not. */
  method AdjustUtc(t: Civil, zone: int) returns (u: Civil)
    ensures 0 <= u.h < 24 && 0 <= u.mi < 60
    ensures ValidDate(t.y, t.mo, t.d) ==> Valid(u) && Instant(u) == Instant(t) - zone
    ensures ValidDate(t.y, t.mo, t.d) ==> u == Utc(t, zone)
  {
    var y, mo, d := t.y, t.mo, t.d;
    var total := t.h * 60 + t.mi - zone;
    ghost var valid := ValidDate(t.y, t.mo, t.d);
    while total < 0
      invariant valid ==> ValidDate(y, mo, d)
      invariant valid ==> 1440 * DayNumber(y, mo, d) + total == Instant(t) - zone
      decreases -total
    {
      total := total + 1440;
      y, mo, d := DecDay(y, mo, d);
    }
    while total >= 1440
      invariant 0 <= total
      invariant valid ==> ValidDate(y, mo, d)
      invariant valid ==> 1440 * DayNumber(y, mo, d) + total == Instant(t) - zone
    {
      total := total - 1440;
      y, mo, d := IncDay(y, mo, d);
    }
    u := Civil(y, mo, d, total / 60, FortranMod(total, 60));
    if valid { UtcUnique(t, zone, u); }
  }

  /** Adjusting twice is adjusting once by the sum, and adjusting back restores the time. */
  method AdjustTwice(t: Civil, z1: int, z2: int) returns (twice: Civil, once: Civil, back: Civil)
    requires Valid(t)
    ensures twice == once && back == t
  {
    var u := AdjustUtc(t, z1);
    twice := AdjustUtc(u, z2);
    once := AdjustUtc(t, z1 + z2);
    assert twice == once by { OffsetsCompose(t, z1, z2); }
    back := AdjustUtc(u, -z1);
    assert back == t by { OffsetsCompose(t, z1, z2); }
  }

  /** Every day number is the number of a valid date. */
  lemma {:induction false} DateExists(n: int) returns (y: int, mo: int, d: int)
    ensures ValidDate(y, mo, d) && DayNumber(y, mo, d) == n
    decreases if n >= 1 then n - 1 else 1 - n
  {
    if n == 1 {
      y, mo, d := 1, 1, 1;
    } else if n > 1 {
      y, mo, d := DateExists(n - 1);
      MonthLength(y, mo);
      if d < DaysInMonth(y, mo) { d := d + 1; }
      else if mo < 12 { mo, d := mo + 1, 1; }
      else { y, mo, d := y + 1, 1, 1; }
    } else {
      y, mo, d := DateExists(n + 1);
      if d > 1 { d := d - 1; }
      else {
        if mo > 1 { mo := mo - 1; } else { y, mo := y - 1, 12; }
        MonthLength(y, mo);
        d := DaysInMonth(y, mo);
      }
    }
  }

  lemma CivilExists(n: int) returns (t: Civil)
    ensures Valid(t) && Instant(t) == n
  {
    var y, mo, d := DateExists(n / 1440);
    var m := n % 1440;
    t := Civil(y, mo, d, m / 60, m % 60);
  }

  /** The one valid civil time at an instant. */
  ghost function At(n: int): (t: Civil)
    ensures Valid(t) && Instant(t) == n
  {
    assert exists t :: Valid(t) && Instant(t) == n by { var t := CivilExists(n); }
    var t :| Valid(t) && Instant(t) == n;
    t
  }

  /** UTC of a local time: what AdjustUtc is for. */
  ghost function Utc(t: Civil, zone: int): (u: Civil)
    ensures Valid(u) && Instant(u) == Instant(t) - zone
  {
    At(Instant(t) - zone)
  }

  /** Being a valid time at the right instant leaves no other answer than Utc. */
  lemma UtcUnique(t: Civil, zone: int, u: Civil)
    requires Valid(u) && Instant(u) == Instant(t) - zone
    ensures u == Utc(t, zone)
  {
    InstantOrder(u, Utc(t, zone));
  }

  /** Offsets compose, and shifting by an offset and back restores the time. */
  lemma OffsetsCompose(t: Civil, z1: int, z2: int)
    requires Valid(t)
    ensures Utc(Utc(t, z1), z2) == Utc(t, z1 + z2)
    ensures Utc(Utc(t, z1), -z1) == t
    ensures Utc(t, 0) == t
  {
    ShiftsAdd(t, z1, z2);
    ShiftsAdd(t, z1, -z1);
    UtcUnique(t, 0, t);
  }

  lemma ShiftsAdd(t: Civil, z1: int, z2: int)
    ensures Utc(Utc(t, z1), z2) == Utc(t, z1 + z2)
  {
    UtcUnique(t, z1 + z2, Utc(Utc(t, z1), z2));
  }

  /** Centuries are leap years only every 400 years. */
  lemma KnownLeapYears()
    ensures IsLeap(2000) && IsLeap(2024) && !IsLeap(1900) && !IsLeap(2023)
  {
    assert 2000 % 4 == 0 && 2000 % 400 == 0 && 2024 % 4 == 0 && 2024 % 100 == 24;
    assert 1900 % 100 == 0 && 1900 % 400 == 300 && 2023 % 4 == 3;
  }

  lemma YearStartIs(y: int, a: int, ra: int, b: int, rb: int, c: int, rc: int)
    requires 0 <= ra < 4 && y - 1 == 4 * a + ra
    requires 0 <= rb < 100 && y - 1 == 100 * b + rb
    requires 0 <= rc < 400 && y - 1 == 400 * c + rc
    ensures YearStart(y) == 365 * (y - 1) + a - b + c
  {
    QuotientIs(y - 1, 4, a, ra);
    QuotientIs(y - 1, 100, b, rb);
    QuotientIs(y - 1, 400, c, rc);
  }

  lemma NewYear(y: int)
    ensures DayNumber(y, 1, 1) == YearStart(y) + 1
  {
    QuotientIs(5, 12, 0, 5);
  }

  /** The closed form on known days: day 1 is 1 January of year 1, and 1 January 1970 is 719162
      days later. */
  lemma KnownDays()
    ensures DayNumber(1, 1, 1) == 1 && DayNumber(1970, 1, 1) == 719163
  {
    YearStartIs(1, 0, 0, 0, 0, 0, 0);
    NewYear(1);
    YearStartIs(1970, 492, 1, 19, 69, 4, 369);
    NewYear(1970);
  }
}
