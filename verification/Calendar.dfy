/**
  The closed-form Gregorian day count used for credential expiry, its inverse
  used for request signing, and counting days one at a time. Years are any
  integer; Rust's division truncates toward zero.
 */
module Calendar {
  import opened Cache

  datatype Date = Date(year: int, month: int, day: int)

  /** Rust's `/` on signed integers. */
  function TruncDiv(a: int, b: int): int
    requires b > 0
  {
    if a >= 0 then a / b else -((-a) / b)
  }

  function DaysFromCivil(date: Date): int
  {
    var year := if date.month <= 2 then date.year - 1 else date.year;
    var era := TruncDiv(if year >= 0 then year else year - 399, 400);
    var yearOfEra := year - era * 400;
    var shiftedMonth := if date.month > 2 then date.month - 3 else date.month + 9;
    var dayOfYear := TruncDiv(153 * shiftedMonth + 2, 5) + date.day - 1;
    var dayOfEra := yearOfEra * 365 + TruncDiv(yearOfEra, 4) - TruncDiv(yearOfEra, 100) + dayOfYear;
    era * 146_097 + dayOfEra - 719_468
  }

  function CivilFromDays(days: int): Date
  {
    var dayOfEra := days + 719_468 - EraOfDay(days) * 146_097;
    CivilInEra(EraOfDay(days), dayOfEra, EraYear(dayOfEra))
  }

  function EraOfDay(days: int): int
  {
    var z := days + 719_468;
    TruncDiv(if z >= 0 then z else z - 146_096, 146_097)
  }

  /** The year of the era a day of the era falls in. */
  function EraYear(dayOfEra: int): int
  {
    TruncDiv(dayOfEra - TruncDiv(dayOfEra, 1_460) + TruncDiv(dayOfEra, 36_524) - TruncDiv(dayOfEra, 146_096), 365)
  }

  function CivilInEra(era: int, dayOfEra: int, yearOfEra: int): Date
  {
    var year := yearOfEra + era * 400;
    var dayOfYear := dayOfEra - (365 * yearOfEra + TruncDiv(yearOfEra, 4) - TruncDiv(yearOfEra, 100));
    var shiftedMonth := TruncDiv(5 * dayOfYear + 2, 153);
    var day := dayOfYear - TruncDiv(153 * shiftedMonth + 2, 5) + 1;
    var month := if shiftedMonth < 10 then shiftedMonth + 3 else shiftedMonth - 9;
    Date(if month <= 2 then year + 1 else year, month, day)
  }

  // The calendar itself: the leap rule of Appendix C of RFC 3339

  predicate Leap(year: int) { year % 4 == 0 && (year % 100 != 0 || year % 400 == 0) }

  function MonthLength(year: int, month: int): int
  {
    if month == 2 then (if Leap(year) then 29 else 28)
    else if month == 4 || month == 6 || month == 9 || month == 11 then 30 else 31
  }

  predicate Valid(d: Date) { 1 <= d.month <= 12 && 1 <= d.day <= MonthLength(d.year, d.month) }

  function NextDay(d: Date): (r: Date)
    requires Valid(d)
    ensures Valid(r)
  {
    if d.day < MonthLength(d.year, d.month) then Date(d.year, d.month, d.day + 1)
    else if d.month < 12 then Date(d.year, d.month + 1, 1)
    else Date(d.year + 1, 1, 1)
  }

  predicate Before(a: Date, b: Date)
  {
    a.year < b.year || (a.year == b.year && (a.month < b.month || (a.month == b.month && a.day < b.day)))
  }

  const EPOCH := Date(1970, 1, 1)

  // The March-based year: eras of 400 years, and days counted from the start of one

  /** Days before March-based year `y` of an era. */
  function YearStart(y: int): int { 365 * y + y / 4 - y / 100 }

  lemma EraIsFloor(n: int)
    ensures TruncDiv(if n >= 0 then n else n - 399, 400) == n / 400
    ensures TruncDiv(if n >= 0 then n else n - 146_096, 146_097) == n / 146_097
  {
  }

  /** The closed form in floor division: era, year of era, shifted month. */
  lemma ClosedForm(d: Date)
    requires 1 <= d.month <= 12
    ensures DaysFromCivil(d) == MarchStart(MarchYear(d)) + MonthStart(MarchMonth(d)) + d.day - 1 - 719_468
  {
    EraIsFloor(MarchYear(d));
  }

  /** The March-based year and month of a date. */
  function MarchYear(d: Date): int { if d.month <= 2 then d.year - 1 else d.year }

  function MarchMonth(d: Date): int { if d.month > 2 then d.month - 3 else d.month + 9 }

  /** Days before a March-based month. */
  function MonthStart(m: int): int { (153 * m + 2) / 5 }

  /** Days before March-based year `y`. */
  function MarchStart(y: int): int { (y / 400) * 146_097 + YearStart(y % 400) }

  lemma StepDiv(y: int, k: int)
    requires k == 4 || k == 100 || k == 400
    ensures (y + 1) / k == y / k + (if (y + 1) % k == 0 then 1 else 0)
    ensures (y % 400) / 4 == y / 4 - 100 * (y / 400) && (y % 400) / 100 == y / 100 - 4 * (y / 400)
  {
  }

  /** Eras drop out: whole centuries and quadricentennials correct a four-year cycle. */
  lemma MarchStartUnfolded(y: int)
    ensures MarchStart(y) == 365 * y + y / 4 - y / 100 + y / 400
  {
    StepDiv(y, 4);
  }

  /** A March-based year lasts 366 days exactly when the civil year it ends in is a leap year. */
  lemma YearLength(y: int)
    ensures MarchStart(y + 1) == MarchStart(y) + 365 + (if Leap(y + 1) then 1 else 0)
  {
    MarchStartUnfolded(y);
    MarchStartUnfolded(y + 1);
    StepDiv(y, 4);
    StepDiv(y, 100);
    StepDiv(y, 400);
    LeapCorrection(y + 1);
  }

  lemma LeapCorrection(y: int)
    ensures (if y % 4 == 0 then 1 else 0) - (if y % 100 == 0 then 1 else 0) + (if y % 400 == 0 then 1 else 0)
            == if Leap(y) then 1 else 0
  {
  }

  /** Days before a date, counted in March-based years and months. */
  function MarchDays(d: Date): int { MarchStart(MarchYear(d)) + MonthStart(MarchMonth(d)) + d.day }

  lemma MonthStarts()
    ensures MonthStart(0) == 0 && MonthStart(1) == 31 && MonthStart(2) == 61 && MonthStart(3) == 92
    ensures MonthStart(4) == 122 && MonthStart(5) == 153 && MonthStart(6) == 184 && MonthStart(7) == 214
    ensures MonthStart(8) == 245 && MonthStart(9) == 275 && MonthStart(10) == 306 && MonthStart(11) == 337
  {
  }

  lemma NextMarchDay(d: Date)
    requires Valid(d)
    ensures MarchDays(NextDay(d)) == MarchDays(d) + 1
  {
    if d.day == MonthLength(d.year, d.month) {
      MonthStarts();
      if d.month == 2 {
        YearLength(d.year - 1);
      }
    }
  }

  /** The day after any valid date, in any year, is one more. */
  lemma NextDayAddsOne(d: Date)
    requires Valid(d)
    ensures DaysFromCivil(NextDay(d)) == DaysFromCivil(d) + 1
  {
    ClosedForm(d);
    ClosedForm(NextDay(d));
    NextMarchDay(d);
  }

  /** Counting days one at a time. */
  function DaysAfter(d: Date, n: nat): (r: Date)
    requires Valid(d)
    ensures Valid(r)
  {
    if n == 0 then d else NextDay(DaysAfter(d, n - 1))
  }

  /** The closed form counts days: `n` days after any date is `n` more. */
  lemma {:induction false} CountsDays(d: Date, n: nat)
    requires Valid(d)
    ensures DaysFromCivil(DaysAfter(d, n)) == DaysFromCivil(d) + n
  {
    if n > 0 {
      CountsDays(d, n - 1);
      NextDayAddsOne(DaysAfter(d, n - 1));
    }
  }

  lemma EpochIsZero()
    ensures DaysFromCivil(EPOCH) == 0
  {
  }

  lemma WithinMarchYear(d: Date)
    requires Valid(d)
    ensures MarchStart(MarchYear(d)) < MarchDays(d) <= MarchStart(MarchYear(d) + 1)
  {
    MonthStarts();
    YearLength(MarchYear(d));
  }

  lemma {:induction false} YearsAscend(a: int, b: int)
    requires a <= b
    ensures MarchStart(a) <= MarchStart(b)
    decreases b - a
  {
    if a < b {
      YearsAscend(a, b - 1);
      YearLength(b - 1);
    }
  }

  /** Later dates have larger day numbers. */
  lemma StrictlyMonotone(a: Date, b: Date)
    requires Valid(a) && Valid(b) && Before(a, b)
    ensures DaysFromCivil(a) < DaysFromCivil(b)
  {
    ClosedForm(a);
    ClosedForm(b);
    MarchMonotone(a, b);
  }

  lemma MarchMonotone(a: Date, b: Date)
    requires Valid(a) && Valid(b) && Before(a, b)
    ensures MarchDays(a) < MarchDays(b)
  {
    if MarchYear(a) < MarchYear(b) {
      WithinMarchYear(a);
      WithinMarchYear(b);
      YearsAscend(MarchYear(a) + 1, MarchYear(b));
    } else {
      MonthStarts();
    }
  }

  // The inverse

  lemma Centuries(c: int, rest: int)
    requires 0 <= c < 4 && 0 <= rest <= 36_524 && (rest == 36_524 ==> c == 3)
    ensures var doe := 36_524 * c + rest;
            doe / 36_524 - doe / 146_096 == c
  {
  }

  lemma Cycles(n: int, x: int)
    requires 0 <= x < 2_920
    ensures (1_460 * n + x) / 1_460 == n + (if x >= 1_460 then 1 else 0)
  {
  }

  /** The inverse's year-of-era formula, on every day of every year of an era. */
  lemma YearOfEra(c: int, q: int, r: int, doy: int)
    requires 0 <= c < 4 && 0 <= q < 25 && 0 <= r < 4 && 0 <= doy <= 365
    requires doy == 365 ==> r == 3 && (q == 24 ==> c == 3)
    ensures var y := 100 * c + 4 * q + r;
            var doe := YearStart(y) + doy;
            0 <= doe <= 146_096 && EraYear(doe) == y
  {
    var y := 100 * c + 4 * q + r;
    YearStartSplit(c, q, r);
    var rest := 1_461 * q + 365 * r + doy;
    Centuries(c, rest);
    var x := 24 * c + q + 365 * r + doy;
    Cycles(25 * c + q, x);
    assert 36_524 * c + rest == 1_460 * (25 * c + q) + x;
  }

  lemma YearStartSplit(c: int, q: int, r: int)
    requires 0 <= q < 25 && 0 <= r < 4
    ensures YearStart(100 * c + 4 * q + r) == 36_524 * c + 1_461 * q + 365 * r
  {
  }

  lemma MonthOfYear(m: int, day: int)
    requires 0 <= m <= 11 && 0 <= day && MonthStart(m) + day < (if m == 11 then 366 else MonthStart(m + 1))
    ensures (5 * (MonthStart(m) + day) + 2) / 153 == m
  {
    MonthStarts();
  }

  /** The year formula finds year of era `y` on its day `doy`. */
  predicate YearFound(y: int, doy: int)
  {
    var doe := YearStart(y) + doy;
    0 <= y < 400 && 0 <= doy <= 365 && 0 <= doe <= 146_096 && EraYear(doe) == y
  }

  /** The civil date of a day of a March-based year. */
  function DateAt(y: int, doy: int): Date
  {
    var m := (5 * doy + 2) / 153;
    var month := if m < 10 then m + 3 else m - 9;
    Date(if month <= 2 then y + 1 else y, month, doy - MonthStart(m) + 1)
  }

  /** `CivilFromDays` in floor division, once the era and the year of era are known. */
  lemma InverseUnfolded(days: int, era: int, y: int, doy: int)
    requires YearFound(y, doy) && days + 719_468 == era * 146_097 + YearStart(y) + doy
    ensures CivilFromDays(days) == DateAt(y + era * 400, doy)
  {
    EraOf(days, era, YearStart(y) + doy);
    InEraUnfolded(era, y, doy);
  }

  lemma EraOf(days: int, era: int, doe: int)
    requires 0 <= doe <= 146_096 && days + 719_468 == era * 146_097 + doe
    ensures CivilFromDays(days) == CivilInEra(era, doe, EraYear(doe))
  {
    EraNumber(days, era, doe);
  }

  lemma EraNumber(days: int, era: int, doe: int)
    requires 0 <= doe <= 146_096 && days + 719_468 == era * 146_097 + doe
    ensures EraOfDay(days) == era
  {
    EraIsFloor(days + 719_468);
    Quotient(days + 719_468, era, doe);
  }

  lemma Quotient(n: int, era: int, doe: int)
    requires 0 <= doe <= 146_096 && n == era * 146_097 + doe
    ensures n / 146_097 == era
  {
    assert n == 146_097 * (n / 146_097) + n % 146_097;
  }

  lemma InEraUnfolded(era: int, y: int, doy: int)
    requires 0 <= y < 400 && 0 <= doy <= 365
    ensures CivilInEra(era, YearStart(y) + doy, y) == DateAt(y + era * 400, doy)
  {
  }

  lemma DayOfMarchYear(d: Date)
    requires Valid(d)
    ensures var doy := MonthStart(MarchMonth(d)) + d.day - 1;
            && 0 <= doy <= 365
            && (doy == 365 ==> Leap(MarchYear(d) + 1))
            && (5 * doy + 2) / 153 == MarchMonth(d)
  {
    MonthStarts();
    MonthOfYear(MarchMonth(d), d.day - 1);
  }

  /** Splitting a year of era into century, four-year cycle and remainder. */
  lemma SplitYear(y: int, c: int, q: int, r: int)
    requires 0 <= y < 400 && c == y / 100 && q == (y % 100) / 4 && r == y % 4
    ensures y == 100 * c + 4 * q + r && 0 <= c < 4 && 0 <= q < 25 && 0 <= r < 4
  {
  }

  lemma LeapEnds(e: int, c: int, q: int, r: int)
    requires 0 <= c < 4 && 0 <= q < 25 && 0 <= r < 4
    ensures Leap(400 * e + 100 * c + 4 * q + r + 1) ==> r == 3 && (q == 24 ==> c == 3)
  {
    var y := 400 * e + 100 * c + 4 * q + r + 1;
    assert y % 4 == (r + 1) % 4;
    if r == 3 && q == 24 {
      assert y == 100 * (4 * e + c + 1);
      assert y % 100 == 0;
    }
  }

  lemma YearIsFound(d: Date)
    requires Valid(d)
    ensures YearFound(MarchYear(d) % 400, MonthStart(MarchMonth(d)) + d.day - 1)
  {
    var yoe := MarchYear(d) % 400;
    var c, q, r := yoe / 100, (yoe % 100) / 4, yoe % 4;
    SplitYear(yoe, c, q, r);
    DayOfMarchYear(d);
    LeapEnds(MarchYear(d) / 400, c, q, r);
    YearOfEra(c, q, r, MonthStart(MarchMonth(d)) + d.day - 1);
  }

  lemma DateAtInverts(d: Date)
    requires Valid(d)
    ensures DateAt(MarchYear(d), MonthStart(MarchMonth(d)) + d.day - 1) == d
  {
    DayOfMarchYear(d);
  }

  lemma EraSplit(y: int)
    ensures MarchStart(y) == y / 400 * 146_097 + YearStart(y % 400) && y == y / 400 * 400 + y % 400
  {
  }

  lemma InverseAt(days: int, d: Date)
    requires Valid(d) && days + 719_468 == MarchDays(d) - 1
    ensures CivilFromDays(days) == d
  {
    YearIsFound(d);
    DateAtInverts(d);
    EraSplit(MarchYear(d));
    InverseUnfolded(days, MarchYear(d) / 400, MarchYear(d) % 400, MonthStart(MarchMonth(d)) + d.day - 1);
  }

  /** Converting a valid date to days and back gives the date. */
  lemma CivilInvertsDays(d: Date)
    requires Valid(d)
    ensures CivilFromDays(DaysFromCivil(d)) == d
  {
    ClosedForm(d);
    InverseAt(DaysFromCivil(d), d);
  }

  lemma EraStart(era: int)
    ensures DaysFromCivil(Date(400 * era, 3, 1)) == era * 146_097 - 719_468
  {
    ClosedForm(Date(400 * era, 3, 1));
  }

  /** Counting from the start of its era reaches every day number. */
  lemma DateOfDay(days: int) returns (d: Date)
    ensures Valid(d) && DaysFromCivil(d) == days
  {
    var era := (days + 719_468) / 146_097;
    var n := days + 719_468 - era * 146_097;
    EraStart(era);
    CountsDays(Date(400 * era, 3, 1), n);
    d := DaysAfter(Date(400 * era, 3, 1), n);
  }

  /** Every day number is a valid date, and converting it there and back gives the number. */
  lemma DaysInvertsCivil(days: int)
    ensures Valid(CivilFromDays(days)) && DaysFromCivil(CivilFromDays(days)) == days
  {
    var d := DateOfDay(days);
    CivilInvertsDays(d);
  }

  lemma DaysTellDates(a: Date, b: Date)
    requires Valid(a) && Valid(b) && DaysFromCivil(a) == DaysFromCivil(b)
    ensures a == b
  {
    CivilInvertsDays(a);
    CivilInvertsDays(b);
  }

  lemma CountedTo(from: Date, to: Date, n: nat)
    requires Valid(from) && Valid(to) && DaysFromCivil(to) == DaysFromCivil(from) + n
    ensures DaysAfter(from, n) == to
  {
    CountsDays(from, n);
    DaysTellDates(DaysAfter(from, n), to);
  }

  /** Counting from the epoch, or up to it, reaches every valid date in exactly its number of days. */
  lemma CountedFromTheEpoch(d: Date)
    requires Valid(d)
    ensures DaysFromCivil(d) >= 0 ==> DaysAfter(EPOCH, DaysFromCivil(d)) == d
    ensures DaysFromCivil(d) <= 0 ==> DaysAfter(d, -DaysFromCivil(d)) == EPOCH
  {
    EpochIsZero();
    if DaysFromCivil(d) >= 0 {
      CountedTo(EPOCH, d, DaysFromCivil(d));
    }
    if DaysFromCivil(d) <= 0 {
      CountedTo(d, EPOCH, -DaysFromCivil(d));
    }
  }

  // The expiry timestamp

  datatype Fields = Fields(date: Date, hour: int, minute: int, second: int)

  predicate InRange(t: Fields)
  {
    && 1 <= t.date.month <= 12 && 1 <= t.date.day <= 31
    && 0 <= t.hour < 24 && 0 <= t.minute < 60 && 0 <= t.second <= 60
  }

  const I64_LIMIT: int := 0x8000_0000_0000_0000

  predicate I64(x: int) { -I64_LIMIT <= x < I64_LIMIT }

  /** What 64-bit arithmetic that wraps makes of a value. */
  function Wrap(x: int): int { (x + I64_LIMIT) % (2 * I64_LIMIT) - I64_LIMIT }

  function TimeOfDay(t: Fields): int { t.hour * 3_600 + t.minute * 60 + t.second }

  /** The exact number of seconds after the epoch. */
  function Instant(t: Fields): int { DaysFromCivil(t.date) * 86_400 + TimeOfDay(t) }

  /**
    The numeric half of `parse_timestamp`. Sums and products wrap, so only their
    final value matters; the one division is of the year, which is not negative.
   */
  function Seconds(t: Fields): Result<nat, ()>
  {
    if InRange(t) then Accepted(Wrap(Instant(t))) else Err(())
  }

  function Accepted(seconds: int): Result<nat, ()> { if seconds < 0 then Err(()) else Ok(seconds) }

  predicate Earlier(a: Fields, b: Fields)
  {
    || Before(a.date, b.date)
    || (a.date == b.date &&
        (a.hour < b.hour || (a.hour == b.hour &&
         (a.minute < b.minute || (a.minute == b.minute && a.second < b.second)))))
  }

  /** Well-formed timestamps: a date of the calendar and no leap second. */
  predicate WellFormed(t: Fields) { InRange(t) && Valid(t.date) && t.second < 60 }

  lemma InstantsKeepOrder(a: Fields, b: Fields)
    requires WellFormed(a) && WellFormed(b)
    ensures Instant(a) < 0 <==> a.date.year < 1970
    ensures Earlier(a, b) ==> Instant(a) < Instant(b)
  {
    EpochIsZero();
    if Before(a.date, EPOCH) { StrictlyMonotone(a.date, EPOCH); }
    if Before(EPOCH, a.date) { StrictlyMonotone(EPOCH, a.date); }
    if Before(a.date, b.date) { StrictlyMonotone(a.date, b.date); }
  }

  lemma WrapFacts(x: int)
    ensures I64(x) <==> Wrap(x) == x
    ensures -I64_LIMIT <= x ==> (Accepted(Wrap(x)) == Accepted(x) <==> x < I64_LIMIT)
  {
  }

  /**
    Where nothing leaves 64 bits, well-formed timestamps are refused exactly
    before 1970, and accepted ones keep their order.
   */
  lemma TimestampsKeepOrder(a: Fields, b: Fields)
    requires WellFormed(a) && WellFormed(b)
    ensures I64(Instant(a)) ==> (Seconds(a).Err? <==> a.date.year < 1970)
    ensures I64(Instant(a)) && I64(Instant(b)) && Seconds(a).Ok? && Earlier(a, b) ==>
              Seconds(b).Ok? && Seconds(a).value < Seconds(b).value
  {
    InstantsKeepOrder(a, b);
    WrapFacts(Instant(a));
    WrapFacts(Instant(b));
  }

  /** For the years text can give, the parser is right exactly when the instant fits in 64 bits. */
  lemma SecondsAreRight(t: Fields)
    requires InRange(t) && t.date.year >= 0
    ensures Seconds(t) == Accepted(Instant(t)) <==> Instant(t) < I64_LIMIT
  {
    NotLongBefore(t);
    WrapFacts(Instant(t));
  }

  lemma NotLongBefore(t: Fields)
    requires InRange(t) && t.date.year >= 0
    ensures Instant(t) >= -I64_LIMIT
  {
    ClosedForm(t.date);
    MarchStartUnfolded(MarchYear(t.date));
    MonthStarts();
  }

  const LOW_YEAR: int := -292_277_022_657
  const HIGH_YEAR: int := 292_277_026_596

  lemma YearBounds(t: Fields)
    requires InRange(t)
    ensures LOW_YEAR < t.date.year < HIGH_YEAR ==> I64(DaysFromCivil(t.date) * 86_400) && I64(Instant(t))
    ensures t.date.year > HIGH_YEAR ==> Instant(t) >= I64_LIMIT
    ensures t.date.year < LOW_YEAR ==> DaysFromCivil(t.date) * 86_400 < -I64_LIMIT
  {
    ClosedForm(t.date);
    MarchStartUnfolded(MarchYear(t.date));
    MonthStarts();
  }

  /** Every value `days_from_civil` and `parse_timestamp` compute on the way. */
  predicate Computes64(t: Fields)
  {
    var year := if t.date.month <= 2 then t.date.year - 1 else t.date.year;
    var shifted := if year >= 0 then year else year - 399;
    var era := TruncDiv(shifted, 400);
    var days := DaysFromCivil(t.date);
    && I64(year) && I64(shifted) && I64(era * 400) && I64(year - era * 400)
    && I64(era * 146_097) && I64(days + 719_468) && I64(days)
    && I64(days * 86_400) && I64(days * 86_400 + t.hour * 3_600)
    && I64(days * 86_400 + t.hour * 3_600 + t.minute * 60) && I64(Instant(t))
  }

  /**
    No intermediate value leaves 64 bits exactly when the first product and the
    last sum do not: always in the years strictly between the two given, never
    in the years beyond them.
   */
  lemma FitsInI64(t: Fields)
    requires InRange(t)
    ensures Computes64(t) <==> I64(DaysFromCivil(t.date) * 86_400) && I64(Instant(t))
    ensures LOW_YEAR < t.date.year < HIGH_YEAR ==> Computes64(t)
    ensures t.date.year < LOW_YEAR || HIGH_YEAR < t.date.year ==> !Computes64(t)
  {
    YearBounds(t);
    if I64(DaysFromCivil(t.date) * 86_400) && I64(Instant(t)) {
      EarlyValuesFit(t);
    }
  }

  lemma EarlyValuesFit(t: Fields)
    requires InRange(t) && LOW_YEAR <= t.date.year <= HIGH_YEAR
    ensures
      var year := if t.date.month <= 2 then t.date.year - 1 else t.date.year;
      var shifted := if year >= 0 then year else year - 399;
      var era := TruncDiv(shifted, 400);
      && I64(year) && I64(shifted) && I64(era * 400) && I64(year - era * 400)
      && I64(era * 146_097) && I64(DaysFromCivil(t.date) + 719_468) && I64(DaysFromCivil(t.date))
  {
    EraIsFloor(MarchYear(t.date));
    ClosedForm(t.date);
    MarchStartUnfolded(MarchYear(t.date));
    MonthStarts();
  }

  lemma TimeAt(seconds: int) returns (t: Fields)
    ensures WellFormed(t) && Instant(t) == seconds
  {
    var days, rest := seconds / 86_400, seconds % 86_400;
    var date := CivilFromDays(days);
    DaysInvertsCivil(days);
    SplitDay(rest);
    t := Fields(date, rest / 3_600, rest % 3_600 / 60, rest % 60);
  }

  lemma SplitDay(rest: int)
    requires 0 <= rest < 86_400
    ensures 0 <= rest / 3_600 < 24 && 0 <= rest % 3_600 / 60 < 60
    ensures rest / 3_600 * 3_600 + rest % 3_600 / 60 * 60 + rest % 60 == rest
  {
  }

  lemma WrapTwin(x: int)
    ensures Wrap(x + 2 * I64_LIMIT) == Wrap(x)
  {
  }

  /** Beyond, every timestamp, however long past, has a far one that is taken for it. */
  lemma FarYearsWrap(t: Fields) returns (far: Fields)
    requires WellFormed(t)
    ensures WellFormed(far) && Instant(far) == Instant(t) + 2 * I64_LIMIT && Seconds(far) == Seconds(t)
  {
    far := TimeAt(Instant(t) + 2 * I64_LIMIT);
    WrapTwin(Instant(t));
  }

  /** A leap second is accepted as the start of the next minute, hour or day. */
  lemma LeapSecondRollsOver(t: Fields)
    requires InRange(t) && t.second == 60
    ensures t.minute < 59 ==> Seconds(t) == Seconds(t.(minute := t.minute + 1, second := 0))
    ensures t.minute == 59 && t.hour < 23 ==> Seconds(t) == Seconds(t.(hour := t.hour + 1, minute := 0, second := 0))
    ensures t.minute == 59 && t.hour == 23 && Valid(t.date) ==> Seconds(t) == Seconds(Fields(NextDay(t.date), 0, 0, 0))
  {
    if Valid(t.date) {
      NextDayAddsOne(t.date);
    }
  }

  /** A day past the end of its month is accepted as a day of the next month. */
  lemma OverlongMonthRollsOver(year: int, month: int, day: int)
    requires 1 <= month < 12 && MonthLength(year, month) < day <= 31
    ensures DaysFromCivil(Date(year, month, day))
            == DaysFromCivil(Date(year, month + 1, day - MonthLength(year, month)))
  {
    var last := Date(year, month, MonthLength(year, month));
    ClosedForm(Date(year, month, day));
    ClosedForm(Date(year, month + 1, day - MonthLength(year, month)));
    NextMarchDay(last);
    assert NextDay(last) == Date(year, month + 1, 1);
  }
}
