/**
  Days and civil dates: the arithmetic of the program, with truncating division and unsigned wrap-around, against the
  Gregorian calendar.
 */
module Calendar {

  // ----- Arithmetic of the program -----

  /** Division of signed numbers truncates towards zero. */
  function Quotient(a: int, b: int): int
    requires b > 0
  {
    if a >= 0 then a / b else -((-a) / b)
  }

  function Remainder(a: int, b: int): int
    requires b > 0
  {
    a - b * Quotient(a, b)
  }

  /** Unsigned numbers have 32 bits. */
  function Unsigned(a: int): (r: nat)
    ensures r < 0x1_0000_0000
  {
    a % 0x1_0000_0000
  }

  predicate IsInt(a: int) {
    -0x8000_0000 <= a < 0x8000_0000
  }

  datatype Civil = Civil(y: int, m: nat, d: nat)

  const ERA_DAYS := 146097
  const EPOCH_SHIFT := 719468

  // ----- The program -----

  function MonthIndex(m: nat): nat {
    Unsigned(m + (if m > 2 then Unsigned(-3) else 9))
  }

  function DayOfYear(m: nat, d: nat): nat {
    Unsigned(Unsigned(Unsigned(153 * MonthIndex(m)) + 2) / 5 + d - 1)
  }

  function DayOfEra(yoe: nat, doy: nat): nat {
    Unsigned(yoe * 365 + yoe / 4 - yoe / 100 + doy)
  }

  function EraOfYear(y: int): int {
    Quotient(if y >= 0 then y else y - 399, 400)
  }

  function DaysFromCivil(c: Civil): int {
    var y := c.y - (if c.m <= 2 then 1 else 0);
    var era := EraOfYear(y);
    var yoe := Unsigned(y - era * 400);
    era * ERA_DAYS + DayOfEra(yoe, DayOfYear(c.m, c.d)) - EPOCH_SHIFT
  }

  function EraOfDay(z: int): int {
    Quotient(if z >= 0 then z else z - 146096, ERA_DAYS)
  }

  function YearOfEra(doe: nat): nat {
    Unsigned(doe - doe / 1460 + doe / 36524 - doe / 146096) / 365
  }

  function MonthOfDay(doy: nat): nat {
    Unsigned(Unsigned(5 * doy) + 2) / 153
  }

  /** The date of a day of era zero. */
  function CivilInEra(doe: nat): Civil {
    var yoe := YearOfEra(doe);
    var doy := Unsigned(doe - Unsigned(365 * yoe + yoe / 4 - yoe / 100));
    var mp := MonthOfDay(doy);
    var d := Unsigned(doy - Unsigned(153 * mp + 2) / 5 + 1);
    var m := Unsigned(mp + (if mp < 10 then 3 else Unsigned(-9)));
    Civil(yoe + (if m <= 2 then 1 else 0), m, d)
  }

  function CivilFromDays(z: int): Civil {
    var s := z + EPOCH_SHIFT;
    var era := EraOfDay(s);
    var c := CivilInEra(Unsigned(s - era * ERA_DAYS));
    Civil(c.y + era * 400, c.m, c.d)
  }

  function WeekdayFromDays(z: int): nat {
    Unsigned(if z >= -4 then Remainder(z + 4, 7) else Remainder(z + 5, 7) + 6)
  }

  // ----- The Gregorian calendar -----

  predicate IsLeap(y: int) {
    y % 4 == 0 && (y % 100 != 0 || y % 400 == 0)
  }

  function LastDay(y: int, m: nat): nat {
    if m == 2 then if IsLeap(y) then 29 else 28
    else if m == 4 || m == 6 || m == 9 || m == 11 then 30
    else 31
  }

  predicate IsDate(c: Civil) {
    1 <= c.m <= 12 && 1 <= c.d <= LastDay(c.y, c.m)
  }

  function NextDay(c: Civil): Civil {
    if c.d < LastDay(c.y, c.m) then c.(d := c.d + 1)
    else if c.m < 12 then Civil(c.y, c.m + 1, 1)
    else Civil(c.y + 1, 1, 1)
  }

  // ----- Years of an era, counted from March -----

  /** An era has centuries of 36524 days, these have cycles of 1461 days, and these have years of 365 days. */
  datatype EraYear = EraYear(century: nat, cycle: nat, year: nat)
  {
    predicate Valid() {
      century < 4 && cycle < 25 && year < 4
    }

    function Number(): (n: nat)
      ensures Valid() ==> n < 400
    {
      100 * century + 4 * cycle + year
    }

    function Start(): nat {
      36524 * century + 1461 * cycle + 365 * year
    }

    /** The year, counted from March, ends with a leap day. */
    predicate Long() {
      year == 3 && (cycle < 24 || century == 3)
    }

    function Length(): nat {
      if Long() then 366 else 365
    }
  }

  lemma QuotientIs(a: int, b: nat, q: int)
    requires b > 0 && b * q <= a < b * q + b
    ensures a / b == q
  {
    var x := a / b;
    assert x < q ==> b * x <= b * (q - 1);
    assert x > q ==> b * x >= b * (q + 1);
  }

  lemma YearOf(yoe: nat) returns (k: EraYear)
    requires yoe < 400
    ensures k.Valid() && k.Number() == yoe
  {
    var century := yoe / 100;
    var r := yoe - 100 * century;
    k := EraYear(century, r / 4, r % 4);
  }

  /** The start of a year is what the program computes for it. */
  lemma StartOfYear(k: EraYear)
    requires k.Valid()
    ensures var n := k.Number(); n * 365 + n / 4 - n / 100 == k.Start()
  {
    QuotientIs(k.Number(), 4, 25 * k.century + k.cycle);
    QuotientIs(k.Number(), 100, k.century);
  }

  /** Years follow each other without gaps. */
  lemma DayInYear(doe: nat) returns (k: EraYear, doy: nat)
    requires doe < ERA_DAYS
    ensures k.Valid() && doe == k.Start() + doy && doy < k.Length()
  {
    var century := if doe >= 3 * 36524 then 3 else doe / 36524;
    var r := doe - 36524 * century;
    var cycle := if r >= 24 * 1461 then 24 else r / 1461;
    var s := r - 1461 * cycle;
    var year := if s >= 3 * 365 then 3 else s / 365;
    k := EraYear(century, cycle, year);
    doy := s - 365 * year;
  }

  /** How many days before this one the program counts as too many for years of 365 days. */
  lemma Cycles(k: EraYear, doy: nat)
    requires k.Valid() && doy < k.Length()
    ensures var late := if 24 * k.century + k.cycle + 365 * k.year + doy >= 1460 then 1 else 0;
      (k.Start() + doy) / 1460 == 25 * k.century + k.cycle + late
  {
    var late := if 24 * k.century + k.cycle + 365 * k.year + doy >= 1460 then 1 else 0;
    QuotientIs(k.Start() + doy, 1460, 25 * k.century + k.cycle + late);
  }

  lemma Centuries(k: EraYear, doy: nat)
    requires k.Valid() && doy < k.Length()
    ensures var last := if k == EraYear(3, 24, 3) && doy == 365 then 1 else 0;
      var doe := k.Start() + doy;
      doe < ERA_DAYS && doe / 36524 == k.century + last && doe / 146096 == last
  {
    var last := if k == EraYear(3, 24, 3) && doy == 365 then 1 else 0;
    QuotientIs(k.Start() + doy, 36524, k.century + last);
    QuotientIs(k.Start() + doy, 146096, last);
  }

  /** The program finds the year of every day of an era. */
  lemma YearOfDay(k: EraYear, doy: nat)
    requires k.Valid() && doy < k.Length()
    ensures k.Start() + doy < ERA_DAYS && YearOfEra(k.Start() + doy) == k.Number()
  {
    hide Position.Valid, Unsigned;
    Cycles(k, doy);
    Centuries(k, doy);
    var doe := k.Start() + doy;
    var f := doe - doe / 1460 + doe / 36524 - doe / 146096;
    YearsInDays(k, doy, f);
    SmallUnsigned(f);
    QuotientIs(f, 365, k.Number());
  }

  lemma YearsInDays(k: EraYear, doy: nat, f: int)
    requires k.Valid() && doy < k.Length()
    requires var late := if 24 * k.century + k.cycle + 365 * k.year + doy >= 1460 then 1 else 0;
      f == k.Start() + doy - 25 * k.century - k.cycle - late + k.century
    ensures 365 * k.Number() <= f < 365 * k.Number() + 365 && f < 0x1_0000_0000
  {
  }

  // ----- Months, counted from March -----

  function MonthStart(mp: nat): nat {
    (153 * mp + 2) / 5
  }

  function MonthLength(mp: nat): nat
    requires mp < 12
  {
    if mp == 11 then 29 else if mp == 1 || mp == 3 || mp == 6 || mp == 8 then 30 else 31
  }

  lemma MonthsFollow(mp: nat)
    requires mp < 12
    ensures mp < 11 ==> MonthStart(mp + 1) == MonthStart(mp) + MonthLength(mp)
    ensures mp == 11 ==> MonthStart(mp) == 337
  {
    if mp == 0 {} else if mp == 1 {} else if mp == 2 {} else if mp == 3 {} else if mp == 4 {} else if mp == 5 {}
    else if mp == 6 {} else if mp == 7 {} else if mp == 8 {} else if mp == 9 {} else if mp == 10 {} else {}
  }

  /** The program finds the month of every day of a year. */
  lemma MonthOf(mp: nat, d: nat)
    requires mp < 12 && 1 <= d <= MonthLength(mp)
    ensures MonthStart(mp) + d - 1 < 366 && MonthOfDay(MonthStart(mp) + d - 1) == mp
  {
    MonthStartBounds(mp);
    MonthStartBounds(mp + 1);
    MonthsFollow(mp);
    var doy := MonthStart(mp) + d - 1;
    assert doy < MonthStart(mp + 1) && doy < 366 by {
      if mp == 11 {
        assert MonthLength(mp) == 29;
      } else {
        MonthEnds(mp);
      }
    }
    QuotientIs(5 * doy + 2, 153, mp);
    SmallUnsigned(5 * doy);
    SmallUnsigned(5 * doy + 2);
  }

  lemma MonthStartBounds(mp: nat)
    requires mp <= 12
    ensures 153 * mp - 3 < 5 * MonthStart(mp) <= 153 * mp + 2
    ensures mp == 12 ==> MonthStart(mp) == 367
  {
  }

  lemma DayInMonth(doy: nat) returns (mp: nat, d: nat)
    requires doy < 366
    ensures mp < 12 && 1 <= d <= MonthLength(mp) && doy == MonthStart(mp) + d - 1
  {
    mp := if doy < 31 then 0 else if doy < 61 then 1 else if doy < 92 then 2 else if doy < 122 then 3
      else if doy < 153 then 4 else if doy < 184 then 5 else if doy < 214 then 6 else if doy < 245 then 7
      else if doy < 275 then 8 else if doy < 306 then 9 else if doy < 337 then 10 else 11;
    d := doy - MonthStart(mp) + 1;
  }

  // ----- Positions in time -----

  /** A day as the era, the year of the era and the day of that year; the year begins in March. */
  datatype Position = Position(era: int, k: EraYear, doy: nat)
  {
    predicate Valid() {
      k.Valid() && doy < k.Length()
    }

    function Number(): int {
      era * ERA_DAYS + k.Start() + doy - EPOCH_SHIFT
    }

    function Year(): int {
      400 * era + k.Number()
    }
  }

  /** The date with a month counted from March. */
  function DateAt(year: int, mp: nat, d: nat): Civil
    requires mp < 12
  {
    if mp < 10 then Civil(year, mp + 3, d) else Civil(year + 1, mp - 9, d)
  }

  lemma LeapIsLong(era: int, k: EraYear)
    requires k.Valid()
    ensures IsLeap(400 * era + k.Number() + 1) <==> k.Long()
  {
    var y := 400 * era + k.Number() + 1;
    QuotientIs(y, 4, 100 * era + 25 * k.century + k.cycle + (if k.year == 3 then 1 else 0));
    if k.year == 3 {
      var turn := if k.cycle == 24 then 1 else 0;
      QuotientIs(y, 100, 4 * era + k.century + turn);
      if turn == 1 {
        QuotientIs(y, 400, era + (if k.century == 3 then 1 else 0));
      }
    }
  }

  /** A day lies in a year exactly if its date exists. */
  lemma DateExists(p: Position, mp: nat, d: nat)
    requires p.k.Valid() && mp < 12 && d >= 1
    ensures IsDate(DateAt(p.Year(), mp, d)) <==> d <= MonthLength(mp) && MonthStart(mp) + d - 1 < p.k.Length()
  {
    LeapIsLong(p.era, p.k);
    MonthsFollow(mp);
    if mp < 11 {
      MonthOf(mp, MonthLength(mp));
      MonthsFollow(mp + 1);
      LengthOfMonth(p.Year(), mp);
      MonthEnds(mp);
    }
  }

  lemma MonthEnds(mp: nat)
    requires mp < 11
    ensures MonthStart(mp) + MonthLength(mp) <= 337
  {
    if mp == 0 {} else if mp == 1 {} else if mp == 2 {} else if mp == 3 {} else if mp == 4 {} else if mp == 5 {}
    else if mp == 6 {} else if mp == 7 {} else if mp == 8 {} else if mp == 9 {} else {}
  }

  lemma LengthOfMonth(year: int, mp: nat)
    requires mp < 11
    ensures var c := DateAt(year, mp, 1); LastDay(c.y, c.m) == MonthLength(mp)
  {
  }

  lemma FloorOfEra(y: int)
    ensures EraOfYear(y) == y / 400 && EraOfDay(y) == y / ERA_DAYS
  {
    if y < 0 {
      QuotientIs(399 - y, 400, -(y / 400));
      QuotientIs(146096 - y, ERA_DAYS, -(y / ERA_DAYS));
    }
  }

  lemma DaysOfDate(p: Position, mp: nat, d: nat)
    requires p.Valid() && mp < 12 && 1 <= d <= MonthLength(mp) && p.doy == MonthStart(mp) + d - 1
    ensures DaysFromCivil(DateAt(p.Year(), mp, d)) == p.Number()
  {
    hide Unsigned, DayOfEra, DayOfYear, EraOfYear, EraYear.Length, EraYear.Number, EraYear.Start, MonthStart;
    var c := DateAt(p.Year(), mp, d);
    DayOfYearIs(mp, d);
    FloorOfEra(p.Year());
    QuotientIs(p.Year(), 400, p.era);
    DayOfEraIs(p.k, p.doy);
    assert c.y - (if c.m <= 2 then 1 else 0) == p.Year();
    SmallUnsigned(p.k.Number());
  }

  lemma SmallUnsigned(n: nat)
    requires n < 0x1_0000_0000
    ensures Unsigned(n) == n
  {
  }

  lemma DayOfEraIs(k: EraYear, doy: nat)
    requires k.Valid() && doy < k.Length()
    ensures DayOfEra(k.Number(), doy) == k.Start() + doy < ERA_DAYS
  {
    hide Unsigned, YearOfEra, EraYear.Length, EraYear.Number, EraYear.Start;
    StartOfYear(k);
    YearOfDay(k, doy);
    assert ERA_DAYS < 0x1_0000_0000;
    SmallUnsigned(k.Start() + doy);
  }

  lemma DayOfYearIs(mp: nat, d: nat)
    requires mp < 12 && 1 <= d <= 31
    ensures DayOfYear(DateAt(0, mp, d).m, d) == MonthStart(mp) + d - 1
  {
    MonthIndexIs(mp, d);
    SmallUnsigned(153 * mp);
    SmallUnsigned(153 * mp + 2);
    MonthStartBounds(mp);
    SmallUnsigned(MonthStart(mp) + d - 1);
  }

  lemma MonthIndexIs(mp: nat, d: nat)
    requires mp < 12
    ensures MonthIndex(DateAt(0, mp, d).m) == mp
  {
  }

  lemma DateOfDay(p: Position, mp: nat, d: nat)
    requires p.Valid() && mp < 12 && 1 <= d <= MonthLength(mp) && p.doy == MonthStart(mp) + d - 1
    ensures CivilFromDays(p.Number()) == DateAt(p.Year(), mp, d)
  {
    hide CivilFromDays, CivilInEra, EraYear.Length, EraYear.Number, EraYear.Start, MonthLength, MonthStart, YearOfEra;
    YearOfDay(p.k, p.doy);
    CivilInEraIs(p.k, mp, d);
    CivilOfEra(p.Number(), p.era, p.k.Start() + p.doy);
  }

  lemma CivilOfEra(z: int, era: int, doe: nat)
    requires doe < ERA_DAYS && z + EPOCH_SHIFT == era * ERA_DAYS + doe
    ensures var c := CivilInEra(doe); CivilFromDays(z) == Civil(c.y + era * 400, c.m, c.d)
  {
    hide CivilInEra, EraOfDay, EraOfYear, Unsigned;
    var s := z + EPOCH_SHIFT;
    FloorOfEra(s);
    QuotientIs(s, ERA_DAYS, era);
    SmallUnsigned(doe);
  }

  lemma CivilInEraIs(k: EraYear, mp: nat, d: nat)
    requires k.Valid() && mp < 12 && 1 <= d <= MonthLength(mp) && MonthStart(mp) + d - 1 < k.Length()
    ensures CivilInEra(k.Start() + MonthStart(mp) + d - 1) == DateAt(k.Number(), mp, d)
  {
    hide EraYear.Valid, MonthOfDay, Position.Number, Position.Valid, Unsigned, YearOfEra;
    var doy := MonthStart(mp) + d - 1;
    var n := k.Number();
    MonthOf(mp, d);
    YearOfDay(k, doy);
    StartOfYear(k);
    DayOfEraIs(k, doy);
    assert ERA_DAYS < 0x1_0000_0000;
    assert n * 365 == 365 * n;
    SmallUnsigned(k.Start());
    SmallUnsigned(doy);
    assert MonthLength(mp) <= 31;
    SmallUnsigned(d);
    assert Unsigned(153 * mp + 2) / 5 == MonthStart(mp) by {
      SmallUnsigned(153 * mp + 2);
    }
    MonthNumber(mp);
  }

  lemma MonthNumber(mp: nat)
    requires mp < 12
    ensures Unsigned(mp + (if mp < 10 then 3 else Unsigned(-9))) == if mp < 10 then mp + 3 else mp - 9
  {
  }

  lemma PositionOfDay(z: int) returns (p: Position, mp: nat, d: nat)
    ensures p.Valid() && p.Number() == z
    ensures mp < 12 && 1 <= d <= MonthLength(mp) && p.doy == MonthStart(mp) + d - 1
  {
    hide EraYear.Start, MonthStart;
    var s := z + EPOCH_SHIFT;
    var k, doy := DayInYear(s % ERA_DAYS);
    p := Position(s / ERA_DAYS, k, doy);
    mp, d := DayInMonth(doy);
  }

  lemma PositionOfDate(c: Civil) returns (p: Position, mp: nat, d: nat)
    requires IsDate(c)
    ensures p.Valid() && mp < 12 && 1 <= d <= MonthLength(mp) && p.doy == MonthStart(mp) + d - 1
    ensures c == DateAt(p.Year(), mp, d)
  {
    hide MonthStart, IsLeap, EraYear.Length, EraYear.Number;
    var year := if c.m <= 2 then c.y - 1 else c.y;
    mp, d := if c.m > 2 then c.m - 3 else c.m + 9, c.d;
    var k := YearOf(year % 400);
    p := Position(year / 400, k, MonthStart(mp) + d - 1);
    DateExists(p, mp, d);
  }

  // ----- The two directions are inverse -----

  /** Every day number is the number of its date, and that date exists. */
  lemma DaysRoundTrip(z: int)
    ensures IsDate(CivilFromDays(z)) && DaysFromCivil(CivilFromDays(z)) == z
  {
    var p, mp, d := PositionOfDay(z);
    DateOfDay(p, mp, d);
    DaysOfDate(p, mp, d);
    DateExists(p, mp, d);
  }

  /** Every Gregorian date is the date of its day number. */
  lemma DateRoundTrip(c: Civil)
    requires IsDate(c)
    ensures CivilFromDays(DaysFromCivil(c)) == c
  {
    var p, mp, d := PositionOfDate(c);
    DaysOfDate(p, mp, d);
    DateOfDay(p, mp, d);
  }

  // ----- Ranges of what is computed on the way -----

  /** For every day number, also before the epoch, the values on the way stay in their ranges. */
  lemma Ranges(z: int)
    ensures var s := z + EPOCH_SHIFT;
      var doe := Unsigned(s - EraOfDay(s) * ERA_DAYS);
      var yoe := YearOfEra(doe);
      var doy := Unsigned(doe - Unsigned(365 * yoe + yoe / 4 - yoe / 100));
      && EraOfDay(s) * ERA_DAYS <= s < (EraOfDay(s) + 1) * ERA_DAYS
      && doe < ERA_DAYS && yoe < 400 && doy < 366 && MonthOfDay(doy) < 12
  {
    hide Unsigned, EraOfDay, YearOfEra, MonthOfDay, MonthStart, EraYear.Length, EraYear.Number, EraYear.Start;
    var p, mp, d := PositionOfDay(z);
    var s := z + EPOCH_SHIFT;
    FloorOfEra(s);
    YearOfDay(p.k, p.doy);
    QuotientIs(s, ERA_DAYS, p.era);
    SmallUnsigned(p.k.Start() + p.doy);
    StartOfYear(p.k);
    SmallUnsigned(p.k.Start());
    MonthOf(mp, d);
    SmallUnsigned(p.doy);
  }

  /** Inside the range that the program states, no signed value on the way back and forth leaves its type. */
  lemma NoOverflow(z: int)
    requires IsInt(z) && IsInt(z + EPOCH_SHIFT)
    ensures var s := z + EPOCH_SHIFT;
      var era, c := EraOfDay(s), CivilFromDays(z);
      var y := c.y - (if c.m <= 2 then 1 else 0);
      && (s < 0 ==> IsInt(s - 146096)) && IsInt(era * ERA_DAYS) && IsInt(s - era * ERA_DAYS)
      && IsInt(era * 400) && IsInt(c.y) && (y < 0 ==> IsInt(y - 399))
      && EraOfYear(y) == era && 0 <= y - era * 400 < 400
  {
    hide EraYear.Length, EraYear.Start, MonthLength;
    var p, mp, d := PositionOfDay(z);
    var s := z + EPOCH_SHIFT;
    FloorOfEra(s);
    YearOfDay(p.k, p.doy);
    QuotientIs(s, ERA_DAYS, p.era);
    DateOfDay(p, mp, d);
    FloorOfEra(p.Year());
    QuotientIs(p.Year(), 400, p.era);
  }

  // ----- The next day -----

  /** The year after, in the next era where needed. */
  function NextYear(p: Position): Position {
    var k := p.k;
    if k.year < 3 then Position(p.era, k.(year := k.year + 1), 0)
    else if k.cycle < 24 then Position(p.era, EraYear(k.century, k.cycle + 1, 0), 0)
    else if k.century < 3 then Position(p.era, EraYear(k.century + 1, 0, 0), 0)
    else Position(p.era + 1, EraYear(0, 0, 0), 0)
  }

  lemma YearsFollow(p: Position)
    requires p.Valid()
    ensures var q := NextYear(p);
      q.Valid() && q.doy == 0 && q.Year() == p.Year() + 1 && q.Number() == p.Number() - p.doy + p.k.Length()
  {
  }

  /** Counting days, the program follows the Gregorian calendar. */
  lemma NextDayIsNext(c: Civil)
    requires IsDate(c)
    ensures IsDate(NextDay(c)) && DaysFromCivil(NextDay(c)) == DaysFromCivil(c) + 1
  {
    hide DateAt, DaysFromCivil, EraYear.Long, EraYear.Start, IsDate;
    var p, mp, d := PositionOfDate(c);
    DaysOfDate(p, mp, d);
    DateExists(p, mp, d);
    DateExists(p, mp, d + 1);
    LastDayTells(c);
    SameMonth(p.Year(), mp, d);
    if c.d < LastDay(c.y, c.m) {
      DaysOfDate(p.(doy := p.doy + 1), mp, d + 1);
    } else if mp < 11 {
      LengthOfMonth(p.Year(), mp);
      MonthsFollow(mp);
      SameMonth(p.Year(), mp, 1);
      MonthEnds(mp);
      DaysOfDate(p.(doy := p.doy + 1), mp + 1, 1);
      DateExists(p, mp + 1, 1);
      NextMonth(p.Year(), mp, d);
    } else {
      YearsFollow(p);
      MonthsFollow(mp);
      assert MonthStart(0) == 0;
      DaysOfDate(NextYear(p), 0, 1);
      DateExists(NextYear(p), 0, 1);
      NextMonth(p.Year(), mp, d);
    }
  }

  lemma SameMonth(year: int, mp: nat, d: nat)
    requires mp < 12
    ensures var c := DateAt(year, mp, d); c == Civil(DateAt(year, mp, 1).y, DateAt(year, mp, 1).m, d)
    ensures DateAt(year, mp, d + 1) == DateAt(year, mp, d).(d := d + 1)
  {
  }

  lemma LastDayTells(c: Civil)
    requires IsDate(c)
    ensures c.d < LastDay(c.y, c.m) <==> IsDate(c.(d := c.d + 1))
    ensures c.d < LastDay(c.y, c.m) ==> NextDay(c) == c.(d := c.d + 1)
  {
  }

  lemma NextMonth(year: int, mp: nat, d: nat)
    requires mp < 12 && var c := DateAt(year, mp, d); c.d >= LastDay(c.y, c.m)
    ensures NextDay(DateAt(year, mp, d)) == if mp < 11 then DateAt(year, mp + 1, 1) else DateAt(year + 1, 0, 1)
  {
    hide LastDay;
  }

  /** The date of the next day number is the next day; with the epoch this says what every day number means. */
  lemma CivilFollows(z: int)
    ensures CivilFromDays(z + 1) == NextDay(CivilFromDays(z))
    ensures CivilFromDays(0) == Civil(1970, 1, 1)
  {
    DaysRoundTrip(z);
    NextDayIsNext(CivilFromDays(z));
    DateRoundTrip(NextDay(CivilFromDays(z)));
    Epoch();
    DateRoundTrip(Civil(1970, 1, 1));
  }

  lemma Epoch()
    ensures IsDate(Civil(1970, 1, 1)) && DaysFromCivil(Civil(1970, 1, 1)) == 0
  {
    hide DaysFromCivil;
    DaysOfDate(Position(4, EraYear(3, 17, 1), 306), 10, 1);
  }

  // ----- Days of the week and of the year -----

  /** The days of the week follow each other, from a Thursday at the epoch, also before it. */
  lemma WeekdaysFollow(z: int)
    ensures WeekdayFromDays(z) < 7 && WeekdayFromDays(z + 1) == (WeekdayFromDays(z) + 1) % 7
    ensures WeekdayFromDays(0) == 4
  {
    hide WeekdayFromDays;
    WeekdayIs(z);
    WeekdayIs(z + 1);
    WeekdayIs(0);
  }

  lemma WeekdayIs(z: int)
    ensures WeekdayFromDays(z) == (z + 4) % 7
  {
    if z < -4 {
      var q := (-(z + 5)) / 7;
      assert Remainder(z + 5, 7) + 6 == z + 11 + 7 * q;
      QuotientIs(z + 4, 7, -q - 1);
    }
  }

  /** The days of a year before a month. */
  function DaysBefore(y: int, m: nat): nat
    decreases m
  {
    if m <= 1 then 0 else DaysBefore(y, m - 1) + LastDay(y, m - 1)
  }

  lemma {:induction false} DayWithinMonth(c: Civil)
    requires IsDate(c)
    ensures DaysFromCivil(c) == DaysFromCivil(c.(d := 1)) + c.d - 1
    decreases c.d
  {
    hide DaysFromCivil;
    if c.d > 1 {
      var before := c.(d := c.d - 1);
      NextDayIsNext(before);
      DayWithinMonth(before);
    }
  }

  lemma {:induction false} MonthWithinYear(y: int, m: nat)
    requires 1 <= m <= 12
    ensures DaysFromCivil(Civil(y, m, 1)) == DaysFromCivil(Civil(y, 1, 1)) + DaysBefore(y, m)
    decreases m
  {
    hide DaysFromCivil, IsLeap;
    if m > 1 {
      MonthWithinYear(y, m - 1);
      var last := Civil(y, m - 1, LastDay(y, m - 1));
      DayWithinMonth(last);
      NextDayIsNext(last);
    }
  }

  /** The day of the year counts the days of the months before. */
  lemma DayOfYearCounts(c: Civil)
    requires IsDate(c)
    ensures DaysFromCivil(c) - DaysFromCivil(Civil(c.y, 1, 1)) == DaysBefore(c.y, c.m) + c.d - 1
  {
    hide DaysFromCivil, DaysBefore;
    DayWithinMonth(c);
    MonthWithinYear(c.y, c.m);
  }

  // ----- Points in time -----

  const SECOND := 1000000

  datatype Tm = Tm(year: int, mon: int, mday: int, hour: int, min: int, sec: int, wday: nat, yday: int)

  /** Truncates and steps back if that was too far. */
  function RoundDown(a: int, b: int): int
    requires b > 0
  {
    var t := Quotient(a, b);
    if t * b > a then t - 1 else t
  }

  function TmOf(us: int): Tm {
    var seconds := Quotient(us, SECOND);
    var day := RoundDown(seconds, 86400);
    var t := seconds - day * 86400;
    var c := CivilFromDays(day);
    Tm(c.y - 1900, c.m - 1, c.d, Quotient(t, 3600), Quotient(Remainder(t, 3600), 60), Remainder(t, 60),
       WeekdayFromDays(day), day - DaysFromCivil(Civil(c.y, 1, 1)))
  }

  function MicrosecondsOf(t: Tm, ms: int): int {
    var day := DaysFromCivil(Civil(t.year + 1900, Unsigned(t.mon + 1), Unsigned(t.mday)));
    (((day * 24 + t.hour) * 60 + t.min) * 60 + t.sec) * SECOND + ms * 1000
  }

  class TimePoint {
    var us: int

    constructor (us: int)
      ensures this.us == us
    {
      this.us := us;
    }

    method GetTm() returns (t: Tm)
      ensures t == TmOf(us)
    {
      hide CivilFromDays, DaysFromCivil, Quotient, RoundDown, WeekdayFromDays;
      var seconds := Quotient(us, SECOND);
      var day := RoundDown(seconds, 86400);
      var time := seconds - day * 86400;
      var c := CivilFromDays(day);
      TimeOfDay(time);
      var hour := Quotient(time, 3600);
      time := time - hour * 3600;
      var min := Quotient(time, 60);
      time := time - min * 60;
      t := Tm(c.y - 1900, c.m - 1, c.d, hour, min, time, WeekdayFromDays(day),
              day - DaysFromCivil(Civil(c.y, 1, 1)));
    }

    method SetTm(t: Tm, ms: int)
      modifies this
      ensures us == MicrosecondsOf(t, ms)
    {
      var d := DaysFromCivil(Civil(t.year + 1900, Unsigned(t.mon + 1), Unsigned(t.mday))) * 86400 * SECOND;
      d := d + t.hour * 3600 * SECOND;
      d := d + t.min * 60 * SECOND;
      d := d + t.sec * SECOND;
      d := d + ms * 1000;
      us := d;
    }
  }

  lemma TimeOfDay(t: int)
    ensures Remainder(t, 60) == t - Quotient(t, 3600) * 3600 - Quotient(Remainder(t, 3600), 60) * 60
  {
    var a := if t >= 0 then t else -t;
    var h := a / 3600;
    QuotientIs(a, 60, 60 * h + (a - 3600 * h) / 60);
  }

  /** Broken-down time is what it should be, and setting it back gives the same second, also before the epoch. */
  lemma TmRoundTrip(us: int, ms: int)
    ensures var t := TmOf(us);
      && IsDate(Civil(t.year + 1900, t.mon + 1, t.mday))
      && 0 <= t.hour < 24 && 0 <= t.min < 60 && 0 <= t.sec < 60 && t.wday < 7
      && t.yday == DaysBefore(t.year + 1900, t.mon + 1) + t.mday - 1
      && MicrosecondsOf(t, ms) == Quotient(us, SECOND) * SECOND + ms * 1000
  {
    hide CivilFromDays, DaysBefore, DaysFromCivil, IsDate, Quotient, Remainder, RoundDown, Unsigned, WeekdayFromDays;
    var seconds := Quotient(us, SECOND);
    var day := RoundDown(seconds, 86400);
    var c := CivilFromDays(day);
    RoundDownIs(seconds);
    ClockParts(seconds - day * 86400);
    DaysRoundTrip(day);
    WeekdaysFollow(day);
    DayOfYearCounts(c);
    SmallDate(c);
    SmallUnsigned(c.m);
    SmallUnsigned(c.d);
  }

  lemma SmallDate(c: Civil)
    requires IsDate(c)
    ensures c.m <= 12 && c.d <= 31
  {
  }

  lemma RoundDownIs(a: int)
    ensures 0 <= a - RoundDown(a, 86400) * 86400 < 86400
  {
  }

  lemma ClockParts(t: int)
    requires 0 <= t < 86400
    ensures var h, m, s := Quotient(t, 3600), Quotient(Remainder(t, 3600), 60), Remainder(t, 60);
      0 <= h < 24 && 0 <= m < 60 && 0 <= s < 60 && (h * 60 + m) * 60 + s == t
  {
    TimeOfDay(t);
  }
}
