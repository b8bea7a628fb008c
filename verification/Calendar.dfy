/**
 * The build script's date conversion (kernel/build.rs, `parse_date`) against counting single days of the Gregorian
 * calendar.
 */
module Calendar {
  import opened Common
  import opened Arith

  const DAY_SECONDS: nat := 86400

  datatype Date = Date(year: nat, month: nat, day: nat)

  predicate Leap(year: nat) {
    year % 4 == 0 && (year % 100 != 0 || year % 400 == 0)
  }

  /** The month table, for months 1 to 12. */
  function DaysIn(year: nat, month: nat): nat {
    if month == 2 then if Leap(year) then 29 else 28
    else if month == 4 || month == 6 || month == 9 || month == 11 then 30
    else 31
  }

  /** The twelve months, and what makes a leap year. */
  lemma {:induction false} MonthLengths(y: nat)
    ensures DaysIn(y, 1) == 31 && DaysIn(y, 3) == 31 && DaysIn(y, 4) == 30 && DaysIn(y, 5) == 31 && DaysIn(y, 6) == 30
    ensures DaysIn(y, 7) == 31 && DaysIn(y, 8) == 31 && DaysIn(y, 9) == 30 && DaysIn(y, 10) == 31
    ensures DaysIn(y, 11) == 30 && DaysIn(y, 12) == 31
    ensures DaysIn(y, 2) == if y % 400 == 0 then 29 else if y % 100 == 0 then 28 else if y % 4 == 0 then 29 else 28
  {
    if y % 400 == 0 { Multiple(y, 4, 100); }
  }

  predicate Valid(d: Date) {
    d.year >= 1970 && 1 <= d.month <= 12 && 1 <= d.day <= DaysIn(d.year, d.month)
  }

  // ---------------------------------------------------------------------------------------------
  // Day by day

  const EPOCH: Date := Date(1970, 1, 1)

  function NextDay(d: Date): Date {
    if d.day < DaysIn(d.year, d.month) then d.(day := d.day + 1)
    else if d.month < 12 then Date(d.year, d.month + 1, 1)
    else Date(d.year + 1, 1, 1)
  }

  /** The date `n` single-day steps after the epoch. */
  function DateAfter(n: nat): Date {
    if n == 0 then EPOCH else NextDay(DateAfter(n - 1))
  }

  predicate Before(a: Date, b: Date) {
    || a.year < b.year
    || (a.year == b.year && (a.month < b.month || (a.month == b.month && a.day < b.day)))
  }

  // ---------------------------------------------------------------------------------------------
  // The closed form

  /** `month_days[..month - 1]` summed. */
  function PriorDays(year: nat, month: nat): nat {
    if month <= 1 then 0 else PriorDays(year, month - 1) + DaysIn(year, month - 1)
  }

  function LeapDays(year: nat): int
    requires year >= 1970
  {
    (year - 1) / 4 - 1969 / 4 - ((year - 1) / 100 - 1969 / 100) + ((year - 1) / 400 - 1969 / 400)
  }

  function YearStart(year: nat): int
    requires year >= 1970
  {
    (year - 1970) * 365 + LeapDays(year)
  }

  function Days(d: Date): int
    requires d.year >= 1970
  {
    YearStart(d.year) + PriorDays(d.year, d.month) + d.day - 1
  }

  lemma {:induction false} LeapStep(year: nat)
    requires year >= 1970
    ensures LeapDays(year + 1) == LeapDays(year) + if Leap(year) then 1 else 0
  {
    DivStep(year, 4);
    DivStep(year, 100);
    DivStep(year, 400);
    if year % 400 == 0 { Multiple(year, 100, 4); }
    if year % 100 == 0 { Multiple(year, 4, 25); }
  }

  lemma {:induction false} YearLength(year: nat)
    ensures PriorDays(year, 12) + 31 == if Leap(year) then 366 else 365
  {
    assert PriorDays(year, 2) == 31 + PriorDays(year, 1);
    assert PriorDays(year, 4) == 31 + DaysIn(year, 2) + PriorDays(year, 2);
    assert PriorDays(year, 6) == 61 + PriorDays(year, 4);
    assert PriorDays(year, 8) == 61 + PriorDays(year, 6);
    assert PriorDays(year, 10) == 61 + PriorDays(year, 8);
    assert PriorDays(year, 12) == 61 + PriorDays(year, 10);
  }

  lemma {:induction false} YearStep(year: nat)
    requires year >= 1970
    ensures YearStart(year + 1) == YearStart(year) + PriorDays(year, 12) + 31
  {
    hide Leap, PriorDays, LeapDays;
    LeapStep(year);
    YearLength(year);
  }

  /** One day on is one more. */
  lemma {:induction false} DayStep(d: Date)
    requires Valid(d)
    ensures Valid(NextDay(d)) && Days(NextDay(d)) == Days(d) + 1
  {
    hide Leap, YearStart;
    if d.day == DaysIn(d.year, d.month) && d.month == 12 {
      YearStep(d.year);
    }
  }

  lemma {:induction false} PriorGrows(year: nat, m: nat, n: nat)
    requires 1 <= m < n
    ensures PriorDays(year, m) + DaysIn(year, m) <= PriorDays(year, n)
    decreases n
  {
    hide Leap;
    if m < n - 1 { PriorGrows(year, m, n - 1); }
  }

  lemma {:induction false} WithinYear(d: Date)
    requires Valid(d)
    ensures YearStart(d.year) <= Days(d) < YearStart(d.year + 1)
  {
    hide Leap, YearStart, PriorDays;
    YearStep(d.year);
    if d.month < 12 { PriorGrows(d.year, d.month, 12); }
  }

  lemma {:induction false} YearsGrow(a: nat, b: nat)
    requires 1970 <= a <= b
    ensures YearStart(a) <= YearStart(b)
    decreases b
  {
    hide YearStart;
    if a < b {
      YearsGrow(a, b - 1);
      YearStep(b - 1);
    }
  }

  /** The closed form is strictly increasing in date order. */
  lemma {:induction false} StrictlyIncreasing(a: Date, b: Date)
    requires Valid(a) && Valid(b) && Before(a, b)
    ensures Days(a) < Days(b)
  {
    hide Leap, YearStart, PriorDays;
    if a.year < b.year {
      WithinYear(a);
      WithinYear(b);
      YearsGrow(a.year + 1, b.year);
    } else if a.month < b.month {
      PriorGrows(a.year, a.month, b.month);
    }
  }

  lemma {:induction false} DateAfterDays(n: nat)
    ensures Valid(DateAfter(n)) && Days(DateAfter(n)) == n
  {
    hide Days, NextDay;
    if n == 0 {
      EpochIsZero();
    } else {
      DateAfterDays(n - 1);
      DayStep(DateAfter(n - 1));
    }
  }

  lemma {:induction false} EpochIsZero()
    ensures Valid(EPOCH) && Days(EPOCH) == 0
  {
  }

  /** For every valid date the closed form is the number of single-day steps from the epoch. */
  lemma {:induction false} ClosedFormCountsDays(d: Date)
    requires Valid(d)
    ensures Days(d) >= 0 && DateAfter(Days(d)) == d
  {
    hide Days, DateAfter;
    if d != EPOCH { StrictlyIncreasing(EPOCH, d); }
    EpochIsZero();
    var z := DateAfter(Days(d));
    DateAfterDays(Days(d));
    if Before(z, d) { StrictlyIncreasing(z, d); }
    if Before(d, z) { StrictlyIncreasing(d, z); }
  }

  // ---------------------------------------------------------------------------------------------
  // parse_date

  /** `str::split` on a dash. */
  function Split(s: string): (parts: seq<string>)
    ensures |parts| >= 1
  {
    if s == "" then [""]
    else
      var rest := Split(s[1..]);
      if s[0] == '-' then [""] + rest else [[s[0]] + rest[0]] + rest[1..]
  }

  predicate Digit(c: char) {
    '0' <= c <= '9'
  }

  function DigitValue(c: char): nat
    requires Digit(c)
  {
    c as int - '0' as int
  }

  function Value(s: string): nat
    requires forall i :: 0 <= i < |s| ==> Digit(s[i])
  {
    if s == "" then 0 else 10 * Value(s[..|s| - 1]) + DigitValue(s[|s| - 1])
  }

  /** `parse::<u64>`: an optional plus sign, then at least one digit, below 2^64. */
  function ParseU64(s: string): Option<nat> {
    var digits := if s != "" && s[0] == '+' then s[1..] else s;
    if digits == "" || !(forall i :: 0 <= i < |digits| ==> Digit(digits[i])) then None
    else if Value(digits) >= TWO_64 then None
    else Some(Value(digits))
  }

  function CheckedMul(a: nat, b: nat): Option<nat> {
    if a * b < TWO_64 then Some(a * b) else None
  }

  function CheckedAdd(a: Option<nat>, b: nat): Option<nat> {
    match a
    case None => None
    case Some(x) => if x + b < TWO_64 then Some(x + b) else None
  }

  function CheckedSub(a: nat, b: nat): Option<nat> {
    if b <= a then Some(a - b) else None
  }

  /** The leap days since 1970, each subtraction and addition checked. */
  function CheckedLeapDays(year: nat): Option<nat>
    requires year >= 1970
  {
    CheckedAdd(CheckedSub((year - 1) / 4 - 1969 / 4, (year - 1) / 100 - 1969 / 100), (year - 1) / 400 - 1969 / 400)
  }

  /** The subtraction never goes below zero. */
  lemma {:induction false} LeapDaysChecked(year: nat)
    requires year >= 1970
    ensures (year - 1) / 100 - 1969 / 100 <= (year - 1) / 4 - 1969 / 4
    ensures LeapDays(year) >= 0
    ensures CheckedLeapDays(year) == if LeapDays(year) < TWO_64 then Some(LeapDays(year)) else None
  {
  }

  /** The checked arithmetic on an accepted date. */
  function Seconds(d: Date): Option<nat>
    requires Valid(d)
  {
    var leap := CheckedLeapDays(d.year);
    if leap.None? then None
    else
      var days := CheckedAdd(CheckedAdd(CheckedAdd(CheckedMul(d.year - 1970, 365), leap.value),
                                        PriorDays(d.year, d.month)), d.day - 1);
      match days
      case None => None
      case Some(n) => CheckedMul(n, DAY_SECONDS)
  }

  function ParseDate(s: string): Option<nat> {
    match DateOf(s)
    case None => None
    case Some(d) => if Valid(d) then Seconds(d) else None
  }

  function DateOf(s: string): Option<Date> {
    var parts := Split(s);
    if |parts| != 3 || ParseU64(parts[0]).None? || ParseU64(parts[1]).None? || ParseU64(parts[2]).None? then None
    else Some(Date(ParseU64(parts[0]).value, ParseU64(parts[1]).value, ParseU64(parts[2]).value))
  }

  lemma {:induction false} SecondsExact(d: Date)
    requires Valid(d)
    ensures Days(d) >= 0
    ensures Seconds(d) == if DAY_SECONDS * Days(d) < TWO_64 then Some(DAY_SECONDS * Days(d)) else None
  {
    hide LeapDays, CheckedLeapDays, PriorDays;
    LeapDaysChecked(d.year);
  }

  /**
   * A string is accepted exactly when it spells a valid date from 1970 on whose seconds fit 64 bits, and the result is
   * then 86400 times the number of single-day steps from the epoch.
   */
  lemma {:induction false} ParseDateExact(s: string)
    ensures ParseDate(s).Some? <==>
      DateOf(s).Some? && Valid(DateOf(s).value) && DAY_SECONDS * Days(DateOf(s).value) < TWO_64
    ensures ParseDate(s).Some? ==>
      exists n: nat :: DateAfter(n) == DateOf(s).value && ParseDate(s).value == DAY_SECONDS * n
  {
    hide Days, DateAfter, DateOf, Seconds;
    if DateOf(s).Some? && Valid(DateOf(s).value) {
      var d := DateOf(s).value;
      SecondsExact(d);
      ClosedFormCountsDays(d);
      var n: nat := Days(d);
      assert DateAfter(n) == d;
    }
  }

  /** Accepted strings are ordered by their seconds exactly as by their dates. */
  lemma {:induction false} ParseDateOrdered(s: string, t: string)
    requires ParseDate(s).Some? && ParseDate(t).Some?
    ensures ParseDate(s).value < ParseDate(t).value <==> Before(DateOf(s).value, DateOf(t).value)
  {
    hide Days, DateOf, Seconds, Valid;
    var a, b := DateOf(s).value, DateOf(t).value;
    SecondsExact(a);
    SecondsExact(b);
    if Before(a, b) { StrictlyIncreasing(a, b); }
    if Before(b, a) { StrictlyIncreasing(b, a); }
  }

  // ---------------------------------------------------------------------------------------------
  // Spelled dates

  function DigitOf(n: nat): char
    requires n < 10
  {
    ('0' as int + n) as char
  }

  /** `n` in decimal, without leading zeros. */
  function Decimal(n: nat): string {
    if n < 10 then [DigitOf(n)] else Decimal(n / 10) + [DigitOf(n % 10)]
  }

  lemma {:induction false} DecimalValue(n: nat)
    ensures Decimal(n) != "" && forall i :: 0 <= i < |Decimal(n)| ==> Digit(Decimal(n)[i])
    ensures Value(Decimal(n)) == n
  {
    if n >= 10 {
      DecimalValue(n / 10);
      assert Decimal(n)[..|Decimal(n)| - 1] == Decimal(n / 10);
    } else {
      assert Decimal(n)[..0] == "";
    }
  }

  lemma {:induction false} SplitField(field: string, rest: string)
    requires '-' !in field
    ensures Split(field + "-" + rest) == [field] + Split(rest)
    decreases |field|
  {
    var s := field + "-" + rest;
    if field == "" {
      assert s[1..] == rest;
    } else {
      assert s[1..] == field[1..] + "-" + rest;
      SplitField(field[1..], rest);
      assert [field[0]] + field[1..] == field;
    }
  }

  lemma {:induction false} SplitLast(field: string)
    requires '-' !in field
    ensures Split(field) == [field]
    decreases |field|
  {
    if field != "" {
      SplitLast(field[1..]);
      assert [field[0]] + field[1..] == field;
    }
  }

  lemma {:induction false} DecimalParses(n: nat)
    ensures '-' !in Decimal(n)
    ensures ParseU64(Decimal(n)) == if n < TWO_64 then Some(n) else None
  {
    hide Value, Decimal;
    DecimalValue(n);
    assert Digit(Decimal(n)[0]);
  }

  function Spelled(d: Date): string {
    Decimal(d.year) + "-" + (Decimal(d.month) + "-" + Decimal(d.day))
  }

  /**
   * Year, month and day in decimal and joined by dashes, in this order, are read as that date; a valid one is converted
   * to 86400 times its day number unless that overflows.
   */
  lemma {:induction false} SpelledDateParses(d: Date)
    requires d.year < TWO_64 && d.month < TWO_64 && d.day < TWO_64
    ensures DateOf(Spelled(d)) == Some(d)
    ensures Valid(d) ==> Days(d) >= 0
    ensures ParseDate(Spelled(d)) ==
      if Valid(d) && DAY_SECONDS * Days(d) < TWO_64 then Some(DAY_SECONDS * Days(d)) else None
  {
    hide Decimal, ParseU64, Split, Seconds, Days, Valid;
    DecimalParses(d.year);
    DecimalParses(d.month);
    DecimalParses(d.day);
    SplitField(Decimal(d.year), Decimal(d.month) + "-" + Decimal(d.day));
    SplitField(Decimal(d.month), Decimal(d.day));
    SplitLast(Decimal(d.day));
    if Valid(d) { SecondsExact(d); }
  }
}
