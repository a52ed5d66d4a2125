/** Calendar dates as java.time.LocalDate handles them (proleptic Gregorian
    calendar), with the two date helpers the services use: adding whole
    months to today and the age in whole years of a date of birth. */
module Dates {

  datatype Date = Date(year: int, month: int, day: int)

  predicate IsLeapYear(year: int) {
    year % 4 == 0 && (year % 100 != 0 || year % 400 == 0)
  }

  function LengthOfMonth(year: int, month: int): (n: int)
    requires 1 <= month <= 12
    ensures 28 <= n <= 31
    ensures month == 2 ==> (n == 29 <==> IsLeapYear(year))
  {
    if month == 2 then (if IsLeapYear(year) then 29 else 28)
    else if month == 4 || month == 6 || month == 9 || month == 11 then 30
    else 31
  }

  predicate Valid(d: Date) {
    1 <= d.month <= 12 && 1 <= d.day <= LengthOfMonth(d.year, d.month)
  }

  /** Months since year 0, January: java.time's "proleptic month". */
  function ProlepticMonth(d: Date): int {
    d.year * 12 + d.month - 1
  }

  /** Calendar order: by (year, month), then by day. */
  predicate OnOrBefore(a: Date, b: Date) {
    ProlepticMonth(a) < ProlepticMonth(b)
    || (ProlepticMonth(a) == ProlepticMonth(b) && a.day <= b.day)
  }

  predicate Before(a: Date, b: Date) {
    OnOrBefore(a, b) && a != b
  }

  function Min(a: int, b: int): int {
    if a <= b then a else b
  }

  /** LocalDate.plusMonths: move the (year, month) pair by `months`, then
      clamp the day to the length of the month reached. */
  function PlusMonths(d: Date, months: int): (r: Date)
    requires Valid(d)
    ensures Valid(r)
    ensures ProlepticMonth(r) == ProlepticMonth(d) + months
    ensures r.day <= d.day
    ensures r.day == d.day || r.day == LengthOfMonth(r.year, r.month)
    ensures d.day <= LengthOfMonth(r.year, r.month) ==> r.day == d.day
  {
    var target := ProlepticMonth(d) + months;
    var year := target / 12;
    var month := target % 12 + 1;
    Date(year, month, Min(d.day, LengthOfMonth(year, month)))
  }

  /** LocalDateUtils.getFutureDateBasedInMonthsQuantity, with the clock's
      date passed in as `today`. */
  function FutureDate(today: Date, months: int): (r: Date)
    requires Valid(today)
    ensures Valid(r)
    ensures ProlepticMonth(r) == ProlepticMonth(today) + months
  {
    PlusMonths(today, months)
  }

  /** Two valid dates in the same month of the same year differ at most in the day. */
  lemma SameProlepticMonth(a: Date, b: Date)
    requires Valid(a) && Valid(b)
    requires ProlepticMonth(a) == ProlepticMonth(b)
    ensures a.year == b.year && a.month == b.month
  {
  }

  /** Adding no months gives the same date back. */
  lemma PlusZeroMonths(d: Date)
    requires Valid(d)
    ensures PlusMonths(d, 0) == d
  {
    SameProlepticMonth(d, PlusMonths(d, 0));
  }

  /** Adding a non-negative number of months never moves a date backwards. */
  lemma PlusMonthsNotBefore(d: Date, months: int)
    requires Valid(d) && months >= 0
    ensures OnOrBefore(d, PlusMonths(d, months))
  {
    if months == 0 {
      PlusZeroMonths(d);
    }
  }

  /** Adding months is monotonic in the number of months. */
  lemma PlusMonthsMonotonic(d: Date, m1: int, m2: int)
    requires Valid(d) && m1 <= m2
    ensures OnOrBefore(PlusMonths(d, m1), PlusMonths(d, m2))
  {
    if m1 == m2 {
    } else {
      assert ProlepticMonth(PlusMonths(d, m1)) < ProlepticMonth(PlusMonths(d, m2));
    }
  }

  /** The day is clamped: 31 January 2024 plus one month is 29 February 2024. */
  lemma EndOfJanuaryPlusOneMonth()
    ensures PlusMonths(Date(2024, 1, 31), 1) == Date(2024, 2, 29)
    ensures PlusMonths(Date(2023, 1, 31), 1) == Date(2023, 2, 28)
  {
  }

  /** Month addition does not compose when a day is clamped on the way. */
  lemma PlusMonthsNotAdditive()
    ensures PlusMonths(PlusMonths(Date(2024, 1, 31), 1), 1) == Date(2024, 3, 29)
    ensures PlusMonths(Date(2024, 1, 31), 2) == Date(2024, 3, 31)
  {
  }

  /** Java's long division, which truncates toward zero. */
  function JavaDiv(a: int, b: int): (q: int)
    requires b > 0
    ensures a >= 0 ==> q == a / b
    ensures a < 0 ==> q == -((-a) / b)
  {
    if a >= 0 then a / b else -((-a) / b)
  }

  /** LocalDateUtils.getAgeByDateOfBirth: the years part of
      Period.between(dateOfBirth, today). The month count is reduced by one
      when today's day of month has not yet reached the birth day (and
      symmetrically for negative periods); the years are that count
      divided by 12, truncated toward zero. */
  function AgeInYears(dateOfBirth: Date, today: Date): (age: int)
    ensures OnOrBefore(dateOfBirth, today) ==> age >= 0
    ensures dateOfBirth == today ==> age == 0
  {
    var totalMonths := ProlepticMonth(today) - ProlepticMonth(dateOfBirth);
    var days := today.day - dateOfBirth.day;
    var months :=
      if totalMonths > 0 && days < 0 then totalMonths - 1
      else if totalMonths < 0 && days > 0 then totalMonths + 1
      else totalMonths;
    JavaDiv(months, 12)
  }

  /** The n-th anniversary of a date (same month and day, n years later)
      has been reached by `today`. The anniversary of 29 February in a
      common year counts as reached on 1 March, as Period.between has it. */
  predicate AnniversaryReached(dateOfBirth: Date, today: Date, n: int) {
    OnOrBefore(Date(dateOfBirth.year + n, dateOfBirth.month, dateOfBirth.day), today)
  }

  /** The age is the number of whole years elapsed: it is at least n exactly
      when the n-th anniversary has been reached. */
  lemma AgeIsWholeYears(dateOfBirth: Date, today: Date, n: int)
    requires OnOrBefore(dateOfBirth, today) && n >= 0
    ensures AgeInYears(dateOfBirth, today) >= n <==> AnniversaryReached(dateOfBirth, today, n)
  {
    var totalMonths := ProlepticMonth(today) - ProlepticMonth(dateOfBirth);
    var days := today.day - dateOfBirth.day;
    var months := if totalMonths > 0 && days < 0 then totalMonths - 1 else totalMonths;
    assert months >= 0;
    assert AgeInYears(dateOfBirth, today) == months / 12;
    assert months / 12 >= n <==> months >= 12 * n;
    assert ProlepticMonth(Date(dateOfBirth.year + n, dateOfBirth.month, dateOfBirth.day))
        == ProlepticMonth(dateOfBirth) + 12 * n;
  }

  /** Age never decreases as today advances. */
  lemma AgeMonotonic(dateOfBirth: Date, today1: Date, today2: Date)
    requires OnOrBefore(dateOfBirth, today1) && OnOrBefore(today1, today2)
    ensures AgeInYears(dateOfBirth, today1) <= AgeInYears(dateOfBirth, today2)
  {
    var n := AgeInYears(dateOfBirth, today1);
    AgeIsWholeYears(dateOfBirth, today1, n);
    AgeIsWholeYears(dateOfBirth, today2, n);
  }

  /** Someone born on 29 February 2008 is still 17 on 28 February 2026
      and 18 from 1 March 2026. */
  lemma LeapDayBirthday()
    ensures AgeInYears(Date(2008, 2, 29), Date(2026, 2, 28)) == 17
    ensures AgeInYears(Date(2008, 2, 29), Date(2026, 3, 1)) == 18
  {
  }
}
