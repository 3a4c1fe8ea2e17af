/** Calendar months of the Gregorian calendar, counted from January of year 0, and instants in
    nanoseconds from there, in UTC. */
module Months {
  type Time = int

  const DAY: int := 86_400_000_000_000

  predicate IsLeap(year: int) { year % 4 == 0 && (year % 100 != 0 || year % 400 == 0) }

  /** The length of month k % 12 of year k / 12. */
  function DaysIn(k: int): (d: int)
    ensures 28 <= d <= 31
  {
    var m := k % 12;
    if m == 1 then (if IsLeap(k / 12) then 29 else 28)
    else if m == 3 || m == 5 || m == 8 || m == 10 then 30
    else 31
  }

  /** Days before month k. */
  function FirstDay(k: int): int
    decreases if k < 0 then -k else k
  {
    if k == 0 then 0
    else if k > 0 then FirstDay(k - 1) + DaysIn(k - 1)
    else FirstDay(k + 1) - DaysIn(k)
  }

  /** The first instant of month k. */
  function Start(k: int): Time { FirstDay(k) * DAY }

  lemma NextMonth(k: int)
    ensures FirstDay(k + 1) == FirstDay(k) + DaysIn(k)
    ensures Start(k + 1) == Start(k) + DaysIn(k) * DAY
  {}

  lemma {:induction false} MonthsAscend(j: int, k: int)
    requires j <= k
    ensures FirstDay(k) >= FirstDay(j) + 28 * (k - j)
    ensures FirstDay(k) <= FirstDay(j) + 31 * (k - j)
    decreases k - j
  {
    if j < k {
      MonthsAscend(j, k - 1);
      NextMonth(k - 1);
    }
  }

  lemma StartsAscend(j: int, k: int)
    ensures j < k <==> Start(j) < Start(k)
    ensures j <= k <==> Start(j) <= Start(k)
  {
    if j <= k { MonthsAscend(j, k); } else { MonthsAscend(k, j); }
  }

  /** The calendar in one formula: years from March, with their leap days, and 153 days in five months. */
  function DayNumber(k: int): int {
    var year, month := (k - 2) / 12, (k - 2) % 12;
    60 + 365 * year + year / 4 - year / 100 + year / 400 + (153 * month + 2) / 5
  }

  lemma LeapDays(year: int)
    ensures (year + 1) / 4 - (year + 1) / 100 + (year + 1) / 400 ==
            year / 4 - year / 100 + year / 400 + if IsLeap(year + 1) then 1 else 0
  {
    assert (year + 1) / 4 == year / 4 + if (year + 1) % 4 == 0 then 1 else 0;
    assert (year + 1) / 100 == year / 100 + if (year + 1) % 100 == 0 then 1 else 0;
    assert (year + 1) / 400 == year / 400 + if (year + 1) % 400 == 0 then 1 else 0;
    assert (year + 1) % 400 == 0 ==> (year + 1) % 100 == 0;
    assert (year + 1) % 100 == 0 ==> (year + 1) % 4 == 0;
  }

  lemma DayNumberSteps(k: int)
    ensures DayNumber(k + 1) == DayNumber(k) + DaysIn(k)
  {
    var year, month := (k - 2) / 12, (k - 2) % 12;
    assert k - 2 == 12 * year + month;
    if month == 11 {
      assert k / 12 == year + 1 && k % 12 == 1;
      assert (k - 1) / 12 == year + 1 && (k - 1) % 12 == 0;
      LeapDays(year);
    } else {
      assert (k - 1) / 12 == year && (k - 1) % 12 == month + 1;
    }
  }

  /** Counting month by month comes to the formula, before year 0 as well. */
  lemma {:induction false} FirstDayIsDayNumber(k: int)
    ensures FirstDay(k) == DayNumber(k)
    decreases if k < 0 then -k else k
  {
    if k > 0 {
      FirstDayIsDayNumber(k - 1);
      DayNumberSteps(k - 1);
    } else if k < 0 {
      FirstDayIsDayNumber(k + 1);
      DayNumberSteps(k);
    }
  }

  predicate InMonth(t: Time, k: int) { Start(k) <= t < Start(k + 1) }

  function MonthUp(k: int, t: Time): (m: int)
    requires Start(k) <= t
    ensures InMonth(t, m)
    decreases t - Start(k)
  {
    NextMonth(k);
    if t < Start(k + 1) then k else MonthUp(k + 1, t)
  }

  function MonthDown(k: int, t: Time): (m: int)
    requires t < Start(k + 1)
    ensures InMonth(t, m)
    decreases Start(k + 1) - t
  {
    NextMonth(k);
    if Start(k) <= t then k else MonthDown(k - 1, t)
  }

  /** The month of an instant. */
  function MonthOf(t: Time): (k: int)
    ensures InMonth(t, k)
  {
    if t >= 0 then MonthUp(0, t) else MonthDown(-1, t)
  }

  /** Months follow instants. */
  lemma MonthOfIsMonotone(t: Time, u: Time)
    requires t <= u
    ensures MonthOf(t) <= MonthOf(u)
  {
    StartsAscend(MonthOf(t), MonthOf(u) + 1);
  }

  /** time.AddDate(0, n, 0): days past the end of the month run into the next one. */
  function AddMonths(t: Time, n: int): Time {
    Start(MonthOf(t) + n) + (t - Start(MonthOf(t)))
  }

  lemma AddMonthsLands(t: Time, n: int)
    ensures MonthOf(t) + n <= MonthOf(AddMonths(t, n)) <= MonthOf(t) + n + 1
  {
    var m, u := MonthOf(t), AddMonths(t, n);
    NextMonth(m);
    NextMonth(m + n);
    NextMonth(m + n + 1);
    assert Start(m + n) <= u < Start(m + n + 2);
    StartsAscend(m + n, MonthOf(u) + 1);
    StartsAscend(MonthOf(u), m + n + 2);
  }
}
