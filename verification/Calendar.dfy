/** Calendar months over epoch milliseconds (hub/compiler.py, `_month_bounds`, `_window_of`).

    A month is numbered from January 1970; every time the store accepts is later. */
module Calendar {
  import opened Journal

  predicate Leap(year: nat) { year % 4 == 0 && (year % 100 != 0 || year % 400 == 0) }

  function MonthLength(m: nat): (days: nat)
    ensures 28 <= days <= 31
  {
    match m % 12
    case 1 => if Leap(1970 + m / 12) then 29 else 28
    case 3 => 30
    case 5 => 30
    case 8 => 30
    case 10 => 30
    case _ => 31
  }

  /** The first millisecond of a month. */
  function MonthStart(m: nat): nat {
    if m == 0 then 0 else MonthStart(m - 1) + MonthLength(m - 1) * DAY_MS
  }

  lemma {:induction false} MonthsAscend(m: nat, n: nat)
    ensures m < n <==> MonthStart(m) < MonthStart(n)
    ensures m == n <==> MonthStart(m) == MonthStart(n)
    decreases m + n
  {
    if m < n {
      MonthsAscend(m, n - 1);
    } else if n < m {
      MonthsAscend(m - 1, n);
    }
  }

  function MonthFrom(t: nat, m: nat): (r: nat)
    requires MonthStart(m) <= t
    ensures MonthStart(r) <= t < MonthStart(r + 1)
    decreases t - MonthStart(m)
  {
    if t < MonthStart(m + 1) then m else MonthFrom(t, m + 1)
  }

  /** The month a time falls in: `_window_of`. */
  function MonthOf(t: int): (r: nat)
    ensures t >= 0 ==> MonthStart(r) <= t < MonthStart(r + 1)
  {
    if t < 0 then 0 else MonthFrom(t, 0)
  }

  /** The bounds of a month hold exactly the times of that month. */
  lemma MonthBounds(t: nat, m: nat)
    ensures MonthOf(t) == m <==> MonthStart(m) <= t < MonthStart(m + 1)
    ensures MonthOf(t) < m <==> t < MonthStart(m)
  {
    var r := MonthOf(t);
    MonthsAscend(r, m);
    MonthsAscend(m, r + 1);
    MonthsAscend(r + 1, m);
    MonthsAscend(r, m + 1);
  }

  lemma {:induction false} MonthsBeginDays(m: nat)
    ensures MonthStart(m) == (MonthStart(m) / DAY_MS) * DAY_MS
  {
    if m != 0 { MonthsBeginDays(m - 1); }
  }

  /** The month read off a day file's name is the month of every record in it. */
  lemma MonthOfDay(t: nat)
    ensures MonthOf(DayOf(t) * DAY_MS) == MonthOf(t)
  {
    var m := MonthOf(t);
    MonthsBeginDays(m);
    MonthsBeginDays(m + 1);
    SameDay(t, MonthStart(m) / DAY_MS);
    SameDay(t, MonthStart(m + 1) / DAY_MS);
    MonthBounds(DayOf(t) * DAY_MS, m);
  }

  lemma SameDay(t: nat, d: nat)
    ensures d * DAY_MS <= t <==> d * DAY_MS <= DayOf(t) * DAY_MS
  {}

  // ---------------------------------------------------------------- the Gregorian calendar

  /** Days from the first of January 1970 to the first of a month, in closed form: years counted from
      March, so that a leap day is the last of its year, and months of 153 days to the five. */
  function CivilDays(year: nat, month: nat): int
    requires year >= 1 && 1 <= month <= 12
  {
    DaysOfYears(if month <= 2 then year - 1 else year) + DaysOfMonths(month) - 719_468
  }

  function DaysOfYears(y: nat): nat { 365 * y + y / 4 - y / 100 + y / 400 }

  function DaysOfMonths(month: nat): nat { (153 * ((month + 9) % 12) + 2) / 5 }

  function CivilOf(m: nat): int { CivilDays(1970 + m / 12, m % 12 + 1) }

  lemma By4(y: nat)
    ensures (y + 1) / 4 == y / 4 + if (y + 1) % 4 == 0 then 1 else 0
  {}

  lemma By100(y: nat)
    ensures (y + 1) / 100 == y / 100 + if (y + 1) % 100 == 0 then 1 else 0
    ensures (y + 1) % 100 == 0 ==> (y + 1) % 4 == 0
  {
    if (y + 1) % 100 == 0 {
      var c := (y + 1) / 100;
      assert y + 1 == 4 * (25 * c);
    }
  }

  lemma By400(y: nat)
    ensures (y + 1) / 400 == y / 400 + if (y + 1) % 400 == 0 then 1 else 0
    ensures (y + 1) % 400 == 0 ==> (y + 1) % 100 == 0
  {
    if (y + 1) % 400 == 0 {
      var c := (y + 1) / 400;
      assert y + 1 == 100 * (4 * c);
    }
  }

  lemma NextYear(y: nat)
    ensures DaysOfYears(y + 1) == DaysOfYears(y) + if Leap(y + 1) then 366 else 365
  {
    By4(y);
    By100(y);
    By400(y);
  }

  lemma MonthParts()
    ensures DaysOfMonths(3) == 0 && DaysOfMonths(4) == 31 && DaysOfMonths(5) == 61 && DaysOfMonths(6) == 92
    ensures DaysOfMonths(7) == 122 && DaysOfMonths(8) == 153 && DaysOfMonths(9) == 184 && DaysOfMonths(10) == 214
    ensures DaysOfMonths(11) == 245 && DaysOfMonths(12) == 275 && DaysOfMonths(1) == 306 && DaysOfMonths(2) == 337
  {}

  function NextOf(year: nat, month: nat): (nat, nat) { if month == 12 then (year + 1, 1) else (year, month + 1) }

  lemma NextMonth(m: nat, q: nat, r: nat)
    requires q == m / 12 && r == m % 12
    ensures (m + 1) / 12 == (if r == 11 then q + 1 else q) && (m + 1) % 12 == (if r == 11 then 0 else r + 1)
  {}

  lemma MonthIsCivil(m: nat, year: nat, month: nat)
    requires year == 1970 + m / 12 && month == m % 12 + 1
    ensures var n := NextOf(year, month); CivilDays(n.0, n.1) == CivilDays(year, month) + MonthLength(m)
  {
    MonthParts();
    if month == 2 { NextYear(year - 1); }
  }

  lemma CivilStep(m: nat)
    ensures CivilOf(m + 1) == CivilOf(m) + MonthLength(m)
  {
    NextMonth(m, m / 12, m % 12);
    MonthIsCivil(m, 1970 + m / 12, m % 12 + 1);
  }

  lemma {:induction false} MonthsFollow(civil: nat -> int, m: nat)
    requires civil(0) == 0 && forall k: nat :: civil(k + 1) == civil(k) + MonthLength(k)
    ensures MonthStart(m) == civil(m) * DAY_MS
  {
    if m == 0 {
    } else {
      MonthsFollow(civil, m - 1);
      assert civil(m - 1 + 1) == civil(m - 1) + MonthLength(m - 1);
    }
  }

  /** The months here are the calendar's. */
  lemma MonthsAreCivil(m: nat)
    ensures MonthStart(m) == CivilDays(1970 + m / 12, m % 12 + 1) * DAY_MS
  {
    MonthParts();
    assert CivilOf(0) == 0;
    forall k: nat ensures CivilOf(k + 1) == CivilOf(k) + MonthLength(k) { CivilStep(k); }
    MonthsFollow(CivilOf, m);
  }
}
