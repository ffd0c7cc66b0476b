/** The UTC days and months that send counters are kept for, in days and seconds
    since 1970-01-01, and the civil calendar they agree with. */
module Calendar {

  const DAY: nat := 86400
  /** How far a reservation's timestamp may lag behind the clock. */
  const MAX_LAG: nat := 31 * DAY

  predicate Leap(year: nat) {
    year % 4 == 0 && (year % 100 != 0 || year % 400 == 0)
  }

  function DaysIn(year: nat, month: nat): (days: nat)
    ensures 28 <= days <= 31
  {
    if month == 2 then (if Leap(year) then 29 else 28)
    else if month == 4 || month == 6 || month == 9 || month == 11 then 30
    else 31
  }

  function MonthFrom(start: nat, year: nat, month: nat, day: nat): (first: nat)
    requires start <= day
    ensures start <= first <= day < first + 31
    decreases day - start
  {
    var next := start + DaysIn(year, month);
    if day < next then start
    else MonthFrom(next, if month == 12 then year + 1 else year, if month == 12 then 1 else month + 1, day)
  }

  function DayStart(now: nat): (start: nat)
    ensures start <= now < start + DAY
  {
    now / DAY * DAY
  }

  function MonthStart(now: nat): (start: nat)
    ensures start <= DayStart(now) && now < start + MAX_LAG
  {
    MonthFrom(0, 1970, 1, now / DAY) * DAY
  }

  /** Every instant from the first of the month up to `now` is in that month. */
  lemma {:induction false} SameMonth(start: nat, year: nat, month: nat, day: nat, other: nat)
    requires start <= day && MonthFrom(start, year, month, day) <= other <= day
    ensures MonthFrom(start, year, month, other) == MonthFrom(start, year, month, day)
    decreases day - start
  {
    var next := start + DaysIn(year, month);
    if day >= next {
      SameMonth(next, if month == 12 then year + 1 else year, if month == 12 then 1 else month + 1, day, other);
    }
  }

  lemma MonthIsAPeriod(now: nat, other: nat)
    requires MonthStart(now) <= other <= now
    ensures MonthStart(other) == MonthStart(now)
  {
    SameMonth(0, 1970, 1, now / DAY, other / DAY);
  }

  /** Two instants share a day counter's period exactly when they fall on one UTC day. */
  lemma DayIsAPeriod(a: nat, b: nat)
    ensures DayStart(a) == DayStart(b) <==> a / 86400 == b / 86400
    ensures DayStart(a) == (a / 86400) * 86400
  {
  }

  // ---- the civil calendar, in closed form ----

  /** The leap days before the year, counted from 1970. */
  function LeapDaysBefore(year: nat): int
    requires year >= 1970
  {
    (year - 1) / 4 - (year - 1) / 100 + (year - 1) / 400 - 477
  }

  function DaysBeforeMonth(year: nat, month: nat): nat
    requires 1 <= month <= 12
  {
    [0, 31, 59, 90, 120, 151, 181, 212, 243, 273, 304, 334][month - 1] + if month > 2 && Leap(year) then 1 else 0
  }

  /** The day number of the first of the month. */
  function FirstOf(year: nat, month: nat): int
    requires year >= 1970 && 1 <= month <= 12
  {
    365 * (year - 1970) + LeapDaysBefore(year) + DaysBeforeMonth(year, month)
  }

  function NextYear(year: nat, month: nat): nat {
    if month == 12 then year + 1 else year
  }

  function NextMonth(month: nat): nat {
    if month == 12 then 1 else month + 1
  }

  /** Day `day` of the epoch lies in the month. */
  predicate InMonth(day: int, year: nat, month: nat)
    requires year >= 1970 && 1 <= month <= 12
  {
    FirstOf(year, month) <= day < FirstOf(NextYear(year, month), NextMonth(month))
  }

  lemma FourthYears(year: nat)
    requires year > 0
    ensures year / 4 == (year - 1) / 4 + if year % 4 == 0 then 1 else 0
  {
  }

  lemma Centuries(year: nat)
    requires year > 0
    ensures year / 100 == (year - 1) / 100 + if year % 100 == 0 then 1 else 0
  {
  }

  lemma FourCenturies(year: nat)
    requires year > 0
    ensures year / 400 == (year - 1) / 400 + if year % 400 == 0 then 1 else 0
  {
  }

  lemma LeapsAreCounted(year: nat)
    ensures (if Leap(year) then 1 else 0) == (if year % 4 == 0 then 1 else 0) - (if year % 100 == 0 then 1 else 0)
            + (if year % 400 == 0 then 1 else 0)
  {
    if year % 100 == 0 {
      CenturyIsFourth(year / 100);
    }
    if year % 400 == 0 {
      FourCenturiesAreCenturies(year / 400);
    }
  }

  lemma CenturyIsFourth(k: nat)
    ensures 100 * k % 4 == 0
  {
    MultipleOfFour(25 * k);
  }

  lemma MultipleOfFour(k: nat)
    ensures 4 * k % 4 == 0
  {
  }

  lemma FourCenturiesAreCenturies(k: nat)
    ensures 400 * k % 100 == 0
  {
    MultipleOfHundred(4 * k);
  }

  lemma MultipleOfHundred(k: nat)
    ensures 100 * k % 100 == 0
  {
  }

  lemma LeapDaysGrow(year: nat)
    requires year >= 1970
    ensures LeapDaysBefore(year + 1) == LeapDaysBefore(year) + if Leap(year) then 1 else 0
  {
    FourthYears(year);
    Centuries(year);
    FourCenturies(year);
    LeapsAreCounted(year);
  }

  lemma MonthLength(year: nat, month: nat)
    requires year >= 1970 && 1 <= month <= 12
    ensures FirstOf(NextYear(year, month), NextMonth(month)) == FirstOf(year, month) + DaysIn(year, month)
  {
    LeapDaysGrow(year);
  }

  function MonthIndex(year: nat, month: nat): nat {
    12 * year + month
  }

  lemma {:induction false} MonthsAscend(year: nat, month: nat, laterYear: nat, laterMonth: nat)
    requires year >= 1970 && 1 <= month <= 12 && laterYear >= 1970 && 1 <= laterMonth <= 12
    requires MonthIndex(year, month) <= MonthIndex(laterYear, laterMonth)
    ensures FirstOf(year, month) <= FirstOf(laterYear, laterMonth)
    ensures MonthIndex(year, month) < MonthIndex(laterYear, laterMonth) ==>
              FirstOf(NextYear(year, month), NextMonth(month)) <= FirstOf(laterYear, laterMonth)
    decreases MonthIndex(laterYear, laterMonth) - MonthIndex(year, month)
  {
    hide FirstOf;
    if MonthIndex(year, month) < MonthIndex(laterYear, laterMonth) {
      MonthLength(year, month);
      MonthsAscend(NextYear(year, month), NextMonth(month), laterYear, laterMonth);
    }
  }

  lemma {:induction false} MonthFromIsCivil(year: nat, month: nat, laterYear: nat, laterMonth: nat, day: nat)
    requires year >= 1970 && 1 <= month <= 12 && laterYear >= 1970 && 1 <= laterMonth <= 12
    requires MonthIndex(year, month) <= MonthIndex(laterYear, laterMonth)
    requires InMonth(day, laterYear, laterMonth) && 0 <= FirstOf(year, month) <= day
    ensures MonthFrom(FirstOf(year, month), year, month, day) == FirstOf(laterYear, laterMonth)
    decreases MonthIndex(laterYear, laterMonth) - MonthIndex(year, month)
  {
    hide FirstOf;
    MonthLength(year, month);
    MonthsAscend(year, month, laterYear, laterMonth);
    if MonthIndex(year, month) < MonthIndex(laterYear, laterMonth) {
      MonthFromIsCivil(NextYear(year, month), NextMonth(month), laterYear, laterMonth, day);
    }
  }

  lemma EpochIsFirst()
    ensures FirstOf(1970, 1) == 0
  {
  }

  /** A month counter's period starts at midnight of the first of the civil month. */
  lemma MonthStartIsCivil(now: nat, year: nat, month: nat)
    requires year >= 1970 && 1 <= month <= 12 && InMonth(now / 86400, year, month)
    ensures MonthStart(now) == FirstOf(year, month) * 86400
  {
    hide FirstOf;
    EpochIsFirst();
    MonthFromIsCivil(1970, 1, year, month, now / 86400);
  }

  /** An instant shares the month counter's period with a civil month exactly when
      it falls in that month. */
  lemma MonthPeriodIsCivil(now: nat, year: nat, month: nat)
    requires year >= 1970 && 1 <= month <= 12
    ensures MonthStart(now) == FirstOf(year, month) * 86400 <==> InMonth(now / 86400, year, month)
  {
    hide FirstOf;
    if InMonth(now / 86400, year, month) {
      MonthStartIsCivil(now, year, month);
    } else {
      var y, m := CivilMonth(now / 86400);
      MonthStartIsCivil(now, y, m);
      DistinctMonths(y, m, year, month, now / 86400);
    }
  }

  lemma DistinctMonths(year: nat, month: nat, otherYear: nat, otherMonth: nat, day: nat)
    requires year >= 1970 && 1 <= month <= 12 && otherYear >= 1970 && 1 <= otherMonth <= 12
    requires InMonth(day, year, month) && !InMonth(day, otherYear, otherMonth)
    ensures FirstOf(year, month) != FirstOf(otherYear, otherMonth)
  {
    hide FirstOf;
    MonthLength(year, month);
    MonthLength(otherYear, otherMonth);
    if MonthIndex(year, month) <= MonthIndex(otherYear, otherMonth) {
      MonthsAscend(year, month, otherYear, otherMonth);
    } else {
      MonthsAscend(otherYear, otherMonth, year, month);
    }
  }

  /** Every day of the epoch lies in a civil month. */
  lemma {:induction false} CivilMonth(day: nat) returns (year: nat, month: nat)
    ensures year >= 1970 && 1 <= month <= 12 && InMonth(day, year, month)
  {
    EpochIsFirst();
    year, month := 1970, 1;
    hide FirstOf;
    while !InMonth(day, year, month)
      invariant year >= 1970 && 1 <= month <= 12 && FirstOf(year, month) <= day
      decreases day - FirstOf(year, month)
    {
      MonthLength(year, month);
      year, month := NextYear(year, month), NextMonth(month);
    }
  }
}
