/** The clock the rules are compared with, and how often a weekly rule's minute comes round. */
module RuleClock {
  import opened Types

  const MINUTES_PER_DAY: nat := 1440
  const MINUTES_PER_WEEK: nat := 10080

  /** One reading of the RTC. The calendar date is computed by libc and stays a parameter. */
  datatype Date = Date(year: int, month: int, day: int)
  datatype Clock = Clock(date: Date, weekDay: nat, hour: nat, minute: nat)

  /** The reading at `now` seconds after 1970-01-01, a Thursday. */
  function At(now: nat, date: Date): Clock {
    Clock(date, (now / 86400 + 4) % 7, now / 3600 % 24, now / 60 % 60)
  }

  /** Thursday 1970-01-01, Monday 2024-01-01 and Sunday 2024-12-29; Sunday is day 0. */
  lemma KnownDays(date: Date)
    ensures At(0, date) == Clock(date, 4, 0, 0)
    ensures At(1704067200, date) == Clock(date, 1, 0, 0)
    ensures At(1735516799, date) == Clock(date, 0, 23, 59)
  {
  }

  /** Bit `d` of a mask. */
  predicate Bit(mask: nat, d: nat) {
    if d == 0 then mask % 2 == 1 else Bit(mask / 2, d - 1)
  }

  function PopCount(mask: nat): nat {
    if mask == 0 then 0 else mask % 2 + PopCount(mask / 2)
  }

  /** `check_rules`, with `is_week_days_match`, `is_date_match` and `is_time_match`. */
  predicate Matches(r: Rule, c: Clock) {
    var timeMatches := c.hour == r.hour && c.minute == r.minutes;
    if r.period == WEEKLY then Bit(r.weekDays, c.weekDay) && timeMatches
    else if r.period == SPECIF then c.date == Date(r.year, r.month, r.day) && timeMatches
    else false
  }

  const MAX_WEEK_DAYS_MASK_VALUE: nat := 0x7F

  /** `MQTT::validate_payload`. */
  predicate ValidPayload(r: Rule) {
    && (if r.period == WEEKLY then 1 <= r.weekDays <= MAX_WEEK_DAYS_MASK_VALUE
        else if r.period == SPECIF then 1 <= r.day <= 31 && 1 <= r.month <= 12
        else false)
    && r.hour <= 23 && r.minutes <= 59
  }

  predicate LeapYear(year: int) { year % 4 == 0 && (year % 100 != 0 || year % 400 == 0) }

  /** The length of a month; January is 0, as in `tm_mon`. */
  function DaysIn(year: int, month: int): nat {
    if month == 1 then if LeapYear(year) then 29 else 28
    else if month == 3 || month == 5 || month == 8 || month == 10 then 30
    else 31
  }

  /** A calendar date as the RTC reads it: `tm_mon` counts months from 0 although accepted rules count them from 1. */
  predicate ReadByRtc(d: Date) { 0 <= d.month <= 11 && 1 <= d.day <= DaysIn(d.year, d.month) }

  /** The date a one-shot rule names, as the RTC reads it. */
  function NamedDate(r: Rule): Date { Date(r.year, r.month - 1, r.day) }

  /** An accepted one-shot rule can match some reading exactly if the month after the one it names has that day. */
  lemma OneShotCanMatchIff(r: Rule)
    requires ValidPayload(r) && r.period == SPECIF
    ensures (exists c: Clock :: ReadByRtc(c.date) && Matches(r, c)) <==>
            r.month < 12 && r.day <= DaysIn(r.year, r.month)
  {
    if r.month < 12 && r.day <= DaysIn(r.year, r.month) {
      var c := Clock(Date(r.year, r.month, r.day), 0, r.hour, r.minutes);
      assert ReadByRtc(c.date) && Matches(r, c);
    }
  }

  /** On the date it names an accepted one-shot rule never matches; when it does match, it is a month late. */
  lemma OneShotIsAMonthLate(r: Rule, c: Clock)
    requires r.period == SPECIF && Matches(r, c)
    ensures c.date != NamedDate(r) && c.date.month == NamedDate(r).month + 1
    ensures c.date.year == NamedDate(r).year && c.date.day == NamedDate(r).day
  {
  }

  /** Does a weekly rule match during minute `m` after the epoch? */
  predicate Due(r: Rule, m: nat) {
    Bit(r.weekDays, (m / MINUTES_PER_DAY + 4) % 7) && m % MINUTES_PER_DAY == r.hour * 60 + r.minutes
  }

  lemma MatchesIffDue(r: Rule, now: nat, date: Date)
    requires ValidPayload(r) && r.period == WEEKLY
    ensures Matches(r, At(now, date)) <==> Due(r, now / 60)
  {
    hide Bit;
    MinuteOfDay(now);
    SameTimeIff(now / 3600 % 24, now / 60 % 60, r.hour, r.minutes);
  }

  lemma MinuteOfDay(now: nat)
    ensures now / 86400 == now / 60 / MINUTES_PER_DAY
    ensures now / 60 % MINUTES_PER_DAY == now / 3600 % 24 * 60 + now / 60 % 60
  {
    var m := now / 60;
    assert now / 3600 == m / 60;
    assert m / 60 / 24 == m / MINUTES_PER_DAY;
  }

  lemma SameTimeIff(h: nat, m: nat, hour: nat, minute: nat)
    requires m < 60 && minute < 60
    ensures h * 60 + m == hour * 60 + minute <==> h == hour && m == minute
  {
  }

  /** A one-shot rule matches exactly on its date, in its minute of the day. */
  lemma MatchesIffItsMinute(r: Rule, now: nat, date: Date)
    requires ValidPayload(r) && r.period == SPECIF
    ensures Matches(r, At(now, date)) <==>
            date == Date(r.year, r.month, r.day) && now / 60 % MINUTES_PER_DAY == r.hour * 60 + r.minutes
  {
    MinuteOfDay(now);
    SameTimeIff(now / 3600 % 24, now / 60 % 60, r.hour, r.minutes);
  }

  lemma {:induction false} BitIsHalved(mask: nat, d: nat)
    requires Bit(mask, d)
    ensures mask >= Pow2(d)
  {
    if d > 0 {
      BitIsHalved(mask / 2, d - 1);
    }
  }

  /** A nonzero mask has a bit, and if the mask is below 2^n it is one of the first n. */
  lemma {:induction false} SomeBit(mask: nat, n: nat) returns (d: nat)
    requires 0 < mask < Pow2(n)
    ensures d < n && Bit(mask, d)
  {
    if mask % 2 == 1 {
      d := 0;
    } else {
      d := SomeBit(mask / 2, n - 1);
      d := d + 1;
    }
  }

  /** The start of a minute of the week, from Sunday midnight, 1970-01-04. */
  function MinuteOfWeek(day: nat, hour: nat, minute: nat): nat { (day + 3) * 86400 + hour * 3600 + minute * 60 }

  lemma ReadsMinuteOfWeek(day: nat, hour: nat, minute: nat, date: Date)
    requires day < 7 && hour < 24 && minute < 60
    ensures At(MinuteOfWeek(day, hour, minute), date) == Clock(date, day, hour, minute)
  {
    var now := MinuteOfWeek(day, hour, minute);
    assert now / 86400 == day + 3;
    assert now / 3600 == (day + 3) * 24 + hour;
    assert now / 60 == ((day + 3) * 24 + hour) * 60 + minute;
  }

  /** Exactly the rules of a known period that have their fields in range and match some reading are accepted. */
  lemma AcceptedIff(r: Rule)
    ensures ValidPayload(r) <==>
            && (exists now: nat, date: Date :: Matches(r, At(now, date)))
            && (if r.period == WEEKLY then r.weekDays < 0x80
                else r.period == SPECIF && 1 <= r.day <= 31 && 1 <= r.month <= 12)
  {
    hide Bit, At;
    if ValidPayload(r) {
      var date, d := Date(r.year, r.month, r.day), 0;
      if r.period == WEEKLY {
        SevenBits();
        d := SomeBit(r.weekDays, 7);
      }
      ReadsMinuteOfWeek(d, r.hour, r.minutes, date);
      assert Matches(r, At(MinuteOfWeek(d, r.hour, r.minutes), date));
    } else if now: nat, date: Date :| Matches(r, At(now, date)) {
      ReadingInRange(now, date);
      if r.period == WEEKLY {
        BitIsHalved(r.weekDays, At(now, date).weekDay);
        PowIsPositive(At(now, date).weekDay);
      }
    }
  }

  lemma SevenBits()
    ensures Pow2(7) == 0x80
  {
    assert Pow2(3) == 8;
    assert Pow2(5) == 32;
  }

  lemma {:induction false} PowIsPositive(n: nat)
    ensures Pow2(n) >= 1
  {
    if n > 0 {
      PowIsPositive(n - 1);
    }
  }

  lemma ReadingInRange(now: nat, date: Date)
    ensures At(now, date).hour < 24 && At(now, date).minute < 60 && At(now, date).weekDay < 7
  {
  }

  /** The number of due minutes in `[lo, hi)`. */
  function DueMinutes(r: Rule, lo: nat, hi: nat): nat
    decreases hi - lo
  {
    if lo >= hi then 0 else DueMinutes(r, lo, hi - 1) + (if Due(r, hi - 1) then 1 else 0)
  }

  lemma {:induction false} DueSplits(r: Rule, lo: nat, mid: nat, hi: nat)
    requires lo <= mid <= hi
    ensures DueMinutes(r, lo, hi) == DueMinutes(r, lo, mid) + DueMinutes(r, mid, hi)
    decreases hi
  {
    if mid < hi {
      DueSplits(r, lo, mid, hi - 1);
    }
  }

  lemma {:induction false} NoneDue(r: Rule, lo: nat, hi: nat)
    requires forall m :: lo <= m < hi ==> !Due(r, m)
    ensures DueMinutes(r, lo, hi) == 0
    decreases hi
  {
    if lo < hi {
      NoneDue(r, lo, hi - 1);
    }
  }

  function DayBit(r: Rule, d: nat): nat { if Bit(r.weekDays, (d + 4) % 7) then 1 else 0 }

  /** A day has one due minute if its bit is set, none otherwise. */
  lemma OneDay(r: Rule, d: nat)
    requires ValidPayload(r)
    ensures DueMinutes(r, d * MINUTES_PER_DAY, (d + 1) * MINUTES_PER_DAY) == DayBit(r, d)
  {
    var lo, hi := d * MINUTES_PER_DAY, (d + 1) * MINUTES_PER_DAY;
    var x := lo + r.hour * 60 + r.minutes;
    forall m | lo <= m < hi ensures Due(r, m) <==> m == x && DayBit(r, d) == 1 {
      assert m / MINUTES_PER_DAY == d;
    }
    NoneDue(r, lo, x);
    NoneDue(r, x + 1, hi);
    DueSplits(r, lo, x, x + 1);
    DueSplits(r, lo, x + 1, hi);
  }

  lemma PopCountIsBits(mask: nat)
    requires mask <= MAX_WEEK_DAYS_MASK_VALUE
    ensures PopCount(mask) == B(mask, 0) + B(mask, 1) + B(mask, 2) + B(mask, 3) + B(mask, 4) + B(mask, 5) + B(mask, 6)
  {
    BitsBelow(mask, 7);
    assert BitSum(mask, 7) == B(mask, 6) + BitSum(mask, 6);
    assert BitSum(mask, 5) == B(mask, 4) + BitSum(mask, 4);
    assert BitSum(mask, 3) == B(mask, 2) + BitSum(mask, 2);
    assert BitSum(mask, 1) == B(mask, 0);
  }

  function B(mask: nat, d: nat): nat { if Bit(mask, d) then 1 else 0 }

  function BitSum(mask: nat, n: nat): nat { if n == 0 then 0 else B(mask, n - 1) + BitSum(mask, n - 1) }

  function Pow2(n: nat): nat { if n == 0 then 1 else 2 * Pow2(n - 1) }

  lemma {:induction false} BitSumHalves(mask: nat, n: nat)
    ensures BitSum(mask, n + 1) == mask % 2 + BitSum(mask / 2, n)
  {
    if n > 0 {
      BitSumHalves(mask, n - 1);
    }
  }

  lemma {:induction false} BitsBelow(mask: nat, n: nat)
    requires mask < Pow2(n)
    ensures PopCount(mask) == BitSum(mask, n)
  {
    if n > 0 {
      BitsBelow(mask / 2, n - 1);
      BitSumHalves(mask, n - 1);
    }
  }

  function DayBits(r: Rule, days: nat): nat { if days == 0 then 0 else DayBits(r, days - 1) + DayBit(r, days - 1) }

  lemma {:induction false} FirstDays(r: Rule, zero: nat, days: nat)
    requires ValidPayload(r) && zero == 0
    ensures DueMinutes(r, zero, days * MINUTES_PER_DAY) == DayBits(r, days)
  {
    if days > 0 {
      FirstDays(r, zero, days - 1);
      OneDay(r, days - 1);
      DueSplits(r, zero, (days - 1) * MINUTES_PER_DAY, days * MINUTES_PER_DAY);
    }
  }

  /** The first seven days, Thursday to Wednesday, see each bit of the mask once. */
  lemma FirstWeek(r: Rule, zero: nat, days: nat)
    requires ValidPayload(r) && r.period == WEEKLY && zero == 0 && days == 7
    ensures DueMinutes(r, zero, days * MINUTES_PER_DAY) == PopCount(r.weekDays)
  {
    FirstDays(r, zero, days);
    PopCountIsBits(r.weekDays);
    assert DayBits(r, 1) == DayBit(r, 0);
    assert DayBits(r, 3) == DayBits(r, 1) + DayBit(r, 1) + DayBit(r, 2);
    assert DayBits(r, 5) == DayBits(r, 3) + DayBit(r, 3) + DayBit(r, 4);
    assert DayBits(r, 7) == DayBits(r, 5) + DayBit(r, 5) + DayBit(r, 6);
  }

  lemma DueRepeatsWeekly(r: Rule, m: nat)
    ensures Due(r, m + MINUTES_PER_WEEK) <==> Due(r, m)
  {
    assert (m + MINUTES_PER_WEEK) / MINUTES_PER_DAY == m / MINUTES_PER_DAY + 7;
  }

  /** Whatever minute it starts in, a week has exactly as many due minutes as the mask has bits. */
  lemma {:induction false} AnyWeek(r: Rule, lo: nat, hi: nat)
    requires ValidPayload(r) && r.period == WEEKLY && hi == lo + MINUTES_PER_WEEK
    ensures DueMinutes(r, lo, hi) == PopCount(r.weekDays)
  {
    if lo == 0 {
      FirstWeek(r, lo, 7);
    } else {
      AnyWeek(r, lo - 1, hi - 1);
      DueSplits(r, lo - 1, lo, hi - 1);
      assert DueMinutes(r, lo - 1, lo) == if Due(r, lo - 1) then 1 else 0;
      DueRepeatsWeekly(r, lo - 1);
    }
  }

  lemma {:induction false} AnyWeeks(r: Rule, lo: nat, hi: nat, weeks: nat)
    requires ValidPayload(r) && r.period == WEEKLY && hi == lo + weeks * MINUTES_PER_WEEK
    ensures DueMinutes(r, lo, hi) == weeks * PopCount(r.weekDays)
  {
    var bits := PopCount(r.weekDays);
    if weeks > 0 {
      var mid := hi - MINUTES_PER_WEEK;
      assert weeks * bits == (weeks - 1) * bits + bits;
      AnyWeeks(r, lo, mid, weeks - 1);
      AnyWeek(r, mid, hi);
      DueSplits(r, lo, mid, hi);
    }
  }

  /** Two successive minutes are never both due. */
  lemma NeverTwiceInARow(r: Rule, m: nat)
    requires ValidPayload(r) && Due(r, m)
    ensures !Due(r, m + 1)
  {
  }
}
