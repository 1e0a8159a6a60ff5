/** `calculateCompletionRate` of the completion-rates view: the number of a
    habit's entries dated between the start timestamp and now, as a whole
    percentage of the calendar days in that range. Several entries on one day
    all count, so the rate can exceed 100. */
module CompletionRates {
  import opened Options
  import opened Dates
  import opened Seqs

  /** `eachDayOfInterval({ start, end: now }).length`: the calendar days from
      the start's day to today, both counted. */
  function DaysInRange(start: int, now: int): (n: nat)
    requires start <= now
    ensures n >= 1
  {
    DayMonotone(start, now);
    Day(now) - Day(start) + 1
  }

  /** `new Date(date) >= startDate && new Date(date) <= new Date()`: an
      Invalid Date compares false both ways. */
  predicate InRange(date: string, start: int, now: int) {
    match ParseDate(date)
    case None => false
    case Some(t) => start <= t <= now
  }

  /** `dates.filter(...)`: the entries dated between start and now. */
  function DatesInRange(dates: seq<string>, start: int, now: int): seq<string> {
    Filter(dates, d => InRange(d, start, now))
  }

  /** `Math.round(n / d)` for a non-negative fraction: the nearest integer,
      halves rounded up. */
  function RoundHalfUp(n: int, d: int): (r: int)
    requires d > 0
    ensures 2 * d * r <= 2 * n + d < 2 * d * (r + 1)
  {
    var q := (2 * n + d) / (2 * d);
    assert 2 * n + d == (2 * d) * q + (2 * n + d) % (2 * d);
    q
  }

  /** `Math.round((count / days) * 100)`: the whole percentage nearest to
      `100 * count / days`, halves rounded up. */
  function Rate(count: nat, days: nat): (r: nat)
    requires days >= 1
    ensures 2 * days * r <= 200 * count + days < 2 * days * (r + 1)
  {
    RoundHalfUp(100 * count, days)
  }

  /** `calculateCompletionRate(dates)`: the entries dated between start
      and now as a whole percentage of the calendar days from the start's
      day to today. */
  function CompletionRate(dates: seq<string>, start: int, now: int): (r: nat)
    requires start <= now
    ensures var count, days := |DatesInRange(dates, start, now)|, DaysInRange(start, now);
      2 * days * r <= 200 * count + days < 2 * days * (r + 1)
  {
    Rate(|DatesInRange(dates, start, now)|, DaysInRange(start, now))
  }

  /** A product with a positive factor grows with the other factor. */
  lemma MulMonotone(d: int, a: int, b: int)
    requires d > 0 && a <= b
    ensures d * a <= d * b
  {
  }

  /** More entries never lower the rate. */
  lemma RateMonotone(c1: nat, c2: nat, days: nat)
    requires days >= 1 && c1 <= c2
    ensures Rate(c1, days) <= Rate(c2, days)
  {
    var r1, r2 := Rate(c1, days), Rate(c2, days);
    if r1 > r2 {
      assert 2 * days * r1 <= 200 * c1 + days <= 200 * c2 + days < 2 * days * (r2 + 1);
      MulMonotone(2 * days, r2 + 1, r1);
    }
  }

  /** An entry on every day of the range gives 100. */
  lemma FullRate(days: nat)
    requires days >= 1
    ensures Rate(days, days) == 100
  {
    var r := Rate(days, days);
    assert 2 * days * r <= 201 * days < 2 * days * (r + 1);
    if r < 100 {
      MulMonotone(2 * days, r + 1, 100);
    } else if r > 100 {
      MulMonotone(2 * days, 101, r);
    }
  }

  /** The rate is not capped: one entry more than there are days gives more
      than 100 whenever the range is at most 200 days long. */
  lemma RateAbove100(count: nat, days: nat)
    requires 1 <= days <= 200 && count > days
    ensures Rate(count, days) > 100
  {
    var r := Rate(count, days);
    assert 2 * days * r <= 200 * count + days < 2 * days * (r + 1);
    if r <= 100 {
      assert 200 * count >= 200 * days + 200;
      MulMonotone(2 * days, r + 1, 101);
    }
  }

  /** Seven entries over eight calendar days round to 88. */
  lemma SevenOfEight()
    ensures Rate(7, 8) == 88
  {
  }

  /** With no entry in range the rate is 0. */
  lemma NoEntriesInRange(dates: seq<string>, start: int, now: int)
    requires start <= now
    requires forall i :: 0 <= i < |dates| ==> !InRange(dates[i], start, now)
    ensures CompletionRate(dates, start, now) == 0
  {
    FilterNone(dates, d => InRange(d, start, now));
  }

  /** Entries outside the range, wherever they are inserted, leave the rate
      unchanged. */
  lemma OutOfRangeIgnored(a: seq<string>, extra: seq<string>, b: seq<string>, start: int, now: int)
    requires start <= now
    requires forall i :: 0 <= i < |extra| ==> !InRange(extra[i], start, now)
    ensures CompletionRate(a + extra + b, start, now) == CompletionRate(a + b, start, now)
  {
    var p := d => InRange(d, start, now);
    FilterAppend(a + extra, b, p);
    FilterAppend(a, extra, p);
    FilterAppend(a, b, p);
    FilterNone(extra, p);
  }

  /** Adding entries never lowers the rate. */
  lemma MoreEntriesNeverLower(dates: seq<string>, extra: seq<string>, start: int, now: int)
    requires start <= now
    ensures CompletionRate(dates, start, now) <= CompletionRate(dates + extra, start, now)
  {
    FilterAppend(dates, extra, d => InRange(d, start, now));
    RateMonotone(|DatesInRange(dates, start, now)|, |DatesInRange(dates + extra, start, now)|,
                 DaysInRange(start, now));
  }

  /** The day of `t - n * DAY` is `n` days before the day of `t`. */
  lemma DayBefore(t: int, n: int)
    ensures Day(t - n * DAY) == Day(t) - n
    ensures (t - n * DAY) % DAY == t % DAY
  {
  }

  /** Day `k` of a window of `n` days ending now, `now - n * DAY` being the
      start: its midnight is in range unless it is the start's own day and
      the start is not a midnight. */
  lemma WindowDayInRange(now: int, n: nat, k: int)
    requires 0 <= k <= n
    ensures var start, t := now - n * DAY, Midnight(Day(now) - n + k);
      start <= t <= now <==> k > 0 || now % DAY == 0
  {
    var start := now - n * DAY;
    DayBefore(now, n);
    MidnightBounds(start);
    MidnightBounds(now);
    if k > 0 {
      MidnightMonotone(Day(start) + 1, Day(start) + k);
      MidnightMonotone(Day(start) + k, Day(now));
    } else {
      assert start % DAY == now % DAY;
    }
  }

  /** An entry dated day `k` of the window counts exactly when
      `WindowDayInRange` says so. */
  lemma EntryOnWindowDay(entry: string, now: int, n: nat, k: int)
    requires 0 <= k <= n
    requires ParseDate(entry) == Some(Midnight(Day(now) - n + k))
    ensures InRange(entry, now - n * DAY, now) <==> k > 0 || now % DAY == 0
  {
    WindowDayInRange(now, n, k);
  }

  /** Every entry of a window after the first counts. */
  lemma LaterEntriesInRange(dates: seq<string>, now: int, n: nat)
    requires |dates| == n + 1
    requires forall j :: 0 <= j <= n ==> ParseDate(dates[j]) == Some(Midnight(Day(now) - n + j))
    ensures DatesInRange(dates[1..], now - n * DAY, now) == dates[1..]
  {
    var start := now - n * DAY;
    var rest := dates[1..];
    forall i | 0 <= i < |rest|
      ensures InRange(rest[i], start, now)
    {
      EntryOnWindowDay(dates[i + 1], now, n, i + 1);
    }
    FilterAll(rest, d => InRange(d, start, now));
  }

  /** The entries of a window of `n` days ending now, one per day, that
      count: all but the first, or all when now is a midnight. */
  lemma WindowEntriesInRange(dates: seq<string>, now: int, n: nat)
    requires |dates| == n + 1
    requires forall j :: 0 <= j <= n ==> ParseDate(dates[j]) == Some(Midnight(Day(now) - n + j))
    ensures DatesInRange(dates, now - n * DAY, now) ==
      if now % DAY == 0 then dates else dates[1..]
  {
    var start := now - n * DAY;
    var first, rest := dates[0], dates[1..];
    LaterEntriesInRange(dates, now, n);
    EntryOnWindowDay(first, now, n, 0);
    assert dates == [first] + rest;
    FilterAppend([first], rest, d => InRange(d, start, now));
  }

  /** A window of `n` days ending at a time `now` that is not midnight, as
      the page passes it (`startDate = subDays(now, n)`): a habit done on
      every calendar day from the start's day to today scores `n` out of
      `n + 1`, because the entry on the start's day lies before the start. */
  lemma EveryDayOfWindow(dates: seq<string>, now: int, n: nat)
    requires now % DAY != 0
    requires |dates| == n + 1
    requires forall j :: 0 <= j <= n ==> ParseDate(dates[j]) == Some(Midnight(Day(now) - n + j))
    ensures CompletionRate(dates, now - n * DAY, now) == Rate(n, n + 1)
  {
    WindowEntriesInRange(dates, now, n);
    DayBefore(now, n);
  }

  /** A habit done every day of the last week, seen at any time but
      midnight, scores 88. */
  lemma EveryDayOfLastWeek(dates: seq<string>, now: int)
    requires now % DAY != 0
    requires |dates| == 8
    requires forall j :: 0 <= j <= 7 ==> ParseDate(dates[j]) == Some(Midnight(Day(now) - 7 + j))
    ensures CompletionRate(dates, now - 7 * DAY, now) == 88
  {
    EveryDayOfWindow(dates, now, 7);
    SevenOfEight();
  }

  /** Seen exactly at midnight, the same habit scores 100. */
  lemma EveryDayOfWindowAtMidnight(dates: seq<string>, now: int, n: nat)
    requires now % DAY == 0
    requires |dates| == n + 1
    requires forall j :: 0 <= j <= n ==> ParseDate(dates[j]) == Some(Midnight(Day(now) - n + j))
    ensures CompletionRate(dates, now - n * DAY, now) == 100
  {
    WindowEntriesInRange(dates, now, n);
    DayBefore(now, n);
    FullRate(n + 1);
  }
}
