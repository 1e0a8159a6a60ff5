/** `calculateCurrentStreak` of the streaks view: the dates of a habit are
    sorted newest first, a cursor starts at today (or at yesterday when
    nothing is dated today), and the walk counts entries while each falls on
    the cursor's day, stepping the cursor back one day per entry. Entries are
    the timestamps `new Date(date)` gives for a habit's dates. */
module Streaks {
  import opened Dates

  /** `s` is in non-increasing order. */
  predicate Descending(s: seq<int>) {
    forall i, j :: 0 <= i < j < |s| ==> s[i] >= s[j]
  }

  /** `x` placed in front of the first entry of `s` it is not smaller than. */
  function Insert(x: int, s: seq<int>): seq<int> {
    if s == [] || x >= s[0] then [x] + s else [s[0]] + Insert(x, s[1..])
  }

  /** `[...dates].sort((a, b) => b.getTime() - a.getTime())`. */
  function SortDescending(s: seq<int>): seq<int> {
    if s == [] then [] else Insert(s[0], SortDescending(s[1..]))
  }

  /** A descending sequence stays descending behind an entry not smaller
      than its first. */
  lemma ConsDescending(x: int, r: seq<int>)
    requires Descending(r)
    requires r != [] ==> x >= r[0]
    ensures Descending([x] + r)
  {
    var q := [x] + r;
    forall i, j | 0 <= i < j < |q|
      ensures q[i] >= q[j]
    {
      assert q[j] == r[j - 1];
      if i > 0 {
        assert q[i] == r[i - 1];
      }
    }
  }

  /** Inserting keeps a descending sequence descending. */
  lemma {:induction false} InsertDescending(x: int, s: seq<int>)
    requires Descending(s)
    ensures Descending(Insert(x, s))
    ensures Insert(x, s)[0] == if s == [] || x >= s[0] then x else s[0]
  {
    if s == [] || x >= s[0] {
      ConsDescending(x, s);
    } else {
      var t := s[1..];
      InsertDescending(x, t);
      assert t != [] ==> s[0] >= t[0];
      ConsDescending(s[0], Insert(x, t));
    }
  }

  /** Inserting adds exactly one entry. */
  lemma {:induction false} InsertMultiset(x: int, s: seq<int>)
    ensures multiset(Insert(x, s)) == multiset(s) + multiset{x}
  {
    if s != [] && x < s[0] {
      InsertMultiset(x, s[1..]);
      assert s == [s[0]] + s[1..];
    }
  }

  /** Sorting yields a descending permutation of the entries. */
  lemma {:induction false} SortDescendingSpec(s: seq<int>)
    ensures Descending(SortDescending(s))
    ensures multiset(SortDescending(s)) == multiset(s)
    ensures |SortDescending(s)| == |s|
  {
    if s != [] {
      SortDescendingSpec(s[1..]);
      InsertDescending(s[0], SortDescending(s[1..]));
      InsertMultiset(s[0], SortDescending(s[1..]));
      assert s == [s[0]] + s[1..];
    }
    assert |multiset(SortDescending(s))| == |multiset(s)|;
  }

  /** The first entry of a descending sequence is its largest. */
  lemma HeadIsLargest(s: seq<int>, x: int)
    requires Descending(s) && x in s
    ensures x <= s[0]
  {
    var i :| 0 <= i < |s| && s[i] == x;
    if i > 0 {
      assert s[0] >= s[i];
    }
  }

  /** Dropping the first entry removes one occurrence of it. */
  lemma MultisetTail(a: seq<int>)
    requires a != []
    ensures multiset(a[1..]) == multiset(a) - multiset{a[0]}
  {
    assert a == [a[0]] + a[1..];
  }

  /** Two descending sequences with the same entries start alike. */
  lemma SameHead(a: seq<int>, b: seq<int>)
    requires Descending(a) && Descending(b) && multiset(a) == multiset(b)
    requires a != [] && b != []
    ensures a[0] == b[0]
  {
    assert a[0] in multiset(b) && b[0] in multiset(a);
    HeadIsLargest(b, a[0]);
    HeadIsLargest(a, b[0]);
  }

  /** Two descending sequences with the same entries are equal: whatever
      algorithm sorts, the sorted dates are the same. */
  lemma {:induction false} DescendingUnique(a: seq<int>, b: seq<int>)
    requires Descending(a) && Descending(b) && multiset(a) == multiset(b)
    ensures a == b
  {
    assert |a| == |multiset(a)| == |multiset(b)| == |b|;
    if a != [] {
      SameHead(a, b);
      MultisetTail(a);
      MultisetTail(b);
      DescendingUnique(a[1..], b[1..]);
      assert a == [a[0]] + a[1..] && b == [b[0]] + b[1..];
    }
  }

  /** Some entry falls on day `d`. */
  predicate AnyOnDay(s: seq<int>, d: int) {
    exists i :: 0 <= i < |s| && Day(s[i]) == d
  }

  /** The cursor's first day: today when some entry is dated today,
      otherwise yesterday. */
  function StartDay(sorted: seq<int>, now: int): int {
    if AnyOnDay(sorted, Day(now)) then Day(now) else Day(now) - 1
  }

  /** How many entries, from the first, fall on days `c`, `c - 1`, `c - 2`,
      … in turn: every counted entry is on its day, and the entry after them
      (if any) is not. */
  function Run(sorted: seq<int>, c: int): (k: nat)
    ensures k <= |sorted|
    ensures forall j :: 0 <= j < k ==> Day(sorted[j]) == c - j
    ensures k < |sorted| ==> Day(sorted[k]) != c - k
  {
    if sorted != [] && Day(sorted[0]) == c then 1 + Run(sorted[1..], c - 1) else 0
  }

  /** Reference definition of the current streak. It never exceeds the
      number of entries. */
  function CurrentStreak(dates: seq<int>, now: int): (k: nat)
    ensures k <= |dates|
  {
    var sorted := SortDescending(dates);
    SortDescendingSpec(dates);
    assert |sorted| == |multiset(sorted)| == |multiset(dates)|;
    Run(sorted, StartDay(sorted, now))
  }

  /** `calculateCurrentStreak`. */
  method CalculateCurrentStreak(dates: seq<int>, now: int) returns (streak: nat)
    ensures streak == CurrentStreak(dates, now)
  {
    var sortedDates := SortDescending(dates);
    streak := 0;
    var currentDate := Day(now);
    // nothing dated today: the walk starts at yesterday
    if !AnyOnDay(sortedDates, currentDate) {
      currentDate := currentDate - 1;
    }
    ghost var start := currentDate;
    var i := 0;
    while i < |sortedDates|
      invariant 0 <= i <= |sortedDates|
      invariant streak == i && currentDate == start - i
      invariant Run(sortedDates, start) == streak + Run(sortedDates[i..], currentDate)
    {
      assert sortedDates[i..][1..] == sortedDates[i + 1..];
      if Day(sortedDates[i]) == currentDate {
        streak := streak + 1;
        currentDate := currentDate - 1;
      } else {
        break;
      }
      i := i + 1;
    }
  }

  /** The input order does not matter: only which dates there are. */
  lemma StreakOrderIndependent(a: seq<int>, b: seq<int>, now: int)
    requires multiset(a) == multiset(b)
    ensures CurrentStreak(a, now) == CurrentStreak(b, now)
  {
    SortDescendingSpec(a);
    SortDescendingSpec(b);
    DescendingUnique(SortDescending(a), SortDescending(b));
  }

  /** Some entry of the sorted dates falls on `d` exactly when some entry of
      the dates does. */
  lemma AnyOnDaySorted(dates: seq<int>, d: int)
    ensures AnyOnDay(SortDescending(dates), d) <==> AnyOnDay(dates, d)
  {
    SortDescendingSpec(dates);
    var s := SortDescending(dates);
    if AnyOnDay(dates, d) {
      var i :| 0 <= i < |dates| && Day(dates[i]) == d;
      assert dates[i] in multiset(s);
      var j :| 0 <= j < |s| && s[j] == dates[i];
    }
    if AnyOnDay(s, d) {
      var i :| 0 <= i < |s| && Day(s[i]) == d;
      assert s[i] in multiset(dates);
      var j :| 0 <= j < |dates| && dates[j] == s[i];
    }
  }

  /** The streak is the run of consecutive days, newest entry first, that
      ends today when some entry is dated today and yesterday otherwise; the
      grace step is taken once, before the walk. */
  lemma StreakIsRunFromStartDay(dates: seq<int>, now: int)
    ensures var s, k := SortDescending(dates), CurrentStreak(dates, now);
      var c := if AnyOnDay(dates, Day(now)) then Day(now) else Day(now) - 1;
      && (forall j :: 0 <= j < k ==> Day(s[j]) == c - j)
      && (k < |s| ==> Day(s[k]) != c - k)
  {
    AnyOnDaySorted(dates, Day(now));
  }

  /** With nothing dated today or yesterday, the streak is 0. */
  lemma StaleStreakIsZero(dates: seq<int>, now: int)
    requires forall i :: 0 <= i < |dates| ==> Day(dates[i]) <= Day(now) - 2
    ensures CurrentStreak(dates, now) == 0
  {
    var s := SortDescending(dates);
    SortDescendingSpec(dates);
    AnyOnDaySorted(dates, Day(now));
    if s != [] {
      assert s[0] in multiset(dates);
      var i :| 0 <= i < |dates| && dates[i] == s[0];
    }
  }

  /** An entry dated after today sorts first and stops the walk at once. */
  lemma FutureEntryZeroesStreak(dates: seq<int>, now: int, i: int)
    requires 0 <= i < |dates| && Day(dates[i]) > Day(now)
    ensures CurrentStreak(dates, now) == 0
  {
    var s := SortDescending(dates);
    SortDescendingSpec(dates);
    assert dates[i] in multiset(s);
    HeadIsLargest(s, dates[i]);
    DayMonotone(dates[i], s[0]);
  }

  /** The midnights of `n` consecutive days, newest (`d`) first. */
  function DaysBack(d: int, n: nat): seq<int> {
    seq(n, j => Midnight(d - j))
  }

  lemma DaysBackDescending(d: int, n: nat)
    ensures Descending(DaysBack(d, n))
  {
    forall i, j | 0 <= i < j < n
      ensures DaysBack(d, n)[i] >= DaysBack(d, n)[j]
    {
      MidnightMonotone(d - j, d - i);
    }
  }

  lemma {:induction false} RunOfDaysBack(d: int, n: nat)
    ensures Run(DaysBack(d, n), d) == n
    decreases n
  {
    if n > 0 {
      DayOfMidnight(d);
      assert DaysBack(d, n)[1..] == DaysBack(d - 1, n - 1);
      RunOfDaysBack(d - 1, n - 1);
    }
  }

  /** Entries on each of the last `n` days up to today give a streak of `n`. */
  lemma ConsecutiveDaysStreak(now: int, n: nat)
    ensures CurrentStreak(DaysBack(Day(now), n), now) == n
  {
    if n > 0 {
      var dates := DaysBack(Day(now), n);
      SortDescendingSpec(dates);
      DaysBackDescending(Day(now), n);
      DescendingUnique(SortDescending(dates), dates);
      DayOfMidnight(Day(now));
      assert Day(dates[0]) == Day(now);
      RunOfDaysBack(Day(now), n);
    }
  }

  /** Entry `i` of `DaysBack(d, n)` is on day `d - i`. */
  lemma DaysBackDays(d: int, n: nat)
    ensures forall i :: 0 <= i < n ==> Day(DaysBack(d, n)[i]) == d - i
  {
    forall i | 0 <= i < n
      ensures Day(DaysBack(d, n)[i]) == d - i
    {
      DayOfMidnight(d - i);
    }
  }

  /** Entries on each of the `n` days up to yesterday, none today, still give
      a streak of `n`: the grace day. */
  lemma GraceDayStreak(now: int, n: nat)
    ensures CurrentStreak(DaysBack(Day(now) - 1, n), now) == n
  {
    var dates := DaysBack(Day(now) - 1, n);
    SortDescendingSpec(dates);
    DaysBackDescending(Day(now) - 1, n);
    DescendingUnique(SortDescending(dates), dates);
    DaysBackDays(Day(now) - 1, n);
    assert !AnyOnDay(dates, Day(now));
    RunOfDaysBack(Day(now) - 1, n);
  }

  /** A descending sequence is its own sorted form. */
  lemma SortedAlready(s: seq<int>)
    requires Descending(s)
    ensures SortDescending(s) == s
  {
    SortDescendingSpec(s);
    DescendingUnique(SortDescending(s), s);
  }

  /** Two entries on the cursor's day: the first counts, the second stops
      the walk. */
  lemma RepeatStopsRun(s: seq<int>, c: int)
    requires |s| >= 2 && Day(s[0]) == c && Day(s[1]) == c
    ensures Run(s, c) == 1
  {
    assert s[1..][0] == s[1];
  }

  /** Entries are not deduplicated: a second entry today ends the walk, so
      entries today, again today and yesterday give 1 rather than 2. */
  lemma SecondEntryTodayEndsStreak(now: int)
    ensures var d := Midnight(Day(now));
      CurrentStreak([d, d, d - DAY], now) == 1
  {
    var d := Midnight(Day(now));
    var dates := [d, d, d - DAY];
    DayOfMidnight(Day(now));
    assert Descending(dates);
    SortedAlready(dates);
    assert AnyOnDay(dates, Day(now)) by {
      assert Day(dates[0]) == Day(now);
    }
    RepeatStopsRun(dates, Day(now));
  }
}
