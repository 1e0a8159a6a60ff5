/** The calculations of the health view. Every health entry is the stored
    string `date,log,value`. One in-range filter on the date column feeds a
    completion rate per log, the chart points and the min/max/avg summary.
    The logs are listed in ascending order of completion rate, and each
    chart's axis is labelled from a fixed unit table. */
module HealthStats {
  import opened Options
  import opened Text
  import opened Numbers
  import opened Seqs
  import opened CsvParser
  import opened CompletionRates

  /** `const [d] = entry.split(",")`: the date column of a stored entry. */
  function DateField(entry: string): string {
    Split(entry, ',')[0]
  }

  /** `entryDate >= startDate && entryDate <= new Date()` for
      `entryDate = parseISO(d)`; an unparsable date fails both. */
  predicate EntryInRange(entry: string, start: int, now: int) {
    InRange(DateField(entry), start, now)
  }

  /** `filterDatesInRange(dates)`. */
  function FilterDatesInRange(dates: seq<string>, start: int, now: int): (r: seq<string>)
    ensures |r| <= |dates|
    ensures forall i :: 0 <= i < |r| ==> EntryInRange(r[i], start, now)
  {
    var p := e => EntryInRange(e, start, now);
    FilterSubseq(dates, p);
    IsSubseqLength(Filter(dates, p), dates);
    FilterPasses(dates, p);
    Filter(dates, p)
  }

  /** The filter keeps, in their original order, exactly the entries whose
      date column parses to a time between start and now, each as often as
      it occurs. */
  lemma FilterDatesInRangeSpec(dates: seq<string>, start: int, now: int)
    ensures IsSubseq(FilterDatesInRange(dates, start, now), dates)
    ensures forall i :: 0 <= i < |FilterDatesInRange(dates, start, now)| ==>
      EntryInRange(FilterDatesInRange(dates, start, now)[i], start, now)
    ensures forall e :: multiset(FilterDatesInRange(dates, start, now))[e] ==
                        (if EntryInRange(e, start, now) then multiset(dates)[e] else 0)
  {
    var p := e => EntryInRange(e, start, now);
    FilterSubseq(dates, p);
    FilterPasses(dates, p);
    FilterCounts(dates, p);
  }

  /** A later start keeps a sub-list of what an earlier start keeps. */
  lemma LaterStartNarrows(dates: seq<string>, s1: int, s2: int, now: int)
    requires s1 <= s2
    ensures IsSubseq(FilterDatesInRange(dates, s2, now), FilterDatesInRange(dates, s1, now))
  {
    FilterStricter(dates, e => EntryInRange(e, s2, now), e => EntryInRange(e, s1, now));
  }

  /** `calculateCompletionRate(dates)` of the health view. */
  function HealthCompletionRate(dates: seq<string>, start: int, now: int): (r: nat)
    requires start <= now
    ensures var count, days := |FilterDatesInRange(dates, start, now)|, DaysInRange(start, now);
      2 * days * r <= 200 * count + days < 2 * days * (r + 1)
  {
    Rate(|FilterDatesInRange(dates, start, now)|, DaysInRange(start, now))
  }

  /** A log's rate is the habit rate of its entries' date column: the two
      views agree on what counts. */
  lemma HealthRateIsDateRate(dates: seq<string>, start: int, now: int)
    requires start <= now
    ensures HealthCompletionRate(dates, start, now) == CompletionRate(Map(dates, DateField), start, now)
  {
    FilterMap(dates, DateField, d => InRange(d, start, now), e => EntryInRange(e, start, now));
  }

  /** `parseFloat(entry.split(",")[2])`: the value column, or NaN (`None`)
      when the entry has fewer than three pieces and `parts[2]` is
      `undefined`. */
  function ValueOf(entry: string): Option<real> {
    var parts := Split(entry, ',');
    if |parts| > 2 then ParseFloat(parts[2]) else None
  }

  /** `v && !isNaN(v)`: a number that is not zero. */
  predicate Survives(v: Option<real>) {
    v.Some? && v.value != 0.0
  }

  datatype ChartPoint = ChartPoint(date: string, value: real)

  /** `{ date: parts[0], value: parseFloat(parts[2]) || 0 }`: NaN is
      falsy and becomes 0. */
  function ChartPointOf(entry: string): ChartPoint {
    ChartPoint(DateField(entry), ValueOf(entry).GetOr(0.0))
  }

  /** `getChartData(dates)`. */
  function GetChartData(dates: seq<string>, start: int, now: int): (r: seq<ChartPoint>)
    ensures |r| <= |dates|
    ensures forall i :: 0 <= i < |r| ==> InRange(r[i].date, start, now)
  {
    Map(FilterDatesInRange(dates, start, now), ChartPointOf)
  }

  /** One point per in-range entry, in order, dated by its date column; its
      value is the parsed value when that survives and 0 exactly when the
      value is missing, unparsable or zero. */
  lemma ChartDataSpec(dates: seq<string>, start: int, now: int)
    ensures var valid, chart := FilterDatesInRange(dates, start, now), GetChartData(dates, start, now);
      && |chart| == |valid|
      && (forall i :: 0 <= i < |chart| ==> chart[i].date == DateField(valid[i]))
      && (forall i :: 0 <= i < |chart| ==>
            (chart[i].value == 0.0 <==> !Survives(ValueOf(valid[i]))))
      && (forall i :: 0 <= i < |chart| && Survives(ValueOf(valid[i])) ==>
            chart[i].value == ValueOf(valid[i]).value)
  {
  }

  /** `.filter(v => v && !isNaN(v))` on parsed values. */
  function Survivors(vs: seq<Option<real>>): (r: seq<real>)
    ensures |r| <= |vs|
    ensures forall i :: 0 <= i < |r| ==> r[i] != 0.0
  {
    if vs == [] then []
    else (if Survives(vs[0]) then [vs[0].value] else []) + Survivors(vs[1..])
  }

  /** The number a parsed value stands for once it is known to be one. */
  function OrZero(v: Option<real>): real {
    v.GetOr(0.0)
  }

  /** The survivors are the numbers of the values that survive, in their
      order and each as often as it occurs; so they are exactly the numbers
      other than 0 among the values. */
  lemma {:induction false} SurvivorsSpec(vs: seq<Option<real>>)
    ensures Survivors(vs) == Map(Filter(vs, Survives), OrZero)
    ensures forall x :: x in Survivors(vs) <==> x != 0.0 && Some(x) in vs
  {
    if vs != [] {
      SurvivorsSpec(vs[1..]);
      var head := if Survives(vs[0]) then [vs[0]] else [];
      MapAppend(head, Filter(vs[1..], Survives), OrZero);
      assert vs == [vs[0]] + vs[1..];
    }
  }

  lemma {:induction false} SurvivorsAppend(a: seq<Option<real>>, b: seq<Option<real>>)
    ensures Survivors(a + b) == Survivors(a) + Survivors(b)
  {
    if a == [] {
      assert a + b == b;
    } else {
      assert (a + b)[0] == a[0] && (a + b)[1..] == a[1..] + b;
      SurvivorsAppend(a[1..], b);
    }
  }

  /** The values `calculateStats` works on: the surviving values of the
      in-range entries. */
  function StatsValues(dates: seq<string>, start: int, now: int): seq<real> {
    Survivors(Map(FilterDatesInRange(dates, start, now), ValueOf))
  }

  function PointValue(p: ChartPoint): real {
    p.value
  }

  predicate NonZero(v: real) {
    v != 0.0
  }

  lemma {:induction false} SurvivorsOfPoints(entries: seq<string>)
    ensures Survivors(Map(entries, ValueOf)) == Filter(Map(Map(entries, ChartPointOf), PointValue), NonZero)
  {
    if entries != [] {
      SurvivorsOfPoints(entries[1..]);
      var vs := Map(entries, ValueOf);
      var ps := Map(Map(entries, ChartPointOf), PointValue);
      assert vs[0] == ValueOf(entries[0]) && vs[1..] == Map(entries[1..], ValueOf);
      assert ps[0] == ValueOf(entries[0]).GetOr(0.0);
      assert ps[1..] == Map(Map(entries[1..], ChartPointOf), PointValue);
    }
  }

  /** The stats summarise exactly the chart values other than 0. */
  lemma StatsValuesAreNonZeroChartValues(dates: seq<string>, start: int, now: int)
    ensures StatsValues(dates, start, now) == Filter(Map(GetChartData(dates, start, now), PointValue), NonZero)
  {
    SurvivorsOfPoints(FilterDatesInRange(dates, start, now));
  }

  /** `Math.min(...values)`. */
  function Min(xs: seq<real>): real
    requires xs != []
  {
    if |xs| == 1 then xs[0]
    else
      var m := Min(xs[1..]);
      if xs[0] <= m then xs[0] else m
  }

  /** `Math.max(...values)`. */
  function Max(xs: seq<real>): real
    requires xs != []
  {
    if |xs| == 1 then xs[0]
    else
      var m := Max(xs[1..]);
      if xs[0] >= m then xs[0] else m
  }

  /** `values.reduce((a, b) => a + b, 0)`, folding from the left. */
  function Sum(xs: seq<real>): real {
    if xs == [] then 0.0 else Sum(xs[..|xs| - 1]) + xs[|xs| - 1]
  }

  /** The minimum is one of the values and at most each of them. */
  lemma {:induction false} MinSpec(xs: seq<real>)
    requires xs != []
    ensures Min(xs) in xs
    ensures forall i :: 0 <= i < |xs| ==> Min(xs) <= xs[i]
  {
    if |xs| > 1 {
      MinSpec(xs[1..]);
      assert forall i :: 1 <= i < |xs| ==> xs[i] == xs[1..][i - 1];
    }
  }

  /** The sum of a concatenation is the sum of its parts. */
  lemma {:induction false} SumAppend(a: seq<real>, b: seq<real>)
    ensures Sum(a + b) == Sum(a) + Sum(b)
    decreases |b|
  {
    if b != [] {
      var b' := b[..|b| - 1];
      assert (a + b)[..|a + b| - 1] == a + b';
      assert (a + b)[|a + b| - 1] == b[|b| - 1];
      SumAppend(a, b');
    } else {
      assert a + b == a;
    }
  }

  /** The maximum is one of the values and at least each of them. */
  lemma {:induction false} MaxSpec(xs: seq<real>)
    requires xs != []
    ensures Max(xs) in xs
    ensures forall i :: 0 <= i < |xs| ==> xs[i] <= Max(xs)
  {
    if |xs| > 1 {
      MaxSpec(xs[1..]);
      assert forall i :: 1 <= i < |xs| ==> xs[i] == xs[1..][i - 1];
    }
  }

  /** A sum of `n` values between `lo` and `hi` lies between `n * lo` and
      `n * hi`. */
  lemma {:induction false} SumBetween(xs: seq<real>, lo: real, hi: real)
    requires forall i :: 0 <= i < |xs| ==> lo <= xs[i] <= hi
    ensures |xs| as real * lo <= Sum(xs) <= |xs| as real * hi
  {
    if xs != [] {
      var ys := xs[..|xs| - 1];
      assert forall i :: 0 <= i < |ys| ==> ys[i] == xs[i];
      SumBetween(ys, lo, hi);
      assert |xs| as real * lo == |ys| as real * lo + lo;
      assert |xs| as real * hi == |ys| as real * hi + hi;
    }
  }

  /** `avg` is the arithmetic mean of `values`: `values.length` times it is
      their sum (for no values, any `avg` times 0 is the empty sum 0). */
  ghost predicate IsMean(avg: real, values: seq<real>) {
    |values| as real * avg == Sum(values)
  }

  /** The summary `calculateStats` returns. */
  datatype Stats = Stats(minValue: real, maxValue: real, avgValue: real)

  /** min, max and mean of the values, or all zero when there are none. */
  function StatsOf(values: seq<real>): Stats {
    if |values| == 0 then Stats(0.0, 0.0, 0.0)
    else Stats(Min(values), Max(values), Sum(values) / |values| as real)
  }

  /** `calculateStats(dates)`. */
  function CalculateStats(dates: seq<string>, start: int, now: int): (s: Stats)
    ensures IsMean(s.avgValue, StatsValues(dates, start, now))
    ensures s.minValue <= s.avgValue <= s.maxValue
    ensures s == Stats(0.0, 0.0, 0.0) || (s.minValue != 0.0 && s.maxValue != 0.0)
  {
    var values := StatsValues(dates, start, now);
    if values == [] then StatsOf(values)
    else
      StatsOfSpec(values);
      StatsOf(values)
  }

  /** With values, min and max are values, they bound all values, and the
      mean lies between them. */
  lemma StatsOfSpec(values: seq<real>)
    requires values != []
    ensures var s := StatsOf(values);
      && s.minValue in values && s.maxValue in values
      && (forall i :: 0 <= i < |values| ==> s.minValue <= values[i] <= s.maxValue)
      && s.minValue <= s.avgValue <= s.maxValue
      && IsMean(s.avgValue, values)
  {
    StatsOfMean(values);
    StatsOfBounds(values);
    MinSpec(values);
    MaxSpec(values);
  }

  /** The mean lies between the minimum and the maximum. */
  lemma StatsOfBounds(values: seq<real>)
    requires values != []
    ensures StatsOf(values).minValue <= StatsOf(values).avgValue <= StatsOf(values).maxValue
  {
    MinSpec(values);
    MaxSpec(values);
    SumBetween(values, Min(values), Max(values));
    DivBetween(Sum(values), |values| as real, Min(values), Max(values));
  }

  /** The mean times the number of values is their sum. */
  lemma StatsOfMean(values: seq<real>)
    ensures IsMean(StatsOf(values).avgValue, values)
  {
    if values != [] {
      var n := |values| as real;
      assert StatsOf(values).avgValue == Sum(values) / n;
      MulDivCancel(Sum(values), n);
    }
  }

  /** Dividing by a positive `n` and multiplying back gives the number. */
  lemma MulDivCancel(s: real, n: real)
    requires n > 0.0
    ensures n * (s / n) == s
  {
  }

  /** A quotient by a positive `n` of a number between `n * lo` and
      `n * hi` lies between `lo` and `hi`. */
  lemma DivBetween(s: real, n: real, lo: real, hi: real)
    requires n > 0.0 && n * lo <= s <= n * hi
    ensures lo <= s / n <= hi
  {
  }

  /** The summary of a log: every value is a surviving in-range value, and
      the bounds and mean are as for any list of values. */
  lemma CalculateStatsSpec(dates: seq<string>, start: int, now: int)
    requires StatsValues(dates, start, now) != []
    ensures var s, values := CalculateStats(dates, start, now), StatsValues(dates, start, now);
      && s.minValue in values && s.maxValue in values
      && (forall i :: 0 <= i < |values| ==> s.minValue <= values[i] <= s.maxValue)
      && s.minValue <= s.avgValue <= s.maxValue
      && s.minValue != 0.0 && s.maxValue != 0.0
      && IsMean(s.avgValue, values)
  {
    StatsOfSpec(StatsValues(dates, start, now));
  }

  /** No in-range entry has a surviving value exactly when the stats are
      `{0, 0, 0}`. */
  lemma ZeroStatsWithoutSurvivors(dates: seq<string>, start: int, now: int)
    ensures CalculateStats(dates, start, now) == Stats(0.0, 0.0, 0.0) <==>
      forall i :: 0 <= i < |dates| && EntryInRange(dates[i], start, now) ==> !Survives(ValueOf(dates[i]))
  {
    NoSurvivorsIff(dates, start, now);
    var values := StatsValues(dates, start, now);
    if values != [] {
      StatsOfSpec(values);
    }
  }

  /** The values of a log, entry by entry: the first entry contributes its
      value when it is in range and survives. */
  lemma StatsValuesCons(dates: seq<string>, start: int, now: int)
    requires dates != []
    ensures StatsValues(dates, start, now) ==
      (if EntryInRange(dates[0], start, now) && Survives(ValueOf(dates[0])) then [ValueOf(dates[0]).value] else [])
      + StatsValues(dates[1..], start, now)
  {
    var p := e => EntryInRange(e, start, now);
    var head := if p(dates[0]) then [dates[0]] else [];
    var valid := FilterDatesInRange(dates[1..], start, now);
    assert FilterDatesInRange(dates, start, now) == head + valid;
    MapAppend(head, valid, ValueOf);
    SurvivorsAppend(Map(head, ValueOf), Map(valid, ValueOf));
  }

  lemma {:induction false} NoSurvivorsIff(dates: seq<string>, start: int, now: int)
    ensures StatsValues(dates, start, now) == [] <==>
      forall i :: 0 <= i < |dates| && EntryInRange(dates[i], start, now) ==> !Survives(ValueOf(dates[i]))
  {
    if dates != [] {
      var rest := dates[1..];
      NoSurvivorsIff(rest, start, now);
      StatsValuesCons(dates, start, now);
      assert forall i :: 1 <= i < |dates| ==> dates[i] == rest[i - 1];
    }
  }

  /** An entry out of range, or whose value is missing, unparsable or zero,
      leaves the stats as they were. */
  lemma IgnoredEntryKeepsStats(dates: seq<string>, e: string, start: int, now: int)
    requires !EntryInRange(e, start, now) || !Survives(ValueOf(e))
    ensures CalculateStats(dates + [e], start, now) == CalculateStats(dates, start, now)
  {
    var p := x => EntryInRange(x, start, now);
    FilterAppend(dates, [e], p);
    assert [e][0] == e && [e][1..] == [];
    var tail := Filter([e], p);
    assert tail == if p(e) then [e] else [];
    var valid := FilterDatesInRange(dates, start, now);
    MapAppend(valid, tail, ValueOf);
    SurvivorsAppend(Map(valid, ValueOf), Map(tail, ValueOf));
    assert Survivors(Map(tail, ValueOf)) == [];
    assert Survivors(Map(valid, ValueOf)) + [] == Survivors(Map(valid, ValueOf));
  }

  /** A single value is its own min, max and mean. */
  lemma StatsOfSingle(v: real)
    ensures StatsOf([v]) == Stats(v, v, v)
  {
    assert [v][..0] == [];
    assert Sum([v]) == v;
  }

  /** A single in-range entry with a surviving value `v` has the stats
      `{v, v, v}`. */
  lemma SingleEntryStats(e: string, v: real, start: int, now: int)
    requires EntryInRange(e, start, now) && ValueOf(e) == Some(v) && v != 0.0
    ensures CalculateStats([e], start, now) == Stats(v, v, v)
  {
    FilterAll([e], x => EntryInRange(x, start, now));
    assert Map([e], ValueOf) == [Some(v)];
    assert Survivors([Some(v)]) == [v];
    StatsOfSingle(v);
  }

  /** One element of `sortedHealthData`. */
  datatype LogRate = LogRate(log: string, dates: seq<string>, completionRate: nat)

  /** `Object.entries(healthData).map(...)`: one element per log, in the
      order the logs were first met. */
  function LogRates(keys: seq<string>, lists: map<string, seq<string>>, start: int, now: int): (r: seq<LogRate>)
    requires start <= now
    requires forall i :: 0 <= i < |keys| ==> keys[i] in lists
    ensures |r| == |keys|
    ensures forall i :: 0 <= i < |r| ==> r[i].log == keys[i] && r[i].dates == lists[keys[i]]
    ensures forall i :: 0 <= i < |r| ==> r[i].completionRate == HealthCompletionRate(r[i].dates, start, now)
  {
    if keys == [] then []
    else
      var dates := lists[keys[0]];
      [LogRate(keys[0], dates, HealthCompletionRate(dates, start, now))] + LogRates(keys[1..], lists, start, now)
  }

  /** `s` is in non-decreasing order of completion rate. */
  predicate Ascending(s: seq<LogRate>) {
    forall i, j :: 0 <= i < j < |s| ==> s[i].completionRate <= s[j].completionRate
  }

  /** `x` placed in front of the first element whose rate is not below its
      own. */
  function InsertByRate(x: LogRate, s: seq<LogRate>): seq<LogRate> {
    if s == [] || x.completionRate <= s[0].completionRate then [x] + s
    else [s[0]] + InsertByRate(x, s[1..])
  }

  /** `.sort((a, b) => a.completionRate - b.completionRate)`: a stable sort,
      as `Array.prototype.sort` is required to be. */
  function SortByRate(xs: seq<LogRate>): seq<LogRate> {
    if xs == [] then [] else InsertByRate(xs[0], SortByRate(xs[1..]))
  }

  /** `sortedHealthData`. */
  function SortedHealthData(g: Groups, start: int, now: int): (r: seq<LogRate>)
    requires start <= now
    requires g.WellFormed()
    ensures Ascending(r)
    ensures multiset(r) == multiset(LogRates(g.keys, g.lists, start, now))
    ensures |r| == |g.keys|
  {
    var rates := LogRates(g.keys, g.lists, start, now);
    SortByRateAscending(rates);
    SortByRateMultiset(rates);
    assert |SortByRate(rates)| == |multiset(SortByRate(rates))| == |multiset(rates)|;
    SortByRate(rates)
  }

  lemma {:induction false} InsertAscending(x: LogRate, s: seq<LogRate>)
    requires Ascending(s)
    ensures Ascending(InsertByRate(x, s))
    ensures InsertByRate(x, s)[0] == if s == [] || x.completionRate <= s[0].completionRate then x else s[0]
  {
    if s != [] && x.completionRate > s[0].completionRate {
      var t := s[1..];
      InsertAscending(x, t);
      var r := InsertByRate(x, t);
      assert t != [] ==> s[0].completionRate <= t[0].completionRate;
      assert s[0].completionRate <= r[0].completionRate;
      var q := [s[0]] + r;
      forall i, j | 0 <= i < j < |q|
        ensures q[i].completionRate <= q[j].completionRate
      {
        if i == 0 {
          assert q[j] == r[j - 1];
          assert r[0].completionRate <= r[j - 1].completionRate;
        } else {
          assert q[i] == r[i - 1] && q[j] == r[j - 1];
        }
      }
    }
  }

  lemma {:induction false} InsertByRateMultiset(x: LogRate, s: seq<LogRate>)
    ensures multiset(InsertByRate(x, s)) == multiset(s) + multiset{x}
  {
    if s != [] && x.completionRate > s[0].completionRate {
      InsertByRateMultiset(x, s[1..]);
      assert s == [s[0]] + s[1..];
    }
  }

  /** The test "has completion rate `r`". */
  function RateIs(r: nat): LogRate -> bool {
    (x: LogRate) => x.completionRate == r
  }

  /** Among the elements of one rate, `x` goes in front. */
  lemma {:induction false} InsertByRateStable(x: LogRate, s: seq<LogRate>, r: nat)
    ensures Filter(InsertByRate(x, s), RateIs(r)) == Filter([x] + s, RateIs(r))
  {
    var p := RateIs(r);
    if s != [] && x.completionRate > s[0].completionRate {
      var t := s[1..];
      InsertByRateStable(x, t, r);
      var hx := if p(x) then [x] else [];
      var hs := if p(s[0]) then [s[0]] else [];
      assert hx == [] || hs == [];
      var rest := InsertByRate(x, t);
      assert ([s[0]] + rest)[0] == s[0] && ([s[0]] + rest)[1..] == rest;
      assert ([x] + t)[0] == x && ([x] + t)[1..] == t;
      assert ([x] + s)[0] == x && ([x] + s)[1..] == s;
      calc {
        Filter(InsertByRate(x, s), p);
        hs + Filter(rest, p);
        hs + (hx + Filter(t, p));
        hx + (hs + Filter(t, p));
        hx + Filter(s, p);
        Filter([x] + s, p);
      }
    }
  }

  /** The sort orders by rate. */
  lemma {:induction false} SortByRateAscending(xs: seq<LogRate>)
    ensures Ascending(SortByRate(xs))
  {
    if xs != [] {
      SortByRateAscending(xs[1..]);
      InsertAscending(xs[0], SortByRate(xs[1..]));
    }
  }

  /** The sort keeps every element as often as it occurs. */
  lemma {:induction false} SortByRateMultiset(xs: seq<LogRate>)
    ensures multiset(SortByRate(xs)) == multiset(xs)
  {
    if xs != [] {
      SortByRateMultiset(xs[1..]);
      InsertByRateMultiset(xs[0], SortByRate(xs[1..]));
      assert xs == [xs[0]] + xs[1..];
    }
  }

  /** The sort keeps the original order among elements of equal rate. */
  lemma {:induction false} SortByRateStable(xs: seq<LogRate>, r: nat)
    ensures Filter(SortByRate(xs), RateIs(r)) == Filter(xs, RateIs(r))
  {
    if xs != [] {
      var t := SortByRate(xs[1..]);
      SortByRateStable(xs[1..], r);
      InsertByRateStable(xs[0], t, r);
      assert ([xs[0]] + t)[0] == xs[0] && ([xs[0]] + t)[1..] == t;
    }
  }

  /** `sortedHealthData` lists every log once with its own rate, in
      ascending order of rate, logs of equal rate in the order their
      groups were created. */
  lemma SortedHealthDataSpec(g: Groups, start: int, now: int)
    requires start <= now
    requires g.WellFormed()
    ensures var sorted, rates := SortedHealthData(g, start, now), LogRates(g.keys, g.lists, start, now);
      && Ascending(sorted)
      && multiset(sorted) == multiset(rates)
      && (forall r: nat :: Filter(sorted, RateIs(r)) == Filter(rates, RateIs(r)))
  {
    var rates := LogRates(g.keys, g.lists, start, now);
    SortByRateAscending(rates);
    SortByRateMultiset(rates);
    forall r: nat
      ensures Filter(SortByRate(rates), RateIs(r)) == Filter(rates, RateIs(r))
    {
      SortByRateStable(rates, r);
    }
  }

  /** `unitMapping`. */
  const UnitTable: map<string, string> := map[
    "Active Calories" := "kcal",
    "Resting Calories" := "kcal",
    "Protein" := "g",
    "Water" := "ml",
    "Total Fat" := "g",
    "Body Fat Percentage" := "%",
    "Carbohydrates" := "g",
    "Caffeine" := "mg",
    "Calcium" := "mg",
    "VO2 Max" := "mL/kg/min",
    "Cycling Distance" := "km",
    "Exercise Time" := "minutes",
    "Heart Rate Variability" := "ms",
    "Iron" := "mg",
    "Magnesium" := "mg",
    "Resting Heart Rate" := "bpm",
    "Running Power" := "watts",
    "Running Speed" := "km/h",
    "Selenium" := "mcg",
    "Swimming Distance" := "km",
    "Vitamin B6" := "mg",
    "Vitamin B12" := "mcg",
    "Vitamin D" := "IU",
    "Walking + Running Distance" := "km",
    "Zinc" := "mg"
  ]

  /** `unitMapping[log] || ""`: a missing key and an empty unit both give
      the empty label. A known log gets its unit, and the label is empty
      exactly for the logs the table does not know. */
  function GetUnitLabel(log: string): (r: string)
    ensures log in UnitTable ==> r == UnitTable[log]
    ensures r == "" <==> log !in UnitTable
  {
    assert forall k :: k in UnitTable ==> UnitTable[k] != "";
    if log in UnitTable && UnitTable[log] != "" then UnitTable[log] else ""
  }
}
