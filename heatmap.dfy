/** The data the heatmap plots: one point of value 1 per (habit, date)
    entry, dated by `parseISO`, kept when it falls in the 30 days before
    now, and the habits that have a point, each once, in the order they
    first appear. The window is fixed; no start date enters it. */
module Heatmap {
  import opened Options
  import opened Dates
  import opened Seqs
  import opened CsvParser

  /** `subDays(endDate, 30)`: the days the window reaches back. */
  const WINDOW_DAYS: int := 30

  /** `{ habit, date: parseISO(date), value: 1 }`; `None` is an Invalid Date. */
  datatype HeatPoint = HeatPoint(habit: string, date: Option<int>, value: int)

  /** `date => ({ habit, date: parseISO(date), value: 1 })`. */
  function PointOf(habit: string): string -> HeatPoint {
    d => HeatPoint(habit, ParseDate(d), 1)
  }

  /** `dates.map(...)` for one habit. */
  function PointsOf(habit: string, dates: seq<string>): seq<HeatPoint> {
    Map(dates, PointOf(habit))
  }

  /** `Object.entries(habits).flatMap(...)`, in key order. */
  function AllPoints(keys: seq<string>, lists: map<string, seq<string>>): seq<HeatPoint>
    requires forall i :: 0 <= i < |keys| ==> keys[i] in lists
  {
    if keys == [] then [] else PointsOf(keys[0], lists[keys[0]]) + AllPoints(keys[1..], lists)
  }

  /** `item.date >= startDate && item.date <= endDate`: an Invalid Date
      fails both. */
  predicate InWindowAt(t: Option<int>, now: int) {
    t.Some? && now - WINDOW_DAYS * DAY <= t.value <= now
  }

  function InWindow(now: int): HeatPoint -> bool {
    (p: HeatPoint) => InWindowAt(p.date, now)
  }

  function DateInWindow(now: int): string -> bool {
    d => InWindowAt(ParseDate(d), now)
  }

  /** `data`: every point lies in the 30 days up to now, has value 1 and
      belongs to one of the habits. */
  function HeatmapData(g: Groups, now: int): (r: seq<HeatPoint>)
    requires g.WellFormed()
    ensures forall p :: p in r ==>
      && p.date.Some? && now - 30 * DAY <= p.date.value <= now
      && p.value == 1
      && p.habit in g.keys
  {
    AllPointsShape(g.keys, g.lists);
    FilterMembers(AllPoints(g.keys, g.lists), InWindow(now));
    Filter(AllPoints(g.keys, g.lists), InWindow(now))
  }

  function HabitOf(p: HeatPoint): string {
    p.habit
  }

  /** `[...new Set(data.map(item => item.habit))]`: each habit of a point,
      once. */
  function UniqueHabits(data: seq<HeatPoint>): (r: seq<string>)
    ensures NoDuplicates(r)
    ensures forall h :: h in r <==> exists i :: 0 <= i < |data| && data[i].habit == h
  {
    MapMembers(data, HabitOf);
    Distinct(Map(data, HabitOf))
  }

  /** The points of each habit, kept in the window, key by key. */
  function WindowPoints(keys: seq<string>, lists: map<string, seq<string>>, now: int): seq<HeatPoint>
    requires forall i :: 0 <= i < |keys| ==> keys[i] in lists
  {
    if keys == [] then []
    else PointsOf(keys[0], Filter(lists[keys[0]], DateInWindow(now))) + WindowPoints(keys[1..], lists, now)
  }

  /** Filtering the points is filtering each habit's dates. */
  lemma {:induction false} FilterAllPoints(keys: seq<string>, lists: map<string, seq<string>>, now: int)
    requires forall i :: 0 <= i < |keys| ==> keys[i] in lists
    ensures Filter(AllPoints(keys, lists), InWindow(now)) == WindowPoints(keys, lists, now)
  {
    if keys != [] {
      var k := keys[0];
      FilterAllPoints(keys[1..], lists, now);
      FilterAppend(PointsOf(k, lists[k]), AllPoints(keys[1..], lists), InWindow(now));
      FilterMap(lists[k], PointOf(k), InWindow(now), DateInWindow(now));
    }
  }

  /** Every point carries value 1 and a habit among the keys. */
  lemma {:induction false} AllPointsShape(keys: seq<string>, lists: map<string, seq<string>>)
    requires forall i :: 0 <= i < |keys| ==> keys[i] in lists
    ensures forall p :: p in AllPoints(keys, lists) ==> p.value == 1 && p.habit in keys
  {
    if keys != [] {
      AllPointsShape(keys[1..], lists);
      MapMembers(lists[keys[0]], PointOf(keys[0]));
    }
  }

  /** The test "belongs to habit `h`". */
  function HabitIs(h: string): HeatPoint -> bool {
    (p: HeatPoint) => p.habit == h
  }

  /** The points of one habit's dates are all that habit's. */
  lemma PointsOfHabit(k: string, dates: seq<string>, h: string)
    ensures Filter(PointsOf(k, dates), HabitIs(h)) == if k == h then PointsOf(k, dates) else []
  {
    if k == h {
      FilterAll(PointsOf(k, dates), HabitIs(h));
    } else {
      FilterNone(PointsOf(k, dates), HabitIs(h));
    }
  }

  /** With each key listed once, the points of habit `h` come from its own
      dates only. */
  lemma {:induction false} WindowPointsOfHabit(keys: seq<string>, lists: map<string, seq<string>>, now: int, h: string)
    requires forall i :: 0 <= i < |keys| ==> keys[i] in lists
    requires NoDuplicates(keys)
    ensures Filter(WindowPoints(keys, lists, now), HabitIs(h)) ==
      if h in keys then PointsOf(h, Filter(lists[h], DateInWindow(now))) else []
  {
    if keys != [] {
      var k, rest := keys[0], keys[1..];
      assert forall i :: 0 <= i < |rest| ==> rest[i] == keys[i + 1];
      WindowPointsOfHabit(rest, lists, now, h);
      var mine := PointsOf(k, Filter(lists[k], DateInWindow(now)));
      FilterAppend(mine, WindowPoints(rest, lists, now), HabitIs(h));
      PointsOfHabit(k, Filter(lists[k], DateInWindow(now)), h);
      assert keys == [k] + rest;
      if k == h {
        assert h !in rest;
      }
    }
  }

  /** One point per in-window entry of each habit, duplicates included: the
      points of habit `h` are its dates in the window, in their order. */
  lemma PointsPerHabit(g: Groups, now: int, h: string)
    requires g.WellFormed()
    ensures Filter(HeatmapData(g, now), HabitIs(h)) ==
      if h in g.keys then PointsOf(h, Filter(g.lists[h], DateInWindow(now))) else []
    ensures h in g.keys ==>
      |Filter(HeatmapData(g, now), HabitIs(h))| == |Filter(g.lists[h], DateInWindow(now))|
  {
    FilterAllPoints(g.keys, g.lists, now);
    WindowPointsOfHabit(g.keys, g.lists, now, h);
  }

  /** A habit occurs among the points exactly when some point is its. */
  lemma HabitAmongPoints(data: seq<HeatPoint>, h: string)
    ensures h in Map(data, HabitOf) <==> Filter(data, HabitIs(h)) != []
  {
    var mine := Filter(data, HabitIs(h));
    FilterMembers(data, HabitIs(h));
    MapMembers(data, HabitOf);
    if h in Map(data, HabitOf) {
      var i :| 0 <= i < |data| && HabitOf(data[i]) == h;
      assert data[i] in mine;
    }
    if mine != [] {
      assert mine[0] in data;
      var i :| 0 <= i < |data| && data[i] == mine[0];
      assert HabitOf(data[i]) == h;
    }
  }

  /** A habit has a point exactly when it is a key with a date in the
      window. */
  lemma HabitHasPoint(g: Groups, now: int, h: string)
    requires g.WellFormed()
    ensures h in Map(HeatmapData(g, now), HabitOf) <==>
      h in g.keys && Filter(g.lists[h], DateInWindow(now)) != []
  {
    HabitAmongPoints(HeatmapData(g, now), h);
    PointsPerHabit(g, now, h);
  }

  /** The habits on the axis are listed once each, are exactly the habits
      with a date in the window, and come in order of their first point. */
  lemma UniqueHabitsSpec(g: Groups, now: int)
    requires g.WellFormed()
    ensures var data := HeatmapData(g, now);
      && NoDuplicates(UniqueHabits(data))
      && (forall h :: h in UniqueHabits(data) <==>
            h in g.keys && Filter(g.lists[h], DateInWindow(now)) != [])
      && (forall i, j :: 0 <= i < j < |UniqueHabits(data)| ==>
            FirstIndex(Map(data, HabitOf), UniqueHabits(data)[i]) <
            FirstIndex(Map(data, HabitOf), UniqueHabits(data)[j]))
  {
    var data := HeatmapData(g, now);
    DistinctKeepsFirstOccurrenceOrder(Map(data, HabitOf));
    forall h
      ensures h in UniqueHabits(data) <==> h in g.keys && Filter(g.lists[h], DateInWindow(now)) != []
    {
      HabitHasPoint(g, now, h);
    }
  }
}
