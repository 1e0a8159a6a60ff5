/** The two CSV grouping parsers of `src/utils/csvParser.ts`. Each splits the
    text into lines, drops the first (the header), trims every other line,
    skips the blank ones, cuts a line at EVERY comma (quotes are deleted, not
    honoured), and pushes one element onto the list of the line's key in a
    dictionary. */
module CsvParser {
  import opened Options
  import opened Text
  import opened Seqs

  /** A JavaScript `Record<string, string[]>`: the keys in insertion order
      (the order `Object.entries` reports them) and the list under each key. */
  datatype Groups = Groups(keys: seq<string>, lists: map<string, seq<string>>) {

    /** The keys listed once each, and exactly the keys of the dictionary. */
    ghost predicate WellFormed() {
      NoDuplicates(keys) && forall k :: k in lists <==> k in keys
    }

    /** The number of elements over all lists. */
    function Size(): nat {
      SumLengths(keys, lists)
    }

    /** The dictionary after `if (!groups[key]) groups[key] = [];
        groups[key].push(item)`. */
    function Push(key: string, item: string): Groups {
      if key in lists then Groups(keys, lists[key := lists[key] + [item]])
      else Groups(keys + [key], lists[key := [item]])
    }
  }

  /** The total length of the lists under `keys` (a key without a list adds 0). */
  function SumLengths(keys: seq<string>, lists: map<string, seq<string>>): nat {
    if keys == [] then 0
    else
      var k := keys[|keys| - 1];
      SumLengths(keys[..|keys| - 1], lists) + (if k in lists then |lists[k]| else 0)
  }

  /** What one data line contributes: the key it is grouped under and the
      element pushed onto that key's list. */
  datatype Row = Row(key: string, item: string)

  /** A field after `val.replace(/"/g, '').trim()`. */
  function CleanField(f: string): string {
    Trim(RemoveQuotes(f))
  }

  /** A cleaned field holds no double quote, has no whitespace at either
      end, and holds a comma only if the raw field did. */
  lemma CleanFieldIsClean(f: string)
    ensures '"' !in CleanField(f) && IsTrimmed(CleanField(f))
    ensures ',' !in f ==> ',' !in CleanField(f)
  {
    RemoveQuotesSpec(f);
    TrimSpec(RemoveQuotes(f));
    if ',' !in f {
      assert multiset(f)[','] == 0;
      assert multiset(RemoveQuotes(f))[','] == 0;
    }
  }

  /** `parts.map(CleanField)`. */
  function CleanFields(parts: seq<string>): (r: seq<string>)
    ensures |r| == |parts|
    ensures forall i :: 0 <= i < |r| ==> r[i] == CleanField(parts[i])
  {
    if parts == [] then [] else [CleanField(parts[0])] + CleanFields(parts[1..])
  }

  /** The value array destructuring binds to position `i`: the field, or
      `undefined` past the end, which becomes the string "undefined" once
      used as a key or spliced into a template string. */
  function FieldOr(fields: seq<string>, i: nat): string {
    if i < |fields| then fields[i] else "undefined"
  }

  /** The cleaned fields of an already trimmed line. */
  function LineFields(line: string): seq<string> {
    CleanFields(Split(line, ','))
  }

  /** A habit line `date,habit`: grouped under the habit, the date pushed.
      A line that is all whitespace gives no row; any other gives a row
      whose habit and date are clean. */
  function HabitRow(line: string): (r: Option<Row>)
    ensures r.None? <==> AllWhitespace(line)
    ensures r.Some? ==> CleanHabitRow(r.value)
  {
    var t := Trim(line);
    TrimSpec(line);
    if t == [] then None
    else
      var f := LineFields(t);
      FieldOrIsClean(Split(t, ','), 0);
      FieldOrIsClean(Split(t, ','), 1);
      Some(Row(FieldOr(f, 1), FieldOr(f, 0)))
  }

  /** The composite element `${date},${log},${value}` of a health line. */
  function HealthItem(date: string, log: string, value: string): string {
    date + "," + log + "," + value
  }

  /** A health line `date,log,value`: grouped under the log, the composite
      string pushed. A line that is all whitespace gives no row; any other
      gives a row whose element splits back into its three clean fields. */
  function HealthRow(line: string): (r: Option<Row>)
    ensures r.None? <==> AllWhitespace(line)
    ensures r.Some? ==> HealthRowRoundTrips(r.value)
  {
    var t := Trim(line);
    TrimSpec(line);
    if t == [] then None
    else
      var pieces := Split(t, ',');
      var f := CleanFields(pieces);
      SplitPieces(t, ',');
      FieldOrIsClean(pieces, 0);
      FieldOrIsClean(pieces, 1);
      FieldOrIsClean(pieces, 2);
      HealthItemSplits(FieldOr(f, 0), FieldOr(f, 1), FieldOr(f, 2));
      Some(Row(FieldOr(f, 1), HealthItem(FieldOr(f, 0), FieldOr(f, 1), FieldOr(f, 2))))
  }

  function RowsOf(r: Option<Row>): seq<Row> {
    match r
    case None => []
    case Some(row) => [row]
  }

  /** The rows of the habit data lines `lines`, in line order. */
  function HabitRows(lines: seq<string>): seq<Row> {
    if lines == [] then []
    else HabitRows(lines[..|lines| - 1]) + RowsOf(HabitRow(lines[|lines| - 1]))
  }

  /** The rows of the health data lines `lines`, in line order. */
  function HealthRows(lines: seq<string>): seq<Row> {
    if lines == [] then []
    else HealthRows(lines[..|lines| - 1]) + RowsOf(HealthRow(lines[|lines| - 1]))
  }

  /** The keys of `rows`, one per row. */
  function KeysOf(rows: seq<Row>): seq<string> {
    if rows == [] then [] else KeysOf(rows[..|rows| - 1]) + [rows[|rows| - 1].key]
  }

  /** The items of the rows with key `k`, in row order. */
  function ItemsFor(rows: seq<Row>, k: string): seq<string> {
    if rows == [] then []
    else
      var last := rows[|rows| - 1];
      ItemsFor(rows[..|rows| - 1], k) + (if last.key == k then [last.item] else [])
  }

  /** Reference definition of the dictionary the parsers build from `rows`:
      the distinct keys in order of first appearance, each mapped to its
      items in row order. */
  function GroupRows(rows: seq<Row>): (g: Groups)
    ensures g.WellFormed()
    ensures forall k :: k in g.lists ==> g.lists[k] != []
  {
    ItemsForKnownKeysAll(rows);
    Groups(Distinct(KeysOf(rows)), map k | k in KeysOf(rows) :: ItemsFor(rows, k))
  }

  /** A key no row carries has no items; one that some row carries has some. */
  lemma {:induction false} ItemsForKnownKeys(rows: seq<Row>, k: string)
    ensures ItemsFor(rows, k) == [] <==> k !in KeysOf(rows)
  {
    if rows != [] {
      ItemsForKnownKeys(rows[..|rows| - 1], k);
    }
  }

  lemma ItemsForKnownKeysAll(rows: seq<Row>)
    ensures forall k :: ItemsFor(rows, k) == [] <==> k !in KeysOf(rows)
  {
    forall k
      ensures ItemsFor(rows, k) == [] <==> k !in KeysOf(rows)
    {
      ItemsForKnownKeys(rows, k);
    }
  }

  /** What appending one row does to the keys, the item lists and the
      distinct keys. */
  lemma AppendRow(rows: seq<Row>, r: Row)
    ensures KeysOf(rows + [r]) == KeysOf(rows) + [r.key]
    ensures forall k :: ItemsFor(rows + [r], k) ==
              ItemsFor(rows, k) + (if r.key == k then [r.item] else [])
    ensures Distinct(KeysOf(rows + [r])) ==
              if r.key in KeysOf(rows) then Distinct(KeysOf(rows))
              else Distinct(KeysOf(rows)) + [r.key]
  {
    assert (rows + [r])[..|rows|] == rows;
    assert (KeysOf(rows) + [r.key])[..|KeysOf(rows)|] == KeysOf(rows);
  }

  /** The dictionary `keys`/`lists` is the grouping of `rows`. */
  ghost predicate Tracks(keys: seq<string>, lists: map<string, seq<string>>, rows: seq<Row>) {
    && keys == Distinct(KeysOf(rows))
    && (forall k :: k in lists <==> k in KeysOf(rows))
    && (forall k :: k in lists ==> lists[k] == ItemsFor(rows, k))
  }

  /** Pushing a row's item under its key keeps the dictionary the grouping
      of the rows seen so far. */
  lemma TracksPush(keys: seq<string>, lists: map<string, seq<string>>, rows: seq<Row>, r: Row)
    requires Tracks(keys, lists, rows)
    ensures var g := Groups(keys, lists).Push(r.key, r.item);
      Tracks(g.keys, g.lists, rows + [r])
  {
    AppendRow(rows, r);
    ItemsForKnownKeys(rows, r.key);
    var g := Groups(keys, lists).Push(r.key, r.item);
    forall k | k in g.lists
      ensures g.lists[k] == ItemsFor(rows + [r], k)
    {
      if k != r.key {
        assert g.lists[k] == lists[k];
      }
    }
  }

  /** `if (!groups[key]) groups[key] = []; groups[key].push(item)`: the step
      both parsers take for each data line. */
  method AddToGroup(keys: seq<string>, lists: map<string, seq<string>>, key: string, item: string)
    returns (keys': seq<string>, lists': map<string, seq<string>>)
    ensures Groups(keys', lists') == Groups(keys, lists).Push(key, item)
  {
    keys', lists' := keys, lists;
    if key !in lists' {
      lists' := lists'[key := []];
      keys' := keys' + [key];
    }
    lists' := lists'[key := lists'[key] + [item]];
    assert key !in lists ==> lists'[key] == [item];
  }

  /** The grouping of `rows`, read back from a dictionary that tracks it. */
  lemma TracksGroupRows(keys: seq<string>, lists: map<string, seq<string>>, rows: seq<Row>)
    requires Tracks(keys, lists, rows)
    ensures Groups(keys, lists) == GroupRows(rows)
  {
    assert lists == GroupRows(rows).lists;
  }

  /** No rows make the empty dictionary. */
  lemma GroupRowsNil()
    ensures GroupRows([]) == Groups([], map[])
  {
    assert KeysOf([]) == [];
  }

  /** The grouping after one more optional row. */
  function PushRow(g: Groups, r: Option<Row>): Groups {
    match r
    case None => g
    case Some(row) => g.Push(row.key, row.item)
  }

  /** Line `i` of a habit file is the next data line after lines 1 to
      `i - 1`: a blank line leaves the grouping alone, any other pushes its
      date under its habit. */
  lemma NextHabitLine(lines: seq<string>, i: nat)
    requires 1 <= i < |lines|
    ensures GroupRows(HabitRows(lines[1..i + 1])) == PushRow(GroupRows(HabitRows(lines[1..i])), HabitRow(lines[i]))
  {
    assert lines[1..i + 1] == lines[1..i] + [lines[i]];
    AppendHabitLine(lines[1..i], lines[i]);
    match HabitRow(lines[i])
    case None =>
      assert HabitRows(lines[1..i + 1]) == HabitRows(lines[1..i]);
    case Some(r) =>
      GroupRowsAppend(HabitRows(lines[1..i]), r);
  }

  /** Line `i` of a health file is the next data line after lines 1 to
      `i - 1`: a blank line leaves the grouping alone, any other pushes its
      composite element under its log. */
  lemma NextHealthLine(lines: seq<string>, i: nat)
    requires 1 <= i < |lines|
    ensures GroupRows(HealthRows(lines[1..i + 1])) == PushRow(GroupRows(HealthRows(lines[1..i])), HealthRow(lines[i]))
  {
    assert lines[1..i + 1] == lines[1..i] + [lines[i]];
    AppendHealthLine(lines[1..i], lines[i]);
    match HealthRow(lines[i])
    case None =>
      assert HealthRows(lines[1..i + 1]) == HealthRows(lines[1..i]);
    case Some(r) =>
      GroupRowsAppend(HealthRows(lines[1..i]), r);
  }

  /** What one more data line does to the health rows. */
  lemma AppendHealthLine(lines: seq<string>, line: string)
    ensures HealthRows(lines + [line]) == HealthRows(lines) + RowsOf(HealthRow(line))
  {
    assert (lines + [line])[..|lines|] == lines;
  }

  /** The data lines: every line after the first. */
  function DataLines(csv: string): seq<string> {
    Split(csv, '\n')[1..]
  }

  function HabitGroups(csv: string): Groups {
    GroupRows(HabitRows(DataLines(csv)))
  }

  function HealthGroups(csv: string): Groups {
    GroupRows(HealthRows(DataLines(csv)))
  }

  // ---------------------------------------------------------------------
  // What the parsers promise
  // ---------------------------------------------------------------------

  /** A stored key or field: no double quote and no whitespace at either end. */
  predicate IsCleanField(s: string) {
    '"' !in s && IsTrimmed(s)
  }

  /** The number of lines that are not blank once trimmed. */
  function NonBlankCount(lines: seq<string>): nat {
    if lines == [] then 0
    else NonBlankCount(lines[..|lines| - 1]) + (if Trim(lines[|lines| - 1]) == [] then 0 else 1)
  }

  /** Adding one to the list of a key listed once adds one to the total. */
  lemma {:induction false} SumLengthsPush(keys: seq<string>, lists: map<string, seq<string>>,
                                          k: string, item: string)
    requires NoDuplicates(keys) && k in keys && k in lists
    ensures SumLengths(keys, lists[k := lists[k] + [item]]) == SumLengths(keys, lists) + 1
  {
    var init := keys[..|keys| - 1];
    if keys[|keys| - 1] == k {
      assert k !in init;
      SumLengthsOther(init, lists, k, lists[k] + [item]);
    } else {
      assert k in init;
      SumLengthsPush(init, lists, k, item);
    }
  }

  /** The list of a key that is not listed does not count. */
  lemma {:induction false} SumLengthsOther(keys: seq<string>, lists: map<string, seq<string>>,
                                           k: string, v: seq<string>)
    requires k !in keys
    ensures SumLengths(keys, lists[k := v]) == SumLengths(keys, lists)
  {
    if keys != [] {
      SumLengthsOther(keys[..|keys| - 1], lists, k, v);
    }
  }

  /** Grouping one more row pushes its item onto its key's list, creating
      the list (and listing the key last) when the key is new. */
  lemma GroupRowsAppend(rows: seq<Row>, r: Row)
    ensures GroupRows(rows + [r]) == GroupRows(rows).Push(r.key, r.item)
  {
    var g := GroupRows(rows);
    assert Tracks(g.keys, g.lists, rows);
    TracksPush(g.keys, g.lists, rows, r);
    var g' := g.Push(r.key, r.item);
    TracksGroupRows(g'.keys, g'.lists, rows + [r]);
  }

  /** Every row adds exactly one element to the grouping. */
  lemma {:induction false} GroupRowsSize(rows: seq<Row>)
    ensures GroupRows(rows).Size() == |rows|
  {
    if rows != [] {
      var init, r := rows[..|rows| - 1], rows[|rows| - 1];
      assert rows == init + [r];
      GroupRowsSize(init);
      GroupRowsAppend(init, r);
      var g := GroupRows(init);
      if r.key in g.lists {
        SumLengthsPush(g.keys, g.lists, r.key, r.item);
      } else {
        SumLengthsOther(g.keys, g.lists, r.key, [r.item]);
        assert (g.keys + [r.key])[..|g.keys|] == g.keys;
      }
    }
  }

  /** Each non-blank line gives exactly one habit row, each blank line none. */
  lemma {:induction false} HabitRowsCount(lines: seq<string>)
    ensures |HabitRows(lines)| == NonBlankCount(lines)
  {
    if lines != [] {
      HabitRowsCount(lines[..|lines| - 1]);
    }
  }

  /** Each non-blank line gives exactly one health row, each blank line none. */
  lemma {:induction false} HealthRowsCount(lines: seq<string>)
    ensures |HealthRows(lines)| == NonBlankCount(lines)
  {
    if lines != [] {
      HealthRowsCount(lines[..|lines| - 1]);
    }
  }

  /** The lists of a parsed habit file hold one date per non-blank data line. */
  lemma HabitGroupsSize(csv: string)
    ensures HabitGroups(csv).Size() == NonBlankCount(DataLines(csv))
  {
    GroupRowsSize(HabitRows(DataLines(csv)));
    HabitRowsCount(DataLines(csv));
  }

  /** The lists of a parsed health file hold one entry per non-blank data line. */
  lemma HealthGroupsSize(csv: string)
    ensures HealthGroups(csv).Size() == NonBlankCount(DataLines(csv))
  {
    GroupRowsSize(HealthRows(DataLines(csv)));
    HealthRowsCount(DataLines(csv));
  }

  /** The first line is the header: whatever it says, the data lines are the
      lines after it, so it never contributes a group or an element. */
  lemma HeaderIgnored(header: string, body: string)
    requires '\n' !in header
    ensures DataLines(header + "\n" + body) == Split(body, '\n')
    ensures HabitGroups(header + "\n" + body) == GroupRows(HabitRows(Split(body, '\n')))
    ensures HealthGroups(header + "\n" + body) == GroupRows(HealthRows(Split(body, '\n')))
  {
    SplitAtFirst(header, '\n', body);
  }

  /** A line added at the end of a file is pushed at the end of its key's
      list (the list is created first if the key is new, and the key is
      then the last one); every other list stays as it was. */
  lemma AppendedLineIsPushed(csv: string, line: string, r: Row)
    requires '\n' !in line && HabitRow(line) == Some(r)
    ensures var g, g' := HabitGroups(csv), HabitGroups(csv + "\n" + line);
      && g'.keys == (if r.key in g.lists then g.keys else g.keys + [r.key])
      && r.key in g'.lists
      && g'.lists[r.key] == (if r.key in g.lists then g.lists[r.key] else []) + [r.item]
    ensures var g, g' := HabitGroups(csv), HabitGroups(csv + "\n" + line);
      forall k :: k != r.key ==>
        && (k in g'.lists <==> k in g.lists)
        && (k in g.lists ==> g'.lists[k] == g.lists[k])
  {
    SplitAtLast(csv, '\n', line);
    assert csv + "\n" + line == csv + ['\n'] + line;
    assert DataLines(csv + "\n" + line) == DataLines(csv) + [line];
    AppendHabitLine(DataLines(csv), line);
    GroupRowsAppend(HabitRows(DataLines(csv)), r);
  }

  /** What one more data line does to the habit rows. */
  lemma AppendHabitLine(lines: seq<string>, line: string)
    ensures HabitRows(lines + [line]) == HabitRows(lines) + RowsOf(HabitRow(line))
  {
    assert (lines + [line])[..|lines|] == lines;
  }

  /** Every row in `rows` satisfies `P`. */
  ghost predicate AllRows(rows: seq<Row>, P: Row -> bool) {
    forall i :: 0 <= i < |rows| ==> P(rows[i])
  }

  /** A property of every row holds of every key with each element grouped under it. */
  lemma {:induction false} GroupedRowsSatisfy(rows: seq<Row>, P: Row -> bool)
    requires AllRows(rows, P)
    ensures forall k, j :: k in GroupRows(rows).lists && 0 <= j < |GroupRows(rows).lists[k]| ==>
              P(Row(k, GroupRows(rows).lists[k][j]))
  {
    if rows != [] {
      var init, r := rows[..|rows| - 1], rows[|rows| - 1];
      assert rows == init + [r];
      GroupedRowsSatisfy(init, P);
      AppendRow(init, r);
      forall k, j | k in GroupRows(rows).lists && 0 <= j < |GroupRows(rows).lists[k]|
        ensures P(Row(k, GroupRows(rows).lists[k][j]))
      {
        var items := ItemsFor(rows, k);
        assert items == ItemsFor(init, k) + (if r.key == k then [r.item] else []);
        if j < |ItemsFor(init, k)| {
          ItemsForKnownKeys(init, k);
          assert items[j] == GroupRows(init).lists[k][j];
        } else {
          assert items[j] == r.item && r == Row(k, r.item);
        }
      }
    }
  }

  /** A row of a habit line has a clean key and a clean date. */
  predicate CleanHabitRow(r: Row) {
    IsCleanField(r.key) && IsCleanField(r.item)
  }

  /** The string an `undefined` field turns into is clean and comma-free. */
  lemma UndefinedIsClean()
    ensures IsCleanField("undefined") && ',' !in "undefined"
  {
    var u := "undefined";
    assert u[0] == 'u' && u[|u| - 1] == 'd';
    assert forall j :: 0 <= j < |u| ==> u[j] != '"' && u[j] != ',';
  }

  /** A field read from a piece of a line is clean, and holds no comma. */
  lemma FieldOrIsClean(pieces: seq<string>, i: nat)
    ensures IsCleanField(FieldOr(CleanFields(pieces), i))
    ensures i < |pieces| && ',' !in pieces[i] ==> ',' !in FieldOr(CleanFields(pieces), i)
    ensures i >= |pieces| ==> ',' !in FieldOr(CleanFields(pieces), i)
  {
    if i < |pieces| {
      assert FieldOr(CleanFields(pieces), i) == CleanField(pieces[i]);
      CleanFieldIsClean(pieces[i]);
    } else {
      UndefinedIsClean();
    }
  }

  /** Every habit row is clean. */
  lemma {:induction false} HabitRowsClean(lines: seq<string>)
    ensures AllRows(HabitRows(lines), CleanHabitRow)
  {
    if lines != [] {
      var init, line := lines[..|lines| - 1], lines[|lines| - 1];
      HabitRowsClean(init);
    }
  }

  /** Every key of `g`, and every element grouped under it, is clean. */
  ghost predicate AllClean(g: Groups) {
    && (forall k :: k in g.lists ==> IsCleanField(k))
    && (forall k, j :: k in g.lists && 0 <= j < |g.lists[k]| ==> IsCleanField(g.lists[k][j]))
  }

  /** Clean rows make a clean grouping. */
  lemma GroupRowsClean(rows: seq<Row>)
    requires AllRows(rows, CleanHabitRow)
    ensures AllClean(GroupRows(rows))
  {
    var g := GroupRows(rows);
    forall k | k in g.lists
      ensures IsCleanField(k)
    {
      GroupedEntryClean(rows, k, 0);
    }
    forall k, j | k in g.lists && 0 <= j < |g.lists[k]|
      ensures IsCleanField(g.lists[k][j])
    {
      GroupedEntryClean(rows, k, j);
    }
  }

  lemma GroupedEntryClean(rows: seq<Row>, k: string, j: int)
    requires AllRows(rows, CleanHabitRow)
    requires k in GroupRows(rows).lists && 0 <= j < |GroupRows(rows).lists[k]|
    ensures IsCleanField(k) && IsCleanField(GroupRows(rows).lists[k][j])
  {
    GroupedRowsSatisfy(rows, CleanHabitRow);
    var r := Row(k, GroupRows(rows).lists[k][j]);
    assert CleanHabitRow(r);
  }

  /** The keys and dates of a parsed habit file hold no double quote and no
      whitespace at either end. */
  lemma HabitGroupsClean(csv: string)
    ensures AllClean(HabitGroups(csv))
  {
    HabitRowsClean(DataLines(csv));
    GroupRowsClean(HabitRows(DataLines(csv)));
  }

  /** A health element splits back into three clean fields, the middle one
      being the key it is grouped under. */
  predicate HealthRowRoundTrips(r: Row) {
    var parts := Split(r.item, ',');
    && |parts| == 3 && parts[1] == r.key && IsCleanField(r.key)
    && IsCleanField(parts[0]) && IsCleanField(parts[2])
  }

  /** The composite string splits back into its three comma-free fields. */
  lemma HealthItemSplits(date: string, log: string, value: string)
    requires ',' !in date && ',' !in log && ',' !in value
    ensures Split(HealthItem(date, log, value), ',') == [date, log, value]
  {
    assert Join([date, log, value], ',') == HealthItem(date, log, value) by {
      assert Join([log, value], ',') == log + [','] + value;
    }
    SplitJoin([date, log, value], ',');
  }

  /** Every health row round-trips. */
  lemma {:induction false} HealthRowsRoundTrip(lines: seq<string>)
    ensures AllRows(HealthRows(lines), HealthRowRoundTrips)
  {
    if lines != [] {
      HealthRowsRoundTrip(lines[..|lines| - 1]);
    }
  }

  /** Every element of a parsed health file splits on `,` into exactly
      `[date, log, value]`, its `log` is the key it is grouped under, and
      the key and all three fields hold no double quote and no whitespace
      at either end. */
  lemma HealthGroupsRoundTrip(csv: string)
    ensures var g := HealthGroups(csv);
      forall k, j :: k in g.lists && 0 <= j < |g.lists[k]| ==>
        var parts := Split(g.lists[k][j], ',');
        && |parts| == 3 && parts[1] == k && IsCleanField(k)
        && IsCleanField(parts[0]) && IsCleanField(parts[2])
  {
    HealthRowsRoundTrip(DataLines(csv));
    GroupedRowsSatisfy(HealthRows(DataLines(csv)), HealthRowRoundTrips);
  }

  /** Quotes do not protect a comma: a quoted habit is cut at its first
      comma and grouped under the part before it. */
  lemma QuotedCommaCutsHabit(date: string, first: string, rest: string)
    requires date != [] && IsCleanField(date) && ',' !in date
    requires IsCleanField(first) && ',' !in first
    requires ',' !in rest
    ensures HabitRow(date + ",\"" + first + "," + rest + "\"") == Some(Row(first, date))
  {
    var line := date + ",\"" + first + "," + rest + "\"";
    assert IsTrimmed(line);
    TrimSpec(line);
    assert line == date + [','] + (['"'] + first + [','] + (rest + ['"']));
    SplitAtFirst(date, ',', ['"'] + first + [','] + (rest + ['"']));
    SplitAtFirst(['"'] + first, ',', rest + ['"']);
    SplitNoSeparator(rest + ['"'], ',');
    var pieces := Split(line, ',');
    assert pieces == [date, ['"'] + first, rest + ['"']];
    RemoveQuotesSpec(date);
    TrimSpec(date);
    assert RemoveQuotes(['"'] + first) == RemoveQuotes(first);
    RemoveQuotesSpec(first);
    TrimSpec(first);
  }

  /** Cleaning leaves a clean field as it is. */
  lemma CleanFieldOfClean(f: string)
    requires IsCleanField(f)
    ensures CleanField(f) == f
  {
    RemoveQuotesSpec(f);
    TrimSpec(f);
  }

  /** Two fields joined by a comma make a trimmed line when each is trimmed. */
  lemma CommaJoinTrimmed(a: string, b: string)
    requires IsTrimmed(a) && IsTrimmed(b)
    ensures IsTrimmed(a + [','] + b)
  {
    var line := a + [','] + b;
    assert line[0] == if a == [] then ',' else a[0];
    assert line[|line| - 1] == if b == [] then ',' else b[|b| - 1];
  }

  /** A habit line `date,habit` of clean comma-free fields is grouped under
      the habit, with the date pushed. */
  lemma PlainHabitLine(date: string, habit: string)
    requires IsCleanField(date) && ',' !in date
    requires IsCleanField(habit) && ',' !in habit
    ensures HabitRow(date + "," + habit) == Some(Row(habit, date))
  {
    var line := date + "," + habit;
    CommaJoinTrimmed(date, habit);
    TrimSpec(line);
    assert line[|date|] == ',';
    SplitAtFirst(date, ',', habit);
    SplitNoSeparator(habit, ',');
    CleanFieldOfClean(date);
    CleanFieldOfClean(habit);
  }

  /** A habit line `date,"habit"` with the habit quoted reads as the plain
      line: the quotes are deleted. */
  lemma QuotedHabitLine(date: string, habit: string)
    requires IsCleanField(date) && ',' !in date
    requires IsCleanField(habit) && ',' !in habit
    ensures HabitRow(date + ",\"" + habit + "\"") == Some(Row(habit, date))
  {
    var quoted := ['"'] + habit + ['"'];
    var line := date + ",\"" + habit + "\"";
    assert line == date + [','] + quoted;
    assert IsTrimmed(quoted) by {
      assert quoted[0] == '"' && quoted[|quoted| - 1] == '"';
    }
    CommaJoinTrimmed(date, quoted);
    TrimSpec(line);
    assert line[|date|] == ',';
    assert ',' !in quoted;
    SplitAtFirst(date, ',', quoted);
    SplitNoSeparator(quoted, ',');
    CleanFieldOfClean(date);
    assert RemoveQuotes(quoted) == habit by {
      assert RemoveQuotes(quoted) == RemoveQuotes(habit + ['"']) by {
        assert quoted == ['"'] + (habit + ['"']);
      }
      RemoveQuotesSpec(habit + ['"']);
      RemoveQuotesSpec(habit);
      FilterAppend(habit, ['"'], NotQuote);
      assert Filter(['"'], NotQuote) == [];
      assert RemoveQuotes(habit) == habit by {
        RemoveQuotesSpec(habit);
      }
    }
    TrimSpec(habit);
  }

  /** A health line `date,log,value` of clean comma-free fields is grouped
      under the log, with the composite of the three fields pushed. */
  lemma PlainHealthLine(date: string, log: string, value: string)
    requires IsCleanField(date) && ',' !in date
    requires IsCleanField(log) && ',' !in log
    requires IsCleanField(value) && ',' !in value
    ensures HealthRow(date + "," + log + "," + value) == Some(Row(log, HealthItem(date, log, value)))
  {
    var line := HealthItem(date, log, value);
    CommaJoinTrimmed(log, value);
    CommaJoinTrimmed(date, log + [','] + value);
    assert line == date + [','] + (log + [','] + value);
    TrimSpec(line);
    HealthItemSplits(date, log, value);
    CleanFieldOfClean(date);
    CleanFieldOfClean(log);
    CleanFieldOfClean(value);
  }

  /** Fields past the second of a habit line are ignored: destructuring
      `[date, habit]` reads only the first two. */
  lemma HabitLineExtraFields(date: string, habit: string, rest: string)
    requires IsCleanField(date) && ',' !in date
    requires IsCleanField(habit) && ',' !in habit
    requires IsTrimmed(rest)
    ensures HabitRow(date + "," + habit + "," + rest) == Some(Row(habit, date))
  {
    var tail := habit + [','] + rest;
    var line := date + [','] + tail;
    assert date + "," + habit + "," + rest == line;
    CommaJoinTrimmed(habit, rest);
    CommaJoinTrimmed(date, tail);
    TrimSpec(line);
    SplitAtFirst(date, ',', tail);
    SplitAtFirst(habit, ',', rest);
    CleanFieldOfClean(date);
    CleanFieldOfClean(habit);
  }

  /** Fields past the third of a health line are ignored: the element is
      built from `date`, `log` and `value` alone. */
  lemma HealthLineExtraFields(date: string, log: string, value: string, rest: string)
    requires IsCleanField(date) && ',' !in date
    requires IsCleanField(log) && ',' !in log
    requires IsCleanField(value) && ',' !in value
    requires IsTrimmed(rest)
    ensures HealthRow(date + "," + log + "," + value + "," + rest) ==
            Some(Row(log, HealthItem(date, log, value)))
  {
    var tail2 := value + [','] + rest;
    var tail1 := log + [','] + tail2;
    var line := date + [','] + tail1;
    assert date + "," + log + "," + value + "," + rest == line;
    CommaJoinTrimmed(value, rest);
    CommaJoinTrimmed(log, tail2);
    CommaJoinTrimmed(date, tail1);
    TrimSpec(line);
    SplitAtFirst(date, ',', tail1);
    SplitAtFirst(log, ',', tail2);
    SplitAtFirst(value, ',', rest);
    CleanFieldOfClean(date);
    CleanFieldOfClean(log);
    CleanFieldOfClean(value);
  }

  /** Appending the line `date,habit` to a habit file pushes the date onto
      the habit's list: `habits[habit].push(date)`. */
  lemma AppendedHabitLine(csv: string, date: string, habit: string)
    requires IsCleanField(date) && ',' !in date && '\n' !in date
    requires IsCleanField(habit) && ',' !in habit && '\n' !in habit
    ensures HabitGroups(csv + "\n" + (date + "," + habit)) == HabitGroups(csv).Push(habit, date)
  {
    var line := date + "," + habit;
    PlainHabitLine(date, habit);
    SplitAtLast(csv, '\n', line);
    assert csv + "\n" + line == csv + ['\n'] + line;
    assert DataLines(csv + "\n" + line) == DataLines(csv) + [line];
    AppendHabitLine(DataLines(csv), line);
    GroupRowsAppend(HabitRows(DataLines(csv)), Row(habit, date));
  }

  /** Appending the line `date,log,value` to a health file pushes the
      composite `date,log,value` onto the log's list. */
  lemma AppendedHealthLine(csv: string, date: string, log: string, value: string)
    requires IsCleanField(date) && ',' !in date && '\n' !in date
    requires IsCleanField(log) && ',' !in log && '\n' !in log
    requires IsCleanField(value) && ',' !in value && '\n' !in value
    ensures HealthGroups(csv + "\n" + HealthItem(date, log, value)) ==
            HealthGroups(csv).Push(log, HealthItem(date, log, value))
  {
    var line := HealthItem(date, log, value);
    PlainHealthLine(date, log, value);
    SplitAtLast(csv, '\n', line);
    assert csv + "\n" + line == csv + ['\n'] + line;
    assert DataLines(csv + "\n" + line) == DataLines(csv) + [line];
    AppendHealthLine(DataLines(csv), line);
    GroupRowsAppend(HealthRows(DataLines(csv)), Row(log, line));
  }

  /** A habit line without a comma has no second field: destructuring binds
      `undefined`, and the date is grouped under the key "undefined". */
  lemma HabitLineWithoutComma(date: string)
    requires date != [] && IsCleanField(date) && ',' !in date
    ensures HabitRow(date) == Some(Row("undefined", date))
  {
    TrimSpec(date);
    SplitNoSeparator(date, ',');
    CleanFieldOfClean(date);
  }

  /** A health line with two fields has no value: the composite ends in
      "undefined". */
  lemma HealthLineWithoutValue(date: string, log: string)
    requires IsCleanField(date) && ',' !in date
    requires IsCleanField(log) && ',' !in log
    ensures HealthRow(date + "," + log) == Some(Row(log, HealthItem(date, log, "undefined")))
  {
    var line := date + "," + log;
    CommaJoinTrimmed(date, log);
    TrimSpec(line);
    assert line[|date|] == ',';
    SplitAtFirst(date, ',', log);
    SplitNoSeparator(log, ',');
    CleanFieldOfClean(date);
    CleanFieldOfClean(log);
  }

  /** The body of `parseCSVData`'s loop up to the push: trims the line,
      skips it when blank, and otherwise splits it into `[date, habit]`. */
  method ReadHabitLine(rawLine: string) returns (row: Option<Row>)
    ensures row == HabitRow(rawLine)
    ensures row.None? <==> AllWhitespace(rawLine)
    ensures row.Some? ==> IsCleanField(row.value.key) && IsCleanField(row.value.item)
  {
    var line := Trim(rawLine);
    if line == [] {
      return None;
    }
    var fields := CleanFields(Split(line, ','));
    var date, habit := FieldOr(fields, 0), FieldOr(fields, 1);
    return Some(Row(habit, date));
  }

  /** `parseCSVData`: groups the dates of a habit file by habit. */
  method ParseCSVData(csvContent: string) returns (habits: Groups)
    ensures habits == HabitGroups(csvContent)
  {
    var lines := Split(csvContent, '\n');
    var keys: seq<string> := [];
    var lists: map<string, seq<string>> := map[];
    // line 0 is the header
    var i := 1;
    assert lines[1..i] == [];
    GroupRowsNil();
    while i < |lines|
      invariant 1 <= i <= |lines|
      invariant Groups(keys, lists) == GroupRows(HabitRows(lines[1..i]))
    {
      NextHabitLine(lines, i);
      var row := ReadHabitLine(lines[i]);
      if row.None? {
        i := i + 1;
        continue;
      }
      keys, lists := AddToGroup(keys, lists, row.value.key, row.value.item);
      i := i + 1;
    }
    assert lines[1..] == lines[1..i];
    habits := Groups(keys, lists);
  }

  /** The body of `parseHealthCSVData`'s loop up to the push: trims the
      line, skips it when blank, and otherwise splits it into
      `[date, log, value]` and joins them back into one element. */
  method ReadHealthLine(rawLine: string) returns (row: Option<Row>)
    ensures row == HealthRow(rawLine)
    ensures row.None? <==> AllWhitespace(rawLine)
    ensures row.Some? ==> HealthRowRoundTrips(row.value)
  {
    var line := Trim(rawLine);
    if line == [] {
      return None;
    }
    var fields := CleanFields(Split(line, ','));
    var date, log, value := FieldOr(fields, 0), FieldOr(fields, 1), FieldOr(fields, 2);
    // the element keeps the date and the value beside the log
    return Some(Row(log, HealthItem(date, log, value)));
  }

  /** `parseHealthCSVData`: groups the lines of a health file by log, each
      kept as the composite string `date,log,value`. */
  method ParseHealthCSVData(csvContent: string) returns (healthData: Groups)
    ensures healthData == HealthGroups(csvContent)
  {
    var lines := Split(csvContent, '\n');
    var keys: seq<string> := [];
    var lists: map<string, seq<string>> := map[];
    // line 0 is the header
    var i := 1;
    assert lines[1..i] == [];
    GroupRowsNil();
    while i < |lines|
      invariant 1 <= i <= |lines|
      invariant Groups(keys, lists) == GroupRows(HealthRows(lines[1..i]))
    {
      NextHealthLine(lines, i);
      var row := ReadHealthLine(lines[i]);
      if row.None? {
        i := i + 1;
        continue;
      }
      keys, lists := AddToGroup(keys, lists, row.value.key, row.value.item);
      i := i + 1;
    }
    assert lines[1..] == lines[1..i];
    healthData := Groups(keys, lists);
  }
}
