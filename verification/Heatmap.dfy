/**
 * src/server/analytics/heatmap.ts: the cells of the traffic heatmap and their levels. A label
 * stands for the text it is written as.
 */
module Heatmap {
  import opened Common
  import opened Sums
  import opened Time
  import opened Rollup

  datatype Axes = BY_HOUR | BY_DAY | BY_DEVICE | BY_NODE | BY_USER

  datatype Label =
    | IsoDay(day: int)
    | HourOfDay(hour: int)
    | DayOfWeek(weekday: int)
    | IsoHour(isoDay: int, isoHour: int)
    | Entity(dimension: Dimension)

  datatype Cell = Cell(row: Label, col: Label, bytes: nat)

  /** Which rows the query returns. No granularity is asked for. */
  predicate Asked(axes: Axes, filter: Option<Dimension>, range: Range, source: Option<Source>, key: Key) {
    && range.start <= key.start < range.end
    && (source.None? || key.source == source.value)
    && (filter.Some? ==> key.dimension == filter.value)
    && (filter.None? && (axes.BY_HOUR? || axes.BY_DAY?) ==> key.dimension == SYSTEM)
  }

  function Shown(rows: seq<Row>, axes: Axes, filter: Option<Dimension>, range: Range,
                 source: Option<Source>): seq<Row> {
    if rows == [] then []
    else
      var last := rows[|rows| - 1];
      Shown(rows[..|rows| - 1], axes, filter, range, source)
      + if Asked(axes, filter, range, source, last.key) then [last] else []
  }

  /** The cell a row belongs to, if any. Days of the week count from Monday. */
  function PlaceOf(axes: Axes, key: Key): Option<(Label, Label)> {
    var day, hour := Day(key.start), HourFromTime(key.start);
    match axes
    case BY_HOUR => Some((IsoDay(day), HourOfDay(hour)))
    case BY_DAY => Some((DayOfWeek((WeekDay(key.start) + 6) % 7), IsoDay(day)))
    case BY_DEVICE => if key.dimension.DEVICE? then Some((Entity(key.dimension), IsoHour(day, hour))) else None
    case BY_NODE => if key.dimension.NODE? then Some((Entity(key.dimension), IsoHour(day, hour))) else None
    case BY_USER => if key.dimension.USER? then Some((Entity(key.dimension), IsoHour(day, hour))) else None
  }

  function At(axes: Axes, row: Label, col: Label): Row -> nat {
    (r: Row) => if PlaceOf(axes, r.key) == Some((row, col)) then r.bytes else 0
  }

  function InRow(axes: Axes, row: Label): Row -> nat {
    (r: Row) => if PlaceOf(axes, r.key).Some? && PlaceOf(axes, r.key).value.0 == row then r.bytes else 0
  }

  function Anywhere(axes: Axes): Row -> nat {
    (r: Row) => if PlaceOf(axes, r.key).Some? then r.bytes else 0
  }

  // ---------------------------------------------------------------------- cells

  function CellAt(cells: seq<Cell>, row: Label, col: Label): (r: Option<nat>)
    ensures r.Some? ==> r.value < |cells| && cells[r.value].row == row && cells[r.value].col == col
    ensures r.None? ==> forall k :: 0 <= k < |cells| ==> !(cells[k].row == row && cells[k].col == col)
  {
    if cells == [] then None
    else if cells[|cells| - 1].row == row && cells[|cells| - 1].col == col then Some(|cells| - 1)
    else CellAt(cells[..|cells| - 1], row, col)
  }

  function WithBytes(cells: seq<Cell>, row: Label, col: Label, bytes: nat): seq<Cell> {
    var at := CellAt(cells, row, col);
    if at.None? then cells + [Cell(row, col, bytes)]
    else cells[at.value := cells[at.value].(bytes := cells[at.value].bytes + bytes)]
  }

  function Cells(axes: Axes, rows: seq<Row>): seq<Cell> {
    if rows == [] then []
    else
      var before, last := Cells(axes, rows[..|rows| - 1]), rows[|rows| - 1];
      var place := PlaceOf(axes, last.key);
      if place.None? then before else WithBytes(before, place.value.0, place.value.1, last.bytes)
  }

  method Accumulate(axes: Axes, rows: seq<Row>) returns (cells: seq<Cell>, rowTotals: map<Label, nat>, total: nat)
    ensures cells == Cells(axes, rows)
    ensures forall r :: r in rowTotals <==> HasRow(cells, r)
    ensures forall r :: r in rowTotals ==> rowTotals[r] == SumOf(rows, InRow(axes, r))
    ensures total == SumOf(rows, Anywhere(axes))
  {
    hide PlaceOf, WithBytes, HasRow, InRow, SumOf;
    cells, rowTotals, total := [], map[], 0;
    NoRows();
    for n := 0 to |rows|
      invariant cells == Cells(axes, rows[..n])
      invariant forall r :: r in rowTotals <==> HasRow(cells, r)
      invariant forall r :: r in rowTotals ==> rowTotals[r] == SumOf(rows[..n], InRow(axes, r))
      invariant forall r :: r !in rowTotals ==> SumOf(rows[..n], InRow(axes, r)) == 0
      invariant total == SumOf(rows[..n], Anywhere(axes))
    {
      OneRowMore(axes, rows, n);
      var place := PlaceOf(axes, rows[n].key);
      if place.Some? {
        var (row, col) := place.value;
        RowsAfter(cells, row, col, rows[n].bytes);
        cells := WithBytes(cells, row, col, rows[n].bytes);
        rowTotals := rowTotals[row := (if row in rowTotals then rowTotals[row] else 0) + rows[n].bytes];
        total := total + rows[n].bytes;
      }
    }
    assert rows[..|rows|] == rows;
  }

  predicate HasRow(cells: seq<Cell>, row: Label) {
    exists k :: 0 <= k < |cells| && cells[k].row == row
  }

  lemma NoRows()
    ensures forall r :: !HasRow([], r)
    ensures forall f: Row -> nat :: SumOf([], f) == 0
  {
  }

  lemma OneRowMore(axes: Axes, rows: seq<Row>, n: nat)
    requires n < |rows|
    ensures var place, cells := PlaceOf(axes, rows[n].key), Cells(axes, rows[..n]);
            Cells(axes, rows[..n + 1])
            == if place.None? then cells
               else WithBytes(cells, place.value.0, place.value.1, rows[n].bytes)
    ensures forall r :: SumOf(rows[..n + 1], InRow(axes, r))
                        == SumOf(rows[..n], InRow(axes, r))
                         + if PlaceOf(axes, rows[n].key).Some? && PlaceOf(axes, rows[n].key).value.0 == r
                           then rows[n].bytes else 0
    ensures SumOf(rows[..n + 1], Anywhere(axes)) == SumOf(rows[..n], Anywhere(axes)) + Anywhere(axes)(rows[n])
  {
    hide PlaceOf, WithBytes;
    assert rows[..n + 1][..n] == rows[..n];
  }

  lemma RowsAfter(cells: seq<Cell>, row: Label, col: Label, bytes: nat)
    ensures forall r :: HasRow(WithBytes(cells, row, col, bytes), r) <==> HasRow(cells, r) || r == row
  {
    var after := WithBytes(cells, row, col, bytes);
    assert forall k :: 0 <= k < |cells| ==> after[k].row == cells[k].row;
    forall r ensures HasRow(after, r) <==> HasRow(cells, r) || r == row {
      if HasRow(cells, r) {
        var k :| 0 <= k < |cells| && cells[k].row == r;
        assert after[k].row == r;
      }
      var at := CellAt(cells, row, col);
      assert after[if at.Some? then at.value else |cells|].row == row;
    }
  }

  function CellBytes(): Cell -> nat {
    (cell: Cell) => cell.bytes
  }

  function CellBytesInRow(row: Label): Cell -> nat {
    (cell: Cell) => if cell.row == row then cell.bytes else 0
  }

  function CellBytesAt(row: Label, col: Label): Cell -> nat {
    (cell: Cell) => if cell.row == row && cell.col == col then cell.bytes else 0
  }

  /** No two cells share a place. */
  predicate OneCellEach(cells: seq<Cell>) {
    forall i, j :: 0 <= i < j < |cells| ==> !(cells[i].row == cells[j].row && cells[i].col == cells[j].col)
  }

  lemma StaysOneEach(cells: seq<Cell>, row: Label, col: Label, bytes: nat)
    requires OneCellEach(cells)
    ensures OneCellEach(WithBytes(cells, row, col, bytes))
  {
    hide CellAt;
    var after := WithBytes(cells, row, col, bytes);
    assert forall k :: 0 <= k < |cells| ==> after[k].row == cells[k].row && after[k].col == cells[k].col;
  }

  lemma {:induction false} OneCellPerPlace(axes: Axes, rows: seq<Row>)
    ensures OneCellEach(Cells(axes, rows))
  {
    if rows != [] {
      hide PlaceOf, WithBytes, OneCellEach;
      OneCellPerPlace(axes, rows[..|rows| - 1]);
      var place := PlaceOf(axes, rows[|rows| - 1].key);
      if place.Some? {
        StaysOneEach(Cells(axes, rows[..|rows| - 1]), place.value.0, place.value.1, rows[|rows| - 1].bytes);
      }
    }
  }

  lemma Adds(cells: seq<Cell>, row: Label, col: Label, bytes: nat, f: Cell -> nat)
    requires forall a: nat, b: nat :: f(Cell(row, col, a + b)) == f(Cell(row, col, a)) + f(Cell(row, col, b))
    ensures SumOf(WithBytes(cells, row, col, bytes), f) == SumOf(cells, f) + f(Cell(row, col, bytes))
  {
    var at := CellAt(cells, row, col);
    if at.None? {
      SumConcat(cells, [Cell(row, col, bytes)], f);
    } else {
      var cell := cells[at.value];
      assert f(Cell(row, col, cell.bytes + bytes)) == f(Cell(row, col, cell.bytes)) + f(Cell(row, col, bytes));
      SumUpdated(cells, at.value, cell.(bytes := cell.bytes + bytes), f);
    }
  }

  /** What a cell holds is what its rows hold, whatever is counted of them. */
  lemma {:induction false} CellsCarry(axes: Axes, rows: seq<Row>, f: Row -> nat, g: Cell -> nat)
    requires forall r: Label, c: Label, a: nat, b: nat :: g(Cell(r, c, a + b)) == g(Cell(r, c, a)) + g(Cell(r, c, b))
    requires forall i :: 0 <= i < |rows| ==>
               var place := PlaceOf(axes, rows[i].key);
               f(rows[i]) == if place.None? then 0 else g(Cell(place.value.0, place.value.1, rows[i].bytes))
    ensures SumOf(Cells(axes, rows), g) == SumOf(rows, f)
  {
    hide PlaceOf, WithBytes;
    if rows != [] {
      var before, last := rows[..|rows| - 1], rows[|rows| - 1];
      CellsCarry(axes, before, f, g);
      var place := PlaceOf(axes, last.key);
      if place.Some? {
        Adds(Cells(axes, before), place.value.0, place.value.1, last.bytes, g);
      }
    }
  }

  lemma TotalKept(axes: Axes, rows: seq<Row>)
    ensures SumOf(Cells(axes, rows), CellBytes()) == SumOf(rows, Anywhere(axes))
  {
    hide PlaceOf, Cells, SumOf;
    CellsCarry(axes, rows, Anywhere(axes), CellBytes());
  }

  lemma RowKept(axes: Axes, rows: seq<Row>, row: Label)
    ensures SumOf(Cells(axes, rows), CellBytesInRow(row)) == SumOf(rows, InRow(axes, row))
  {
    hide PlaceOf, Cells, SumOf;
    CellsCarry(axes, rows, InRow(axes, row), CellBytesInRow(row));
  }

  lemma CellKept(axes: Axes, rows: seq<Row>, row: Label, col: Label)
    ensures SumOf(Cells(axes, rows), CellBytesAt(row, col)) == SumOf(rows, At(axes, row, col))
  {
    hide PlaceOf, Cells, SumOf;
    CellsCarry(axes, rows, At(axes, row, col), CellBytesAt(row, col));
  }

  /** Nothing is lost or counted twice: the cells add up to the rows, in every row of the map and over all of it. */
  lemma CellsAddUp(axes: Axes, rows: seq<Row>, row: Label, col: Label)
    ensures var cells := Cells(axes, rows);
            && SumOf(cells, CellBytes()) == SumOf(rows, Anywhere(axes))
            && SumOf(cells, CellBytesInRow(row)) == SumOf(rows, InRow(axes, row))
            && SumOf(cells, CellBytesAt(row, col)) == SumOf(rows, At(axes, row, col))
  {
    TotalKept(axes, rows);
    RowKept(axes, rows, row);
    CellKept(axes, rows, row, col);
  }

  // --------------------------------------------------------------------- levels

  datatype Level = LOW | MEDIUM | HIGH | PEAK

  function Rank(level: Level): nat {
    match level
    case LOW => 0
    case MEDIUM => 1
    case HIGH => 2
    case PEAK => 3
  }

  predicate Sorted(s: seq<nat>) {
    forall i, j :: 0 <= i < j < |s| ==> s[i] <= s[j]
  }

  /** The value at a quarter, half or three quarters of the sorted cells. */
  function Quantile(sorted: seq<nat>, quarters: nat): nat
    requires quarters <= 3
  {
    if sorted == [] then 0 else sorted[Min(|sorted| - 1, quarters * |sorted| / 4)]
  }

  function LevelOf(sorted: seq<nat>, value: nat): Level {
    if value <= Quantile(sorted, 1) then LOW
    else if value <= Quantile(sorted, 2) then MEDIUM
    else if value <= Quantile(sorted, 3) then HIGH
    else PEAK
  }

  function BytesOf(cells: seq<Cell>): seq<nat> {
    seq(|cells|, k requires 0 <= k < |cells| => cells[k].bytes)
  }

  /** Counts the values with at most some level. */
  function UpTo(sorted: seq<nat>, level: Level): nat -> nat {
    (value: nat) => if Rank(LevelOf(sorted, value)) <= Rank(level) then 1 else 0
  }

  lemma {:induction false} AtLeast(s: seq<nat>, f: nat -> nat, n: nat)
    requires n <= |s| && forall i :: 0 <= i < n ==> f(s[i]) == 1
    ensures SumOf(s, f) >= n
    decreases |s|
  {
    if s != [] {
      AtLeast(s[..|s| - 1], f, if n == |s| then n - 1 else n);
    }
  }

  function Inserted(sorted: seq<nat>, value: nat): (r: seq<nat>)
    requires Sorted(sorted)
    ensures Sorted(r) && multiset(r) == multiset(sorted) + multiset{value}
  {
    if sorted == [] then [value]
    else
      var rest, last := sorted[..|sorted| - 1], sorted[|sorted| - 1];
      assert sorted == rest + [last];
      if last <= value then sorted + [value]
      else
        var before := Inserted(rest, value);
        Bounded(rest, value, before, last);
        before + [last]
  }

  lemma Bounded(rest: seq<nat>, value: nat, before: seq<nat>, last: nat)
    requires multiset(before) == multiset(rest) + multiset{value}
    requires value <= last && forall i :: 0 <= i < |rest| ==> rest[i] <= last
    ensures forall i :: 0 <= i < |before| ==> before[i] <= last
  {
    forall i | 0 <= i < |before| ensures before[i] <= last {
      assert before[i] in multiset(before);
      assert before[i] in multiset(rest) || before[i] == value;
    }
  }

  function SortedCopy(values: seq<nat>): (r: seq<nat>)
    ensures Sorted(r) && multiset(r) == multiset(values)
  {
    if values == [] then []
    else
      assert values == values[..|values| - 1] + [values[|values| - 1]];
      Inserted(SortedCopy(values[..|values| - 1]), values[|values| - 1])
  }

  /** How many cells of the map have at most some level. */
  function CountUpTo(cells: seq<Cell>, level: Level): nat {
    SumOf(BytesOf(cells), UpTo(SortedCopy(BytesOf(cells)), level))
  }

  /**
   * Of n cells at least n/4 + 1 are low, n/2 + 1 at most medium and 3n/4 + 1 at most high, so
   * at most n - 1 - 3n/4 are at the peak.
   */
  lemma LevelShares(cells: seq<Cell>)
    requires cells != []
    ensures CountUpTo(cells, LOW) >= |cells| / 4 + 1
    ensures CountUpTo(cells, MEDIUM) >= |cells| / 2 + 1
    ensures CountUpTo(cells, HIGH) >= 3 * |cells| / 4 + 1
    ensures CountUpTo(cells, PEAK) == |cells|
  {
    SharesOf(BytesOf(cells), SortedCopy(BytesOf(cells)));
  }

  lemma {:induction false} ExactlyFirst(s: seq<nat>, f: nat -> nat, n: nat)
    requires n <= |s|
    requires forall i :: 0 <= i < |s| ==> f(s[i]) == if i < n then 1 else 0
    ensures SumOf(s, f) == n
  {
    if s != [] {
      ExactlyFirst(s[..|s| - 1], f, if n == |s| then n - 1 else n);
    }
  }

  predicate Distinct(s: seq<nat>) {
    forall i, j :: 0 <= i < j < |s| ==> s[i] != s[j]
  }

  lemma DistinctSorted(values: seq<nat>, sorted: seq<nat>)
    requires multiset(sorted) == multiset(values) && Distinct(values)
    ensures Distinct(sorted)
  {
    forall i, j | 0 <= i < j < |sorted|
      ensures sorted[i] != sorted[j]
    {
      if sorted[i] == sorted[j] {
        Twice(sorted, i, j);
        assert multiset(values)[sorted[i]] >= 2;
        OnceEach(values, sorted[i]);
      }
    }
  }

  lemma Twice(s: seq<nat>, i: nat, j: nat)
    requires i < j < |s| && s[i] == s[j]
    ensures multiset(s)[s[i]] >= 2
  {
    assert s == s[..j] + s[j..];
    assert s[..j][i] == s[i] && s[j..][0] == s[j];
  }

  lemma {:induction false} OnceEach(s: seq<nat>, x: nat)
    requires Distinct(s)
    ensures multiset(s)[x] <= 1
  {
    if s != [] {
      var rest, last := s[..|s| - 1], s[|s| - 1];
      OnceEach(rest, x);
      assert s == rest + [last];
      if last == x {
        assert x !in rest;
      }
    }
  }

  /** Where no two of the n cells carry the same, the shares are exactly these. */
  lemma DistinctShares(cells: seq<Cell>)
    requires cells != [] && Distinct(BytesOf(cells))
    ensures CountUpTo(cells, LOW) == |cells| / 4 + 1
    ensures CountUpTo(cells, MEDIUM) == |cells| / 2 + 1
    ensures CountUpTo(cells, HIGH) == 3 * |cells| / 4 + 1
  {
    hide LevelOf, Rank, Quantile, SumOf;
    var values, sorted := BytesOf(cells), SortedCopy(BytesOf(cells));
    assert |sorted| == |multiset(sorted)| == |values|;
    DistinctSorted(values, sorted);
    Reached(sorted);
    NotReached(sorted);
    var n := |values|;
    ExactlyFirst(sorted, UpTo(sorted, LOW), n / 4 + 1);
    ExactlyFirst(sorted, UpTo(sorted, MEDIUM), n / 2 + 1);
    ExactlyFirst(sorted, UpTo(sorted, HIGH), 3 * n / 4 + 1);
    SumPermuted(sorted, values, UpTo(sorted, LOW));
    SumPermuted(sorted, values, UpTo(sorted, MEDIUM));
    SumPermuted(sorted, values, UpTo(sorted, HIGH));
  }

  /** Distinct cells beyond a quantile are above its level. */
  lemma NotReached(sorted: seq<nat>)
    requires Sorted(sorted) && Distinct(sorted) && sorted != []
    ensures forall i :: |sorted| / 4 < i < |sorted| ==> UpTo(sorted, LOW)(sorted[i]) == 0
    ensures forall i :: |sorted| / 2 < i < |sorted| ==> UpTo(sorted, MEDIUM)(sorted[i]) == 0
    ensures forall i :: 3 * |sorted| / 4 < i < |sorted| ==> UpTo(sorted, HIGH)(sorted[i]) == 0
  {
    QuantilesAscend(sorted);
    assert forall i, j :: 0 <= i < j < |sorted| ==> sorted[i] < sorted[j];
  }

  lemma SharesOf(values: seq<nat>, sorted: seq<nat>)
    requires Sorted(sorted) && multiset(sorted) == multiset(values) && values != []
    ensures SumOf(values, UpTo(sorted, LOW)) >= |values| / 4 + 1
    ensures SumOf(values, UpTo(sorted, MEDIUM)) >= |values| / 2 + 1
    ensures SumOf(values, UpTo(sorted, HIGH)) >= 3 * |values| / 4 + 1
    ensures SumOf(values, UpTo(sorted, PEAK)) == |values|
  {
    hide LevelOf, Rank, Quantile, SumOf;
    assert |sorted| == |multiset(sorted)| == |values|;
    Reached(sorted);
    var n := |values|;
    AtLeast(sorted, UpTo(sorted, LOW), n / 4 + 1);
    AtLeast(sorted, UpTo(sorted, MEDIUM), n / 2 + 1);
    AtLeast(sorted, UpTo(sorted, HIGH), 3 * n / 4 + 1);
    SumPermuted(sorted, values, UpTo(sorted, LOW));
    SumPermuted(sorted, values, UpTo(sorted, MEDIUM));
    SumPermuted(sorted, values, UpTo(sorted, HIGH));
    Everything(values, UpTo(sorted, PEAK));
  }

  /** The cells up to each quantile, in order, have at most its level. */
  lemma Reached(sorted: seq<nat>)
    requires Sorted(sorted) && sorted != []
    ensures var n := |sorted|; n / 4 < n && n / 2 < n && 3 * n / 4 < n
    ensures forall i :: 0 <= i <= |sorted| / 4 ==> UpTo(sorted, LOW)(sorted[i]) == 1
    ensures forall i :: 0 <= i <= |sorted| / 2 ==> UpTo(sorted, MEDIUM)(sorted[i]) == 1
    ensures forall i :: 0 <= i <= 3 * |sorted| / 4 ==> UpTo(sorted, HIGH)(sorted[i]) == 1
    ensures forall value :: UpTo(sorted, PEAK)(value) == 1
  {
    QuantilesAscend(sorted);
  }

  lemma {:induction false} Everything(s: seq<nat>, f: nat -> nat)
    requires forall i :: 0 <= i < |s| ==> f(s[i]) == 1
    ensures SumOf(s, f) == |s|
  {
    if s != [] {
      Everything(s[..|s| - 1], f);
    }
  }

  lemma QuantilesAscend(sorted: seq<nat>)
    requires Sorted(sorted)
    ensures Quantile(sorted, 1) <= Quantile(sorted, 2) <= Quantile(sorted, 3)
    ensures sorted != [] ==>
              forall q, i :: 1 <= q <= 3 && 0 <= i <= q * |sorted| / 4 && i < |sorted| ==>
                sorted[i] <= Quantile(sorted, q)
  {
  }

  /** More bytes never have a lower level; and where every cell carries the same, all are low. */
  lemma LevelsFollowBytes(sorted: seq<nat>, a: nat, b: nat)
    requires Sorted(sorted) && a <= b
    ensures Rank(LevelOf(sorted, a)) <= Rank(LevelOf(sorted, b))
    ensures sorted != [] && b in sorted && sorted[0] == sorted[|sorted| - 1] ==> LevelOf(sorted, b) == LOW
  {
    QuantilesAscend(sorted);
    if sorted != [] && b in sorted {
      var i :| 0 <= i < |sorted| && sorted[i] == b;
      assert sorted[i] <= sorted[|sorted| - 1];
      assert sorted[0] <= Quantile(sorted, 1);
    }
  }

  // ---------------------------------------------------------- the map by the hour

  function Asking(axes: Axes, filter: Option<Dimension>, range: Range, source: Option<Source>,
                  f: Row -> nat): Row -> nat {
    (r: Row) => if Asked(axes, filter, range, source, r.key) then f(r) else 0
  }

  lemma {:induction false} ShownSum(rows: seq<Row>, axes: Axes, filter: Option<Dimension>, range: Range,
                                    source: Option<Source>, f: Row -> nat)
    ensures SumOf(Shown(rows, axes, filter, range, source), f) == SumOf(rows, Asking(axes, filter, range, source, f))
  {
    if rows != [] {
      ShownSum(rows[..|rows| - 1], axes, filter, range, source, f);
      var before, last := Shown(rows[..|rows| - 1], axes, filter, range, source), rows[|rows| - 1];
      if Asked(axes, filter, range, source, last.key) {
        SumConcat(before, [last], f);
      } else {
        assert before + [] == before;
      }
    }
  }

  function DayRange(day: int): Range {
    Range(day * MS_PER_DAY, (day + 1) * MS_PER_DAY)
  }

  function HourRange(day: int, hour: int): Range {
    Range(day * MS_PER_DAY + hour * MS_PER_HOUR, day * MS_PER_DAY + (hour + 1) * MS_PER_HOUR)
  }

  predicate Within(range: Range, t: int) {
    range.start <= t < range.end
  }

  /** The part of a range that lies within another. */
  function Cut(range: Range, part: Range): Range {
    Range(Max(range.start, part.start), Min(range.end, part.end))
  }

  lemma PartsOfDay(day: int, hour: int, t: int)
    requires 0 <= hour < 24
    ensures Within(DayRange(day), t) <==> Day(t) == day
    ensures Within(HourRange(day, hour), t) <==> Day(t) == day && HourFromTime(t) == hour
  {
    hide Day, HourFromTime, MinFromTime, MsWithinMinute, TimeWithinDay;
    TimeParts(t);
  }

  lemma DayBounds(day: int)
    ensures Aligned(DayRange(day).start, DAY) == DayRange(day).start
            && Aligned(DayRange(day).end, DAY) == DayRange(day).end
    ensures Aligned(DayRange(day).start, HOUR) == DayRange(day).start
            && Aligned(DayRange(day).end, HOUR) == DayRange(day).end
  {
    hide Day, HourFromTime, MinFromTime, MsWithinMinute, TimeWithinDay;
    DateParts(day, 0);
    DateParts(day + 1, 0);
    Midnight(day * MS_PER_DAY);
    Midnight((day + 1) * MS_PER_DAY);
  }

  /** An instant's hour and day are filed under the instants they begin at. */
  lemma FiledUnder(t: int)
    ensures Aligned(t, HOUR) == HourRange(Day(t), HourFromTime(t)).start
    ensures Aligned(t, DAY) == DayRange(Day(t)).start == HourRange(Day(t), 0).start
    ensures 0 <= HourFromTime(t) < 24
  {
    hide HourFromTime, MinFromTime, MsWithinMinute;
    TimeParts(t);
  }

  /** A bucket of one granularity lies in an hour of a day exactly when it begins that hour. */
  lemma BucketOfHour(day: int, hour: int, t: int)
    requires 0 <= hour < 24
    ensures Within(HourRange(day, hour), Aligned(t, HOUR)) <==> Within(HourRange(day, hour), t)
    ensures Within(HourRange(day, hour), t) ==> Aligned(t, HOUR) == HourRange(day, hour).start
    ensures Within(HourRange(day, hour), Aligned(t, DAY)) <==> hour == 0 && Within(DayRange(day), t)
    ensures Within(DayRange(day), t) ==> Aligned(t, DAY) == DayRange(day).start
  {
    hide HourFromTime, Aligned, Day;
    FiledUnder(t);
    PartsOfDay(day, hour, t);
    assert Day(Aligned(t, HOUR)) == Day(t) && HourFromTime(Aligned(t, HOUR)) == HourFromTime(t) by {
      Clock(Day(t), HourFromTime(t), 0, 0);
    }
    assert Day(Aligned(t, DAY)) == Day(t) && HourFromTime(Aligned(t, DAY)) == 0 by {
      Clock(Day(t), 0, 0, 0);
    }
    PartsOfDay(day, hour, Aligned(t, HOUR));
    PartsOfDay(day, hour, Aligned(t, DAY));
  }

  /** What was carried in a part of the day, if that part begins within the range. */
  function Begun(samples: seq<Sample>, dim: Dimension, source: Option<Source>, range: Range, part: Range): nat {
    if Within(range, part.start) then SumOf(samples, Carried(dim, source, part)) else 0
  }

  lemma HoursShare(samples: seq<Sample>, dim: Dimension, range: Range, source: Option<Source>, day: int, hour: int)
    requires 0 <= hour < 24
    ensures var q := Query(dim, Cut(range, HourRange(day, hour)), None, source);
            SumOf(samples, Share(q, HOUR)) == Begun(samples, dim, source, range, HourRange(day, hour))
  {
    hide Aligned, Day, HourFromTime;
    var q := Query(dim, Cut(range, HourRange(day, hour)), None, source);
    forall i | 0 <= i < |samples|
      ensures Share(q, HOUR)(samples[i])
              == if Within(range, HourRange(day, hour).start)
                 then Carried(dim, source, HourRange(day, hour))(samples[i]) else 0
    {
      BucketOfHour(day, hour, samples[i].ts);
    }
    if Within(range, HourRange(day, hour).start) {
      SumSame(samples, Share(q, HOUR), Carried(dim, source, HourRange(day, hour)));
    } else {
      SumZero(samples, Share(q, HOUR));
    }
  }

  lemma DaysShare(samples: seq<Sample>, dim: Dimension, range: Range, source: Option<Source>, day: int, hour: int)
    requires 0 <= hour < 24
    ensures var q := Query(dim, Cut(range, HourRange(day, hour)), None, source);
            SumOf(samples, Share(q, DAY)) == if hour == 0 then Begun(samples, dim, source, range, DayRange(day)) else 0
  {
    hide Aligned, Day, HourFromTime;
    var q := Query(dim, Cut(range, HourRange(day, hour)), None, source);
    var shown := hour == 0 && Within(range, DayRange(day).start);
    forall i | 0 <= i < |samples|
      ensures Share(q, DAY)(samples[i]) == if shown then Carried(dim, source, DayRange(day))(samples[i]) else 0
    {
      BucketOfHour(day, hour, samples[i].ts);
    }
    if shown {
      SumSame(samples, Share(q, DAY), Carried(dim, source, DayRange(day)));
    } else {
      SumZero(samples, Share(q, DAY));
    }
  }

  /** The dimension that the map by the hour shows: what it is filtered by, or the system. */
  function Shows(filter: Option<Dimension>): Dimension {
    if filter.Some? then filter.value else SYSTEM
  }

  /** The bytes of one cell of the map by the hour, and of one of its rows. */
  function HourCell(batches: seq<seq<Sample>>, filter: Option<Dimension>, range: Range, source: Option<Source>,
                    day: int, hour: int): nat {
    SumOf(Cells(BY_HOUR, Shown(Stored(batches), BY_HOUR, filter, range, source)),
          CellBytesAt(IsoDay(day), HourOfDay(hour)))
  }

  function DayRow(batches: seq<seq<Sample>>, filter: Option<Dimension>, range: Range, source: Option<Source>, day: int)
    : nat
  {
    SumOf(Cells(BY_HOUR, Shown(Stored(batches), BY_HOUR, filter, range, source)), CellBytesInRow(IsoDay(day)))
  }

  /** The bytes of one cell of the map by device, by node or by user. */
  function EntityCell(batches: seq<seq<Sample>>, axes: Axes, filter: Option<Dimension>, dim: Dimension, range: Range,
                      source: Option<Source>, day: int, hour: int): nat {
    SumOf(Cells(axes, Shown(Stored(batches), axes, filter, range, source)),
          CellBytesAt(Entity(dim), IsoHour(day, hour)))
  }

  /** What one hour of one dimension is filed under is what a query of that hour reads. */
  lemma HourIsQuery(table: seq<Row>, axes: Axes, filter: Option<Dimension>, dim: Dimension, range: Range,
                    source: Option<Source>, day: int, hour: int, f: Row -> nat)
    requires 0 <= hour < 24
    requires forall r: Row ::
               Asking(axes, filter, range, source, f)(r)
               == if && Within(range, r.key.start) && r.key.dimension == dim
                     && (source.None? || r.key.source == source.value)
                     && Day(r.key.start) == day && HourFromTime(r.key.start) == hour
                  then r.bytes else 0
    ensures SumOf(Shown(table, axes, filter, range, source), f)
            == SumOf(table, Bytes(Query(dim, Cut(range, HourRange(day, hour)), None, source)))
  {
    hide Day, HourFromTime;
    var q := Query(dim, Cut(range, HourRange(day, hour)), None, source);
    ShownSum(table, axes, filter, range, source, f);
    forall i | 0 <= i < |table|
      ensures Asking(axes, filter, range, source, f)(table[i]) == Bytes(q)(table[i])
    {
      PartsOfDay(day, hour, table[i].key.start);
    }
    SumSame(table, Asking(axes, filter, range, source, f), Bytes(q));
  }

  /** By the hour, everything filed under one day is in one row; by the day, it is in one cell. */
  lemma DayIsQuery(table: seq<Row>, axes: Axes, filter: Option<Dimension>, range: Range, source: Option<Source>,
                   day: int, f: Row -> nat)
    requires axes.BY_HOUR? || axes.BY_DAY?
    requires forall r: Row :: f(r) == if Day(r.key.start) == day then r.bytes else 0
    ensures SumOf(Shown(table, axes, filter, range, source), f)
            == SumOf(table, Bytes(Query(Shows(filter), Cut(range, DayRange(day)), None, source)))
  {
    hide Day, HourFromTime;
    var q := Query(Shows(filter), Cut(range, DayRange(day)), None, source);
    ShownSum(table, axes, filter, range, source, f);
    forall i | 0 <= i < |table|
      ensures Asking(axes, filter, range, source, f)(table[i]) == Bytes(q)(table[i])
    {
      PartsOfDay(day, 0, table[i].key.start);
    }
    SumSame(table, Asking(axes, filter, range, source, f), Bytes(q));
  }

  /** The rows that a query of one hour reads: those of the hour, and at hour 0 those of the day. */
  lemma HourAndDay(batches: seq<seq<Sample>>, dim: Dimension, range: Range, source: Option<Source>, day: int, hour: int)
    requires 0 <= hour < 24
    ensures SumOf(Stored(batches), Bytes(Query(dim, Cut(range, HourRange(day, hour)), None, source)))
            == Begun(Samples(batches), dim, source, range, HourRange(day, hour))
             + if hour == 0 then Begun(Samples(batches), dim, source, range, DayRange(day)) else 0
  {
    hide Stored, Samples, SumOf, Share, Bytes;
    NothingLost(batches, Query(dim, Cut(range, HourRange(day, hour)), None, source));
    HoursShare(Samples(batches), dim, range, source, day, hour);
    DaysShare(Samples(batches), dim, range, source, day, hour);
  }

  /**
   * The map by the hour reads hour rows and day rows alike, and a day row starts at midnight.
   * So for every history, filter, range, day and hour, the cell holds what its hour carried, if
   * the hour begins in the range, and the cell of hour 0 what the whole day carried besides.
   */
  lemma HourCellHolds(batches: seq<seq<Sample>>, filter: Option<Dimension>, range: Range, source: Option<Source>,
                      day: int, hour: int)
    requires 0 <= hour < 24
    ensures HourCell(batches, filter, range, source, day, hour)
            == Begun(Samples(batches), Shows(filter), source, range, HourRange(day, hour))
             + if hour == 0 then Begun(Samples(batches), Shows(filter), source, range, DayRange(day)) else 0
  {
    hide Cells, Stored, Samples, SumOf, Day, HourFromTime;
    var f := At(BY_HOUR, IsoDay(day), HourOfDay(hour));
    CellKept(BY_HOUR, Shown(Stored(batches), BY_HOUR, filter, range, source), IsoDay(day), HourOfDay(hour));
    forall r: Row
      ensures f(r) == if Day(r.key.start) == day && HourFromTime(r.key.start) == hour then r.bytes else 0
    {
      assert PlaceOf(BY_HOUR, r.key) == Some((IsoDay(Day(r.key.start)), HourOfDay(HourFromTime(r.key.start))));
    }
    HourIsQuery(Stored(batches), BY_HOUR, filter, Shows(filter), range, source, day, hour, f);
    HourAndDay(batches, Shows(filter), range, source, day, hour);
  }

  /** An axis of entities shows entities of its own kind. */
  predicate OfKind(axes: Axes, dim: Dimension) {
    (axes.BY_DEVICE? && dim.DEVICE?) || (axes.BY_NODE? && dim.NODE?) || (axes.BY_USER? && dim.USER?)
  }

  /** The maps by device, by node and by user hold the same of each entity, hour by hour. */
  lemma EntityCellHolds(batches: seq<seq<Sample>>, axes: Axes, filter: Option<Dimension>, dim: Dimension, range: Range,
                        source: Option<Source>, day: int, hour: int)
    requires 0 <= hour < 24 && OfKind(axes, dim)
    ensures EntityCell(batches, axes, filter, dim, range, source, day, hour)
            == if filter.Some? && filter.value != dim then 0
               else
                 Begun(Samples(batches), dim, source, range, HourRange(day, hour))
                 + if hour == 0 then Begun(Samples(batches), dim, source, range, DayRange(day)) else 0
  {
    hide Cells, Stored, Samples, SumOf, Day, HourFromTime;
    var f := At(axes, Entity(dim), IsoHour(day, hour));
    CellKept(axes, Shown(Stored(batches), axes, filter, range, source), Entity(dim), IsoHour(day, hour));
    if filter.Some? && filter.value != dim {
      ShownSum(Stored(batches), axes, filter, range, source, f);
      SumZero(Stored(batches), Asking(axes, filter, range, source, f));
    } else {
      forall r: Row
        ensures f(r) == if r.key.dimension == dim && Day(r.key.start) == day && HourFromTime(r.key.start) == hour
                        then r.bytes else 0
      {
        if r.key.dimension == dim {
          assert PlaceOf(axes, r.key) == Some((Entity(dim), IsoHour(Day(r.key.start), HourFromTime(r.key.start))));
        }
      }
      HourIsQuery(Stored(batches), axes, filter, dim, range, source, day, hour, f);
      HourAndDay(batches, dim, range, source, day, hour);
    }
  }

  /**
   * When a cell shows its hour's traffic: one whose hour begins in the range, exactly when it
   * is not the cell of hour 0 or its day carried nothing; one whose hour does not is empty, so
   * exactly when the hour carried nothing.
   */
  lemma HourCellExactly(batches: seq<seq<Sample>>, filter: Option<Dimension>, range: Range, source: Option<Source>,
                        day: int, hour: int)
    requires 0 <= hour < 24
    ensures var samples, dim := Samples(batches), Shows(filter);
            HourCell(batches, filter, range, source, day, hour)
            == SumOf(samples, Carried(dim, source, HourRange(day, hour))) <==>
              if Within(range, HourRange(day, hour).start)
              then hour != 0 || SumOf(samples, Carried(dim, source, DayRange(day))) == 0
              else SumOf(samples, Carried(dim, source, HourRange(day, hour))) == 0
  {
    hide HourCell, Samples, SumOf, Carried;
    HourCellHolds(batches, filter, range, source, day, hour);
  }

  /** The row of the week that a day belongs to, counting from Monday. */
  function RowOfWeek(day: int): Label {
    DayOfWeek(((day + 4) % 7 + 6) % 7)
  }

  /** The bytes of one cell of the map by the day. */
  function DayCell(batches: seq<seq<Sample>>, filter: Option<Dimension>, range: Range, source: Option<Source>, day: int)
    : nat
  {
    SumOf(Cells(BY_DAY, Shown(Stored(batches), BY_DAY, filter, range, source)),
          CellBytesAt(RowOfWeek(day), IsoDay(day)))
  }

  /**
   * A day's row by the hour and a day's cell by the day read the same rows as a bill of the part
   * of the day within the range, and so count its hours and the day itself: Rollup's
   * BilledTwiceExactly says when that is twice its traffic.
   */
  lemma DayIsBilled(batches: seq<seq<Sample>>, filter: Option<Dimension>, range: Range, source: Option<Source>,
                    day: int)
    ensures var billed := Measured(batches, Shows(filter), source, Cut(range, DayRange(day)));
            DayRow(batches, filter, range, source, day) == DayCell(batches, filter, range, source, day) == billed
  {
    hide Cells, Stored, SumOf, Day;
    var table := Stored(batches);
    SelectedBytes(table, Query(Shows(filter), Cut(range, DayRange(day)), None, source));
    RowKept(BY_HOUR, Shown(table, BY_HOUR, filter, range, source), IsoDay(day));
    DayIsQuery(table, BY_HOUR, filter, range, source, day, InRow(BY_HOUR, IsoDay(day)));
    CellKept(BY_DAY, Shown(table, BY_DAY, filter, range, source), RowOfWeek(day), IsoDay(day));
    DayIsQuery(table, BY_DAY, filter, range, source, day, At(BY_DAY, RowOfWeek(day), IsoDay(day)));
  }

  /**
   * A day that lies wholly within the range is shown at twice its traffic, by the hour and by
   * the day, and its cell for hour 0 holds that hour's traffic and the whole day's.
   */
  lemma MidnightCellHoldsDay(batches: seq<seq<Sample>>, filter: Option<Dimension>, range: Range, source: Option<Source>,
                             day: int)
    requires range.start <= DayRange(day).start && DayRange(day).end <= range.end
    ensures var samples, dim := Samples(batches), Shows(filter);
            var carried := SumOf(samples, Carried(dim, source, DayRange(day)));
            && DayRow(batches, filter, range, source, day) == DayCell(batches, filter, range, source, day)
               == 2 * carried
            && HourCell(batches, filter, range, source, day, 0)
               == SumOf(samples, Carried(dim, source, HourRange(day, 0))) + carried
  {
    hide DayRow, DayCell, HourCell, Samples, SumOf, Carried, Ceiled, Measured;
    DayIsBilled(batches, filter, range, source, day);
    BillCountsHoursAndDays(batches, Shows(filter), source, DayRange(day));
    HourCellHolds(batches, filter, range, source, day, 0);
    assert Cut(range, DayRange(day)) == DayRange(day);
    DayBounds(day);
    Whole(DayRange(day), HOUR);
    Whole(DayRange(day), DAY);
  }
}
