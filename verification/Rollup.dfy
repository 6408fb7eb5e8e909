/**
 * src/server/traffic/buffer.ts: how samples become aggregate rows, and what the two readers
 * of those rows make of them: the bill (src/server/billing/service.ts:188-220) and the
 * traffic series (src/server/analytics/traffic.ts:166-205).
 */
module Rollup {
  import opened Common
  import opened Sums
  import opened Time
  import Calendar
  import Cost

  datatype Source = REAL | MOCK

  /** What `dimKey` spells: "system", "node:<id>" and so on. */
  datatype Dimension = SYSTEM | NODE(id: nat) | DEVICE(id: nat) | USER(id: nat) | CONFIG(id: nat) | CATEGORY(name: Text)

  datatype Sample = Sample(
    ts: int,
    direction: Cost.Direction,
    source: Source,
    bytes: nat,
    optimized: Option<nat>,
    node: Option<nat>,
    device: Option<nat>,
    user: Option<nat>,
    config: Option<nat>,
    category: Option<Text>)

  datatype Key = Key(granularity: Granularity, start: int, dimension: Dimension, direction: Cost.Direction,
                     source: Source)

  datatype Row = Row(key: Key, bytes: nat, optimized: Option<nat>)

  function DimensionsOf(sample: Sample): seq<Dimension> {
    [SYSTEM]
    + (if sample.node.Some? then [NODE(sample.node.value)] else [])
    + (if sample.device.Some? then [DEVICE(sample.device.value)] else [])
    + (if sample.user.Some? then [USER(sample.user.value)] else [])
    + (if sample.config.Some? then [CONFIG(sample.config.value)] else [])
    + (if sample.category.Some? && sample.category.value != [] then [CATEGORY(sample.category.value)] else [])
  }

  /** A sample counts for the system and for each entity it names, and for no other. */
  lemma DimensionsExactly(sample: Sample, id: nat, name: Text)
    ensures var d := DimensionsOf(sample);
            && SYSTEM in d
            && (NODE(id) in d <==> sample.node == Some(id))
            && (DEVICE(id) in d <==> sample.device == Some(id))
            && (USER(id) in d <==> sample.user == Some(id))
            && (CONFIG(id) in d <==> sample.config == Some(id))
            && (CATEGORY(name) in d <==> sample.category == Some(name) && name != [])
  {
  }

  function KeyOf(sample: Sample, granularity: Granularity, dimension: Dimension): Key {
    Key(granularity, Aligned(sample.ts, granularity), dimension, sample.direction, sample.source)
  }

  /** The place of a key among the rows. */
  function IndexOf(rows: seq<Row>, key: Key): (r: Option<nat>)
    ensures r.Some? ==> r.value < |rows| && rows[r.value].key == key
    ensures r.None? ==> forall i :: 0 <= i < |rows| ==> rows[i].key != key
  {
    if rows == [] then None
    else if rows[|rows| - 1].key == key then Some(|rows| - 1)
    else IndexOf(rows[..|rows| - 1], key)
  }

  /** A sample added to the row of its key. */
  function Accumulated(rows: seq<Row>, key: Key, sample: Sample): seq<Row> {
    var at := IndexOf(rows, key);
    if at.None? then rows + [Row(key, sample.bytes, sample.optimized)]
    else
      var row := rows[at.value];
      rows[at.value := row.(
        bytes := row.bytes + sample.bytes,
        optimized :=
          if sample.optimized.None? then row.optimized
          else Some((if row.optimized.Some? then row.optimized.value else 0) + sample.optimized.value))]
  }

  function AccumulatedAll(rows: seq<Row>, g: Granularity, dimensions: seq<Dimension>, sample: Sample): seq<Row> {
    if dimensions == [] then rows
    else
      var last := |dimensions| - 1;
      Accumulated(AccumulatedAll(rows, g, dimensions[..last], sample), KeyOf(sample, g, dimensions[last]), sample)
  }

  /** Every sample goes to the hour and to the day of each of its dimensions. */
  function RolledUp(samples: seq<Sample>): seq<Row> {
    if samples == [] then []
    else
      var sample := samples[|samples| - 1];
      var hours := AccumulatedAll(RolledUp(samples[..|samples| - 1]), HOUR, DimensionsOf(sample), sample);
      AccumulatedAll(hours, DAY, DimensionsOf(sample), sample)
  }

  method RollUp(samples: seq<Sample>) returns (rows: seq<Row>)
    ensures rows == RolledUp(samples)
  {
    hide Accumulated, Aligned, DimensionsOf;
    rows := [];
    for n := 0 to |samples|
      invariant rows == RolledUp(samples[..n])
    {
      var sample := samples[n];
      var dimensions := DimensionsOf(sample);
      assert samples[..n + 1][..n] == samples[..n];
      var granularities := [HOUR, DAY];
      for k := 0 to 2
        invariant k == 0 ==> rows == RolledUp(samples[..n])
        invariant k == 1 ==> rows == AccumulatedAll(RolledUp(samples[..n]), HOUR, dimensions, sample)
        invariant k == 2 ==> rows == RolledUp(samples[..n + 1])
      {
        var granularity := granularities[k];
        ghost var before := rows;
        for d := 0 to |dimensions|
          invariant rows == AccumulatedAll(before, granularity, dimensions[..d], sample)
        {
          assert dimensions[..d + 1][..d] == dimensions[..d];
          rows := Accumulated(rows, KeyOf(sample, granularity, dimensions[d]), sample);
        }
        assert dimensions[..|dimensions|] == dimensions;
      }
    }
    assert samples[..|samples|] == samples;
  }

  /** Adding to an absent value leaves it absent: NULL + n is NULL. */
  function Upserted(table: seq<Row>, row: Row): seq<Row> {
    var at := IndexOf(table, row.key);
    if at.None? then table + [row]
    else
      var stored := table[at.value];
      table[at.value := stored.(
        bytes := stored.bytes + row.bytes,
        optimized :=
          if row.optimized.Some? && stored.optimized.Some? then Some(stored.optimized.value + row.optimized.value)
          else stored.optimized)]
  }

  function UpsertedAll(table: seq<Row>, rows: seq<Row>): seq<Row> {
    if rows == [] then table else Upserted(UpsertedAll(table, rows[..|rows| - 1]), rows[|rows| - 1])
  }

  class AggregateTable {
    var rows: seq<Row>

    constructor ()
      ensures rows == []
    {
      rows := [];
    }

    /** Writes a batch of samples. */
    method Flush(batch: seq<Sample>)
      modifies this
      ensures rows == UpsertedAll(old(rows), RolledUp(batch))
    {
      var rolled := RollUp(batch);
      for i := 0 to |rolled|
        invariant rows == UpsertedAll(old(rows), rolled[..i])
      {
        assert rolled[..i + 1][..i] == rolled[..i];
        rows := Upserted(rows, rolled[i]);
      }
      assert rolled[..|rolled|] == rolled;
    }
  }

  /** The table after a history of flushes. */
  function Stored(batches: seq<seq<Sample>>): seq<Row> {
    if batches == [] then []
    else UpsertedAll(Stored(batches[..|batches| - 1]), RolledUp(batches[|batches| - 1]))
  }

  function Samples(batches: seq<seq<Sample>>): seq<Sample> {
    if batches == [] then [] else Samples(batches[..|batches| - 1]) + batches[|batches| - 1]
  }

  // -------------------------------------------------------------------- reading

  /** Which rows a reader asks for; without a granularity it takes them all. */
  datatype Query = Query(dimension: Dimension, range: Range, granularity: Option<Granularity>, source: Option<Source>)

  predicate Matches(q: Query, key: Key) {
    && key.dimension == q.dimension
    && q.range.start <= key.start < q.range.end
    && (q.granularity.None? || key.granularity == q.granularity.value)
    && (q.source.None? || key.source == q.source.value)
  }

  function Bytes(q: Query): Row -> nat {
    (row: Row) => if Matches(q, row.key) then row.bytes else 0
  }

  /** What a sample adds to the rows of one granularity that a query reads. */
  function Share(q: Query, g: Granularity): Sample -> nat {
    (sample: Sample) =>
      if q.dimension in DimensionsOf(sample) && Matches(q, KeyOf(sample, g, q.dimension)) then sample.bytes else 0
  }

  /** The bytes of the samples of a dimension and source within a range. */
  function Carried(dimension: Dimension, source: Option<Source>, range: Range): Sample -> nat {
    (sample: Sample) =>
      if && dimension in DimensionsOf(sample)
         && range.start <= sample.ts < range.end
         && (source.None? || sample.source == source.value)
      then sample.bytes else 0
  }

  /** The rows a query returns, as the bill adds them up. */
  function Selected(rows: seq<Row>, q: Query): seq<Cost.Aggregate> {
    if rows == [] then []
    else
      var row := rows[|rows| - 1];
      Selected(rows[..|rows| - 1], q)
      + if Matches(q, row.key) then [Cost.Aggregate(row.key.direction, row.bytes, row.optimized)] else []
  }

  lemma {:induction false} SelectedBytes(rows: seq<Row>, q: Query)
    ensures Cost.AllBytes(Selected(rows, q)) == SumOf(rows, Bytes(q))
  {
    if rows != [] {
      SelectedBytes(rows[..|rows| - 1], q);
      var before, all := Selected(rows[..|rows| - 1], q), Selected(rows, q);
      if Matches(q, rows[|rows| - 1].key) {
        assert all[..|all| - 1] == before;
      } else {
        assert all == before;
      }
    }
  }

  // --------------------------------------------------------------- conservation

  lemma AccumulateAdds(rows: seq<Row>, key: Key, sample: Sample, q: Query)
    ensures SumOf(Accumulated(rows, key, sample), Bytes(q))
            == SumOf(rows, Bytes(q)) + if Matches(q, key) then sample.bytes else 0
  {
    var at := IndexOf(rows, key);
    if at.None? {
      SumConcat(rows, [Row(key, sample.bytes, sample.optimized)], Bytes(q));
    } else {
      SumUpdated(rows, at.value, Accumulated(rows, key, sample)[at.value], Bytes(q));
    }
  }

  lemma {:induction false} AccumulateAllAdds(rows: seq<Row>, g: Granularity, dimensions: seq<Dimension>, sample: Sample,
                                             q: Query)
    requires forall i, j :: 0 <= i < j < |dimensions| ==> dimensions[i] != dimensions[j]
    ensures var added :=
              if q.dimension in dimensions && Matches(q, KeyOf(sample, g, q.dimension)) then sample.bytes else 0;
            SumOf(AccumulatedAll(rows, g, dimensions, sample), Bytes(q)) == SumOf(rows, Bytes(q)) + added
  {
    hide Accumulated, SumOf, Aligned, Bytes;
    if dimensions != [] {
      var last := |dimensions| - 1;
      AccumulateAllAdds(rows, g, dimensions[..last], sample, q);
      AccumulateAdds(AccumulatedAll(rows, g, dimensions[..last], sample), KeyOf(sample, g, dimensions[last]), sample,
                     q);
      assert q.dimension in dimensions <==> q.dimension in dimensions[..last] || q.dimension == dimensions[last];
    }
  }

  lemma NoRepeats(sample: Sample)
    ensures var d := DimensionsOf(sample); forall i, j :: 0 <= i < j < |d| ==> d[i] != d[j]
  {
  }

  lemma {:induction false} RollUpAdds(samples: seq<Sample>, q: Query)
    ensures SumOf(RolledUp(samples), Bytes(q)) == SumOf(samples, Share(q, HOUR)) + SumOf(samples, Share(q, DAY))
  {
    hide AccumulatedAll, Bytes, Aligned, Matches;
    if samples != [] {
      var before, sample := samples[..|samples| - 1], samples[|samples| - 1];
      RollUpAdds(before, q);
      NoRepeats(sample);
      AccumulateAllAdds(RolledUp(before), HOUR, DimensionsOf(sample), sample, q);
      AccumulateAllAdds(AccumulatedAll(RolledUp(before), HOUR, DimensionsOf(sample), sample), DAY, DimensionsOf(sample),
                        sample, q);
    }
  }

  lemma UpsertAdds(table: seq<Row>, row: Row, q: Query)
    ensures SumOf(Upserted(table, row), Bytes(q)) == SumOf(table, Bytes(q)) + Bytes(q)(row)
  {
    var at := IndexOf(table, row.key);
    if at.None? {
      SumConcat(table, [row], Bytes(q));
    } else {
      SumUpdated(table, at.value, Upserted(table, row)[at.value], Bytes(q));
    }
  }

  lemma {:induction false} UpsertAllAdds(table: seq<Row>, rows: seq<Row>, q: Query)
    ensures SumOf(UpsertedAll(table, rows), Bytes(q)) == SumOf(table, Bytes(q)) + SumOf(rows, Bytes(q))
  {
    if rows != [] {
      UpsertAllAdds(table, rows[..|rows| - 1], q);
      UpsertAdds(UpsertedAll(table, rows[..|rows| - 1]), rows[|rows| - 1], q);
    }
  }

  /** However samples are batched, a query reads each one's bytes once per granularity it asks for. */
  lemma {:induction false} NothingLost(batches: seq<seq<Sample>>, q: Query)
    ensures SumOf(Stored(batches), Bytes(q))
            == SumOf(Samples(batches), Share(q, HOUR)) + SumOf(Samples(batches), Share(q, DAY))
  {
    if batches != [] {
      var before, batch := batches[..|batches| - 1], batches[|batches| - 1];
      NothingLost(before, q);
      RollUpAdds(batch, q);
      UpsertAllAdds(Stored(before), RolledUp(batch), q);
      SumConcat(Samples(before), batch, Share(q, HOUR));
      SumConcat(Samples(before), batch, Share(q, DAY));
    }
  }

  /** The first bucket boundary not before `t`. */
  function Ceiling(t: int, g: Granularity): (c: int)
    ensures t <= c || Aligned(t, g) == t
  {
    BucketContains(t, g);
    if Aligned(t, g) == t then t else After(Aligned(t, g), g)
  }

  /** What a query by bucket start makes of a range: both ends moved up to a boundary. */
  function Ceiled(range: Range, g: Granularity): Range {
    Range(Ceiling(range.start, g), Ceiling(range.end, g))
  }

  lemma StartsAfter(bound: int, g: Granularity, t: int)
    ensures bound <= Aligned(t, g) <==> Ceiling(bound, g) <= t
  {
    hide Aligned, After;
    BucketContains(t, g);
    BucketContains(bound, g);
    BucketsTile(t, bound, g);
    BucketsTile(bound, t, g);
  }

  lemma CeilingMonotone(a: int, b: int, g: Granularity)
    requires a <= b
    ensures a <= Ceiling(a, g) <= Ceiling(b, g)
  {
    BucketContains(a, g);
    BucketContains(b, g);
    StartsAfter(a, g, Ceiling(b, g));
    CeilingAligned(b, g);
  }

  lemma CeilingAligned(t: int, g: Granularity)
    ensures Aligned(Ceiling(t, g), g) == Ceiling(t, g) && t <= Ceiling(t, g)
  {
    BucketContains(t, g);
    NextIsAligned(t, g);
  }

  lemma NextIsAligned(t: int, g: Granularity)
    ensures Aligned(After(Aligned(t, g), g), g) == After(Aligned(t, g), g)
  {
    hide MonthBegin, MonthAt, After;
    if g == MONTH {
      BucketContains(t, g);
      MonthBeginsAlone(Calendar.Next(MonthAt(t)));
    } else {
      WidthAfter(t, g);
      Divides(Aligned(t, g) + Width(g), Width(g), t / Width(g) + 1, 0);
    }
  }

  lemma WidthAfter(t: int, g: Granularity)
    requires g != MONTH
    ensures After(Aligned(t, g), g) == Aligned(t, g) + Width(g)
  {
  }

  /** The rows of one granularity in a range hold the samples of the range with its ends moved up. */
  lemma ShareIsCeiled(samples: seq<Sample>, q: Query, g: Granularity)
    requires q.granularity.None? || q.granularity == Some(g)
    ensures SumOf(samples, Share(q, g)) == SumOf(samples, Carried(q.dimension, q.source, Ceiled(q.range, g)))
  {
    hide Aligned, Ceiling;
    forall i | 0 <= i < |samples|
      ensures Share(q, g)(samples[i]) == Carried(q.dimension, q.source, Ceiled(q.range, g))(samples[i])
    {
      StartsAfter(q.range.start, g, samples[i].ts);
      StartsAfter(q.range.end, g, samples[i].ts);
    }
    SumSame(samples, Share(q, g), Carried(q.dimension, q.source, Ceiled(q.range, g)));
  }

  lemma ShareOfOther(samples: seq<Sample>, q: Query, g: Granularity)
    requires q.granularity.Some? && q.granularity.value != g
    ensures SumOf(samples, Share(q, g)) == 0
  {
    SumZero(samples, Share(q, g));
  }

  /** What the samples carry from one instant up to another. */
  function Between(samples: seq<Sample>, q: Query, from: int, to: int): nat {
    SumOf(samples, Carried(q.dimension, q.source, Range(from, to)))
  }

  lemma BetweenSplits(samples: seq<Sample>, q: Query, a: int, b: int, c: int)
    requires a <= b <= c
    ensures Between(samples, q, a, c) == Between(samples, q, a, b) + Between(samples, q, b, c)
  {
    SumPlus(samples, Carried(q.dimension, q.source, Range(a, c)), Carried(q.dimension, q.source, Range(a, b)),
            Carried(q.dimension, q.source, Range(b, c)));
  }

  lemma BetweenNothing(samples: seq<Sample>, q: Query, a: int, b: int)
    requires b <= a
    ensures Between(samples, q, a, b) == 0
  {
    SumZero(samples, Carried(q.dimension, q.source, Range(a, b)));
  }

  /** The traffic between the start of a range and the first bucket boundary from it on; likewise at its end. */
  function Head(samples: seq<Sample>, q: Query, g: Granularity): nat {
    Between(samples, q, q.range.start, Ceiling(q.range.start, g))
  }

  function Tail(samples: seq<Sample>, q: Query, g: Granularity): nat {
    Between(samples, q, q.range.end, Ceiling(q.range.end, g))
  }

  /** Moving both ends up drops the head and takes in the tail. */
  lemma CeiledCarries(samples: seq<Sample>, q: Query, g: Granularity)
    requires q.range.start <= q.range.end
    ensures Between(samples, q, Ceiling(q.range.start, g), Ceiling(q.range.end, g)) + Head(samples, q, g)
            == Between(samples, q, q.range.start, q.range.end) + Tail(samples, q, g)
  {
    var s, e := q.range.start, q.range.end;
    CeilingMonotone(s, e, g);
    CeilingMonotone(e, e, g);
    BetweenSplits(samples, q, s, e, Ceiling(e, g));
    BetweenSplits(samples, q, s, Ceiling(s, g), Ceiling(e, g));
  }

  /**
   * The traffic series asks for one granularity. Over any range at all it counts every byte
   * once, from the first bucket boundary in the range to the first one not before its end.
   */
  lemma SeriesCountsOnce(batches: seq<seq<Sample>>, q: Query)
    requires q.granularity == Some(HOUR) || q.granularity == Some(DAY)
    ensures SumOf(Stored(batches), Bytes(q))
            == SumOf(Samples(batches), Carried(q.dimension, q.source, Ceiled(q.range, q.granularity.value)))
  {
    hide Share, Carried, Ceiled, Stored, Samples;
    var g := q.granularity.value;
    NothingLost(batches, q);
    ShareIsCeiled(Samples(batches), q, g);
    ShareOfOther(Samples(batches), q, if g == HOUR then DAY else HOUR);
  }

  /**
   * When the series shows what the range asked for carried: for every range, exactly when the
   * bucket it cuts at its start and leaves out carried from there on what the bucket it cuts
   * at its end and takes whole carried beyond it; or the range is empty.
   */
  lemma SeriesExactly(batches: seq<seq<Sample>>, q: Query)
    requires q.granularity == Some(HOUR) || q.granularity == Some(DAY)
    ensures var samples, g := Samples(batches), q.granularity.value;
            SumOf(Stored(batches), Bytes(q)) == SumOf(samples, Carried(q.dimension, q.source, q.range)) <==>
              q.range.end <= q.range.start || Head(samples, q, g) == Tail(samples, q, g)
  {
    var samples, g := Samples(batches), q.granularity.value;
    hide Stored, Samples, SumOf, Bytes, Carried, Ceiling;
    SeriesCountsOnce(batches, q);
    if q.range.end <= q.range.start {
      CeilingMonotone(q.range.end, q.range.start, g);
      BetweenNothing(samples, q, Ceiling(q.range.start, g), Ceiling(q.range.end, g));
      BetweenNothing(samples, q, q.range.start, q.range.end);
    } else {
      CeiledCarries(samples, q, g);
    }
  }

  /** So a range that begins on a boundary, with no sample yet at its end, is shown exactly. */
  lemma SeriesUpToNow(batches: seq<seq<Sample>>, q: Query)
    requires q.granularity == Some(HOUR) || q.granularity == Some(DAY)
    requires Aligned(q.range.start, q.granularity.value) == q.range.start
    requires forall i :: 0 <= i < |Samples(batches)| ==> Samples(batches)[i].ts < q.range.end
    ensures SumOf(Stored(batches), Bytes(q)) == SumOf(Samples(batches), Carried(q.dimension, q.source, q.range))
  {
    var samples, g := Samples(batches), q.granularity.value;
    SeriesExactly(batches, q);
    BetweenNothing(samples, q, q.range.start, Ceiling(q.range.start, g));
    SumZero(samples, Carried(q.dimension, q.source, Range(q.range.end, Ceiling(q.range.end, g))));
  }

  lemma Whole(range: Range, g: Granularity)
    requires Aligned(range.start, g) == range.start && Aligned(range.end, g) == range.end
    ensures Ceiled(range, g) == range
  {
  }

  /** On a range that begins and ends on bucket boundaries, the rows of a granularity hold its samples. */
  lemma ShareOfWhole(samples: seq<Sample>, q: Query, g: Granularity)
    requires Aligned(q.range.start, g) == q.range.start && Aligned(q.range.end, g) == q.range.end
    requires q.granularity.None? || q.granularity == Some(g)
    ensures SumOf(samples, Share(q, g)) == SumOf(samples, Carried(q.dimension, q.source, q.range))
  {
    ShareIsCeiled(samples, q, g);
    Whole(q.range, g);
  }

  // --------------------------------------------------------------------- the bill

  function Measured(batches: seq<seq<Sample>>, dimension: Dimension, source: Option<Source>, range: Range): nat {
    Cost.AllBytes(Selected(Stored(batches), Query(dimension, range, None, source)))
  }

  /**
   * The bill and the receipt ask for no granularity. Over any range they measure what the hours
   * that begin in it carried and, again, what the days that begin in it carried.
   */
  lemma BillCountsHoursAndDays(batches: seq<seq<Sample>>, dimension: Dimension, source: Option<Source>, range: Range)
    ensures Measured(batches, dimension, source, range)
            == SumOf(Samples(batches), Carried(dimension, source, Ceiled(range, HOUR)))
             + SumOf(Samples(batches), Carried(dimension, source, Ceiled(range, DAY)))
  {
    var q := Query(dimension, range, None, source);
    hide Stored, Samples, SumOf, Bytes, Carried, Share, Ceiled, Selected;
    SelectedBytes(Stored(batches), q);
    NothingLost(batches, q);
    ShareIsCeiled(Samples(batches), q, HOUR);
    ShareIsCeiled(Samples(batches), q, DAY);
  }

  /**
   * What a bill makes of any range: twice what it carried, but for the hour and the day cut at
   * either end. It is twice exactly when the two cuts at the start carried what the two at the
   * end did, or the range is empty.
   */
  lemma BilledTwiceExactly(batches: seq<seq<Sample>>, dimension: Dimension, source: Option<Source>, range: Range)
    ensures var samples, q := Samples(batches), Query(dimension, range, None, source);
            var measured := Measured(batches, dimension, source, range);
            var carried := SumOf(samples, Carried(dimension, source, range));
            var heads := Head(samples, q, HOUR) + Head(samples, q, DAY);
            var tails := Tail(samples, q, HOUR) + Tail(samples, q, DAY);
            && (range.start < range.end ==> measured + heads == 2 * carried + tails)
            && (range.end <= range.start ==> measured == carried == 0)
            && (measured == 2 * carried <==> range.end <= range.start || heads == tails)
  {
    var samples, q := Samples(batches), Query(dimension, range, None, source);
    hide Stored, Samples, SumOf, Carried, Ceiling, Selected, Measured;
    BillCountsHoursAndDays(batches, dimension, source, range);
    if range.end <= range.start {
      CeilingMonotone(range.end, range.start, HOUR);
      CeilingMonotone(range.end, range.start, DAY);
      BetweenNothing(samples, q, Ceiling(range.start, HOUR), Ceiling(range.end, HOUR));
      BetweenNothing(samples, q, Ceiling(range.start, DAY), Ceiling(range.end, DAY));
      BetweenNothing(samples, q, range.start, range.end);
    } else {
      CeiledCarries(samples, q, HOUR);
      CeiledCarries(samples, q, DAY);
    }
  }

  lemma WindowIsWholeDays(period: Period, periodStartDay: int, now: int)
    ensures var w := BillingWindow(period, periodStartDay, now);
            && Aligned(w.start, HOUR) == w.start && Aligned(w.end, HOUR) == w.end
            && Aligned(w.start, DAY) == w.start && Aligned(w.end, DAY) == w.end
  {
    hide BillingWindow, WeekDay, MonthAt, Aligned;
    var end := BillingWindow(period, periodStartDay, now).end;
    WindowShape(period, periodStartDay, now);
    WindowsAbut(period, periodStartDay, now);
    WindowShape(period, periodStartDay, end);
    Midnight(BillingWindow(period, periodStartDay, now).start);
    Midnight(end);
  }

  lemma Midnight(t: int)
    requires TimeWithinDay(t) == 0
    ensures Aligned(t, HOUR) == t && Aligned(t, DAY) == t
  {
    Divides(t, MS_PER_HOUR, t / MS_PER_DAY * 24, 0);
  }

  /**
   * Over a billing period nothing is cut, so every byte is measured twice, as part of its hour
   * and as part of its day: for every history of flushes, dimension, source and period.
   */
  lemma BilledTwice(batches: seq<seq<Sample>>, dimension: Dimension, source: Option<Source>, period: Period,
                    periodStartDay: int, now: int)
    ensures var window := BillingWindow(period, periodStartDay, now);
            Measured(batches, dimension, source, window)
            == 2 * SumOf(Samples(batches), Carried(dimension, source, window))
  {
    var window := BillingWindow(period, periodStartDay, now);
    hide BillingWindow, Stored, Samples, SumOf, Carried, Selected, Measured, Ceiled;
    BillCountsHoursAndDays(batches, dimension, source, window);
    WindowIsWholeDays(period, periodStartDay, now);
    Whole(window, HOUR);
    Whole(window, DAY);
  }

  /** The bytes of one entity in the breakdowns beside the chart, which ask for no granularity either. */
  function Breakdown(batches: seq<seq<Sample>>, dimension: Dimension, source: Option<Source>, range: Range): nat {
    SumOf(Stored(batches), Bytes(Query(dimension, range, None, source)))
  }

  /** The bytes of the same entity in the series of one granularity. */
  function Series(batches: seq<seq<Sample>>, dimension: Dimension, source: Option<Source>, range: Range,
                  g: Granularity): nat {
    SumOf(Stored(batches), Bytes(Query(dimension, range, Some(g), source)))
  }

  /**
   * Over any range, an entity's bytes in a breakdown are those of its hourly and of its daily
   * chart together, so they are twice the one exactly when the two charts agree; and they are
   * twice its traffic exactly when a bill of it would be.
   */
  lemma BreakdownCountsBoth(batches: seq<seq<Sample>>, dimension: Dimension, source: Option<Source>, range: Range)
    ensures var hourly := Series(batches, dimension, source, range, HOUR);
            var daily := Series(batches, dimension, source, range, DAY);
            && Breakdown(batches, dimension, source, range) == hourly + daily
            && (Breakdown(batches, dimension, source, range) == 2 * hourly <==> hourly == daily)
    ensures var samples, q := Samples(batches), Query(dimension, range, None, source);
            Breakdown(batches, dimension, source, range) == 2 * SumOf(samples, Carried(dimension, source, range)) <==>
              || range.end <= range.start
              || Head(samples, q, HOUR) + Head(samples, q, DAY) == Tail(samples, q, HOUR) + Tail(samples, q, DAY)
  {
    hide Stored, Samples, SumOf, Bytes, Carried, Share, Ceiled, Selected, Head, Tail;
    SelectedBytes(Stored(batches), Query(dimension, range, None, source));
    BillCountsHoursAndDays(batches, dimension, source, range);
    BilledTwiceExactly(batches, dimension, source, range);
    SeriesCountsOnce(batches, Query(dimension, range, Some(HOUR), source));
    SeriesCountsOnce(batches, Query(dimension, range, Some(DAY), source));
  }
}
