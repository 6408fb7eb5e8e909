/**
 * The optimized volume that aggregate rows store (src/server/traffic/buffer.ts:131-248,
 * 309-318): what a history of flushes leaves of what was measured.
 */
module Volumes {
  import opened Common
  import opened Sums
  import opened Time
  import opened Rollup
  import Cost

  /** The optimized volume stored under a key; none for a key without a row. */
  function VolumeAt(rows: seq<Row>, key: Key): Option<nat> {
    if IndexOf(rows, key).Some? then rows[IndexOf(rows, key).value].optimized else None
  }

  predicate HasKey(rows: seq<Row>, key: Key) {
    IndexOf(rows, key).Some?
  }

  /** The sample belongs to the row of the key. */
  predicate Belongs(sample: Sample, key: Key) {
    && key.dimension in DimensionsOf(sample) && (key.granularity == HOUR || key.granularity == DAY)
    && KeyOf(sample, key.granularity, key.dimension) == key
  }

  function Touching(key: Key): Sample -> nat {
    (sample: Sample) => if Belongs(sample, key) then 1 else 0
  }

  function MeasuredTouching(key: Key): Sample -> nat {
    (sample: Sample) => if Belongs(sample, key) && sample.optimized.Some? then 1 else 0
  }

  function MeasuredVolume(key: Key): Sample -> nat {
    (sample: Sample) => if Belongs(sample, key) && sample.optimized.Some? then sample.optimized.value else 0
  }

  /** Some sample belongs to the key; some sample that belongs to it was measured. */
  predicate Touched(samples: seq<Sample>, key: Key) {
    SumOf(samples, Touching(key)) > 0
  }

  predicate AnyMeasuredAt(samples: seq<Sample>, key: Key) {
    SumOf(samples, MeasuredTouching(key)) > 0
  }

  function Volume(samples: seq<Sample>, key: Key): nat {
    SumOf(samples, MeasuredVolume(key))
  }

  /** What the volume of a key is meant to be: the sum of what was measured, none where nothing was. */
  function TrueVolume(samples: seq<Sample>, key: Key): Option<nat> {
    if AnyMeasuredAt(samples, key) then Some(Volume(samples, key)) else None
  }

  lemma {:induction false} SameKeys(a: seq<Row>, b: seq<Row>, key: Key)
    requires |a| == |b| && forall i :: 0 <= i < |a| ==> a[i].key == b[i].key
    ensures IndexOf(a, key) == IndexOf(b, key)
  {
    if a != [] {
      SameKeys(a[..|a| - 1], b[..|b| - 1], key);
    }
  }

  lemma IndexAppended(rows: seq<Row>, row: Row, key: Key)
    ensures IndexOf(rows + [row], key) == if row.key == key then Some(|rows|) else IndexOf(rows, key)
  {
    assert (rows + [row])[..|rows|] == rows;
  }

  lemma AccumulateVolume(rows: seq<Row>, at: Key, sample: Sample, key: Key)
    ensures HasKey(Accumulated(rows, at, sample), key) <==> HasKey(rows, key) || at == key
    ensures VolumeAt(Accumulated(rows, at, sample), key)
            == if at != key || sample.optimized.None? then VolumeAt(rows, key)
               else Some((if VolumeAt(rows, key).Some? then VolumeAt(rows, key).value else 0) + sample.optimized.value)
  {
    if IndexOf(rows, at).None? {
      IndexAppended(rows, Row(at, sample.bytes, sample.optimized), key);
    } else {
      SameKeys(rows, Accumulated(rows, at, sample), key);
    }
  }

  lemma {:induction false} AccumulateAllVolume(rows: seq<Row>, g: Granularity, dimensions: seq<Dimension>,
                                               sample: Sample, key: Key)
    requires forall i, j :: 0 <= i < j < |dimensions| ==> dimensions[i] != dimensions[j]
    ensures var hit := key.dimension in dimensions && KeyOf(sample, g, key.dimension) == key;
            var after := AccumulatedAll(rows, g, dimensions, sample);
            && (HasKey(after, key) <==> HasKey(rows, key) || hit)
            && VolumeAt(after, key)
               == if !hit || sample.optimized.None? then VolumeAt(rows, key)
                  else Some((if VolumeAt(rows, key).Some? then VolumeAt(rows, key).value else 0)
                            + sample.optimized.value)
  {
    hide Accumulated, VolumeAt, HasKey, Aligned;
    if dimensions != [] {
      var last := |dimensions| - 1;
      AccumulateAllVolume(rows, g, dimensions[..last], sample, key);
      AccumulateVolume(AccumulatedAll(rows, g, dimensions[..last], sample), KeyOf(sample, g, dimensions[last]), sample,
                       key);
      assert key.dimension in dimensions <==> key.dimension in dimensions[..last] || key.dimension == dimensions[last];
    }
  }

  /** Within a batch nothing is lost: a rolled-up row has the measured volume of its samples. */
  lemma {:induction false} RollUpVolume(samples: seq<Sample>, key: Key)
    ensures HasKey(RolledUp(samples), key) <==> Touched(samples, key)
    ensures VolumeAt(RolledUp(samples), key) == TrueVolume(samples, key)
    ensures AnyMeasuredAt(samples, key) ==> Touched(samples, key)
    ensures !AnyMeasuredAt(samples, key) ==> Volume(samples, key) == 0
  {
    hide AccumulatedAll, VolumeAt, HasKey, Aligned, DimensionsOf;
    if samples == [] {
      assert !HasKey([], key) && VolumeAt([], key).None? by { NoRows(key); }
    } else {
      var before, sample := samples[..|samples| - 1], samples[|samples| - 1];
      RollUpVolume(before, key);
      NoRepeats(sample);
      AccumulateAllVolume(RolledUp(before), HOUR, DimensionsOf(sample), sample, key);
      AccumulateAllVolume(AccumulatedAll(RolledUp(before), HOUR, DimensionsOf(sample), sample), DAY,
                          DimensionsOf(sample), sample, key);
    }
  }

  lemma NoRows(key: Key)
    ensures !HasKey([], key) && VolumeAt([], key).None?
  {
  }

  predicate Unique(rows: seq<Row>) {
    forall i, j :: 0 <= i < j < |rows| ==> rows[i].key != rows[j].key
  }

  lemma {:induction false} RolledUpUnique(samples: seq<Sample>)
    ensures Unique(RolledUp(samples))
  {
    hide Unique, AccumulatedAll;
    if samples == [] {
      assert Unique([]) by { NoneUnique(); }
    } else {
      var sample := samples[|samples| - 1];
      RolledUpUnique(samples[..|samples| - 1]);
      AccumulatedAllUnique(RolledUp(samples[..|samples| - 1]), HOUR, DimensionsOf(sample), sample);
      AccumulatedAllUnique(AccumulatedAll(RolledUp(samples[..|samples| - 1]), HOUR, DimensionsOf(sample), sample), DAY,
                           DimensionsOf(sample), sample);
    }
  }

  lemma NoneUnique()
    ensures Unique([])
  {
  }

  lemma AccumulatedUnique(rows: seq<Row>, key: Key, sample: Sample)
    requires Unique(rows)
    ensures Unique(Accumulated(rows, key, sample))
  {
    var after := Accumulated(rows, key, sample);
    assert forall i :: 0 <= i < |rows| ==> after[i].key == rows[i].key;
  }

  lemma {:induction false} AccumulatedAllUnique(rows: seq<Row>, g: Granularity, dimensions: seq<Dimension>,
                                                sample: Sample)
    requires Unique(rows)
    ensures Unique(AccumulatedAll(rows, g, dimensions, sample))
  {
    hide Unique, Accumulated;
    if dimensions != [] {
      var last := |dimensions| - 1;
      AccumulatedAllUnique(rows, g, dimensions[..last], sample);
      AccumulatedUnique(AccumulatedAll(rows, g, dimensions[..last], sample), KeyOf(sample, g, dimensions[last]),
                        sample);
    }
  }

  /** One upsert: a new row is stored as it is; onto a stored row it adds exactly, unless the stored volume is NULL. */
  lemma UpsertVolume(table: seq<Row>, row: Row, key: Key)
    ensures HasKey(Upserted(table, row), key) <==> HasKey(table, key) || row.key == key
    ensures VolumeAt(Upserted(table, row), key)
            == if row.key != key then VolumeAt(table, key)
               else if !HasKey(table, key) then row.optimized
               else if VolumeAt(table, key).Some? && row.optimized.Some?
               then Some(VolumeAt(table, key).value + row.optimized.value)
               else VolumeAt(table, key)
  {
    if IndexOf(table, row.key).None? {
      IndexAppended(table, row, key);
    } else {
      SameKeys(table, Upserted(table, row), key);
    }
  }

  lemma {:induction false} UpsertAllVolume(table: seq<Row>, rows: seq<Row>, key: Key)
    requires Unique(rows)
    ensures var after := UpsertedAll(table, rows);
            && (HasKey(after, key) <==> HasKey(table, key) || HasKey(rows, key))
            && VolumeAt(after, key)
               == if !HasKey(rows, key) then VolumeAt(table, key)
                  else if !HasKey(table, key) then VolumeAt(rows, key)
                  else if VolumeAt(table, key).Some? && VolumeAt(rows, key).Some?
                  then Some(VolumeAt(table, key).value + VolumeAt(rows, key).value)
                  else VolumeAt(table, key)
  {
    hide Upserted;
    if rows == [] {
      NoRows(key);
    } else {
      var before, row := rows[..|rows| - 1], rows[|rows| - 1];
      UpsertAllVolume(table, before, key);
      UpsertVolume(UpsertedAll(table, before), row, key);
      assert before + [row] == rows;
      IndexAppended(before, row, key);
      assert row.key == key ==> IndexOf(before, key).None?;
    }
  }

  /** The first batch with a sample that belongs to the key. */
  function FirstBatch(batches: seq<seq<Sample>>, key: Key): (first: Option<seq<Sample>>)
    ensures first.Some? <==> Touched(Samples(batches), key)
  {
    if batches == [] then None
    else
      var before, last := batches[..|batches| - 1], batches[|batches| - 1];
      SumConcat(Samples(before), last, Touching(key));
      if FirstBatch(before, key).Some? then FirstBatch(before, key)
      else if Touched(last, key) then Some(last)
      else None
  }

  /**
   * The volume stored after any history of flushes: the sum of all that was measured when the
   * first batch that touched the bucket had a measured sample for it, and otherwise none,
   * whatever later batches measured.
   */
  lemma {:induction false} StoredVolume(batches: seq<seq<Sample>>, key: Key)
    ensures var first := FirstBatch(batches, key);
            && (HasKey(Stored(batches), key) <==> first.Some?)
            && VolumeAt(Stored(batches), key)
               == (if first.Some? && AnyMeasuredAt(first.value, key) then Some(Volume(Samples(batches), key)) else None)
            && (first.None? ==> Volume(Samples(batches), key) == 0)
  {
    hide UpsertedAll, RolledUp, VolumeAt, HasKey, Touching, MeasuredTouching, MeasuredVolume;
    if batches == [] {
      assert !HasKey([], key) && VolumeAt([], key).None? by { NoRows(key); }
    } else {
      var before, last := batches[..|batches| - 1], batches[|batches| - 1];
      StoredVolume(before, key);
      RolledUpUnique(last);
      RollUpVolume(last, key);
      UpsertAllVolume(Stored(before), RolledUp(last), key);
      SumConcat(Samples(before), last, MeasuredVolume(key));
    }
  }

  /**
   * A row is meant to hold the measured volume of its samples. Over every history it does so
   * exactly when the first batch that touched it had a measured sample for it, or none has.
   */
  lemma VolumeExactly(batches: seq<seq<Sample>>, key: Key)
    ensures var samples, first := Samples(batches), FirstBatch(batches, key);
            VolumeAt(Stored(batches), key) == TrueVolume(samples, key) <==>
              !AnyMeasuredAt(samples, key) || (first.Some? && AnyMeasuredAt(first.value, key))
  {
    hide FirstBatch, Stored;
    StoredVolume(batches, key);
    FirstMeasured(batches, key);
  }

  lemma {:induction false} FirstMeasured(batches: seq<seq<Sample>>, key: Key)
    ensures var first := FirstBatch(batches, key);
            first.Some? && AnyMeasuredAt(first.value, key) ==> AnyMeasuredAt(Samples(batches), key)
  {
    if batches != [] {
      var before, last := batches[..|batches| - 1], batches[|batches| - 1];
      FirstMeasured(before, key);
      SumConcat(Samples(before), last, MeasuredTouching(key));
    }
  }

  /** A batch of one sample, at a key the sample belongs to. */
  lemma OneSample(sample: Sample, key: Key)
    requires Belongs(sample, key)
    ensures SumOf([sample], Touching(key)) == 1
    ensures SumOf([sample], MeasuredTouching(key)) == if sample.optimized.Some? then 1 else 0
    ensures SumOf([sample], MeasuredVolume(key)) == if sample.optimized.Some? then sample.optimized.value else 0
  {
    hide Belongs;
    SumOne(sample, Touching(key));
    SumOne(sample, MeasuredTouching(key));
    SumOne(sample, MeasuredVolume(key));
  }

  lemma TwoBatches(first: seq<Sample>, second: seq<Sample>, key: Key)
    requires Touched(first, key)
    ensures Samples([first, second]) == first + second && FirstBatch([first, second], key) == Some(first)
  {
    hide Touching, SumOf;
    var batches := [first, second];
    assert batches[..1] == [first] && batches[..1][..0] == [];
    assert Samples(batches[..1]) == [] + first == first;
    assert FirstBatch(batches[..1][..0], key) == None;
    assert FirstBatch(batches[..1], key) == Some(first);
  }

  /** An unmeasured batch followed by a measured one: the volume stays NULL, and what was measured is lost. */
  lemma MeasuredTooLate(early: Sample, late: Sample, key: Key)
    requires Belongs(early, key) && Belongs(late, key) && early.optimized.None? && late.optimized.Some?
    ensures VolumeAt(Stored([[early], [late]]), key) == None
    ensures TrueVolume(Samples([[early], [late]]), key) == late.optimized
  {
    hide Belongs, Touching, MeasuredTouching, MeasuredVolume, SumOf, VolumeAt, Stored, Samples, FirstBatch;
    OneSample(early, key);
    OneSample(late, key);
    TwoBatches([early], [late], key);
    StoredVolume([[early], [late]], key);
    SumConcat([early], [late], MeasuredTouching(key));
    SumConcat([early], [late], MeasuredVolume(key));
  }

  /** Such samples there are: two of one instant, the first without a measurement. */
  lemma TooLateExists()
    ensures var late := Sample(0, Cost.UPLOAD, REAL, 10, Some(5), None, None, None, None, None);
            var key := KeyOf(late, HOUR, SYSTEM);
            Belongs(late.(optimized := None), key) && Belongs(late, key)
  {
    var late := Sample(0, Cost.UPLOAD, REAL, 10, Some(5), None, None, None, None, None);
    assert DimensionsOf(late)[0] == SYSTEM && DimensionsOf(late.(optimized := None))[0] == SYSTEM;
  }
}
