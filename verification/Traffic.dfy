/**
 * src/server/analytics/traffic.ts: the chart's buckets and the summary above it. Rates are
 * exact reals; a time is in milliseconds.
 */
module Traffic {
  import opened Common
  import opened Sums
  import opened Time
  import Cost

  datatype Row = Row(
    start: int,
    direction: Cost.Direction,
    bytes: nat,
    optimized: Option<nat>,
    packets: Option<nat>,
    connections: Option<nat>)

  datatype Totals = Totals(upload: nat, download: nat, optimized: Option<nat>)

  datatype Bucket = Bucket(t: int, totals: Totals)

  // -------------------------------------------------------------- what rows hold

  /** `at` restricts to the rows of one bucket. */
  predicate Within(at: Option<int>, row: Row) {
    at.None? || row.start == at.value
  }

  function Uploaded(at: Option<int>): Row -> nat {
    (row: Row) => if Within(at, row) && row.direction == Cost.UPLOAD then row.bytes else 0
  }

  function Downloaded(at: Option<int>): Row -> nat {
    (row: Row) => if Within(at, row) && row.direction == Cost.DOWNLOAD then row.bytes else 0
  }

  function Optimized(at: Option<int>): Row -> nat {
    (row: Row) => if Within(at, row) && row.optimized.Some? then row.optimized.value else 0
  }

  function Measured(at: Option<int>): Row -> nat {
    (row: Row) => if Within(at, row) && row.optimized.Some? then 1 else 0
  }

  function TotalsOf(rows: seq<Row>, at: Option<int>): Totals {
    Totals(
      SumOf(rows, Uploaded(at)),
      SumOf(rows, Downloaded(at)),
      if SumOf(rows, Measured(at)) == 0 then None else Some(SumOf(rows, Optimized(at))))
  }

  /** A row added to what was counted before it. */
  function Added(totals: Totals, row: Row): Totals {
    Totals(
      totals.upload + if row.direction == Cost.UPLOAD then row.bytes else 0,
      totals.download + if row.direction == Cost.UPLOAD then 0 else row.bytes,
      if row.optimized.None? then totals.optimized
      else Some((if totals.optimized.Some? then totals.optimized.value else 0) + row.optimized.value))
  }

  lemma {:induction false} UnmeasuredIsZero(rows: seq<Row>, at: Option<int>)
    requires SumOf(rows, Measured(at)) == 0
    ensures SumOf(rows, Optimized(at)) == 0
  {
    if rows != [] {
      UnmeasuredIsZero(rows[..|rows| - 1], at);
    }
  }

  lemma TotalsStep(rows: seq<Row>, n: nat, at: Option<int>)
    requires n < |rows|
    ensures TotalsOf(rows[..n + 1], at)
            == if Within(at, rows[n]) then Added(TotalsOf(rows[..n], at), rows[n]) else TotalsOf(rows[..n], at)
  {
    assert rows[..n + 1][..n] == rows[..n];
    if SumOf(rows[..n], Measured(at)) == 0 {
      UnmeasuredIsZero(rows[..n], at);
    }
  }

  // ------------------------------------------------------------------- the fold

  predicate Ascending(buckets: seq<Bucket>) {
    forall i, j :: 0 <= i < j < |buckets| ==> buckets[i].t < buckets[j].t
  }

  /** The fold of some rows: one bucket per start, in order of time, with the totals of its rows. */
  ghost predicate Folded(rows: seq<Row>, buckets: seq<Bucket>) {
    && Ascending(buckets)
    && (forall k :: 0 <= k < |buckets| ==> buckets[k].totals == TotalsOf(rows, Some(buckets[k].t)))
    && (forall k :: 0 <= k < |buckets| ==> Starts(rows, buckets[k].t))
    && (forall i :: 0 <= i < |rows| ==> HasBucket(buckets, rows[i].start))
  }

  predicate Starts(rows: seq<Row>, t: int) {
    exists i :: 0 <= i < |rows| && rows[i].start == t
  }

  predicate HasBucket(buckets: seq<Bucket>, t: int) {
    exists k :: 0 <= k < |buckets| && buckets[k].t == t
  }

  method FoldBuckets(rows: seq<Row>) returns (buckets: seq<Bucket>)
    ensures Folded(rows, buckets)
  {
    var byStart: map<int, Totals> := map[];
    var keys: seq<int> := [];
    for n := 0 to |rows|
      invariant Gathered(rows[..n], byStart)
      invariant forall t :: t in byStart <==> t in keys
      invariant forall i, j :: 0 <= i < j < |keys| ==> keys[i] != keys[j]
    {
      var row := rows[n];
      GatherStep(rows, n, byStart);
      keys := if row.start in byStart then keys else keys + [row.start];
      var bucket := if row.start in byStart then byStart[row.start] else Totals(0, 0, None);
      byStart := byStart[row.start := Added(bucket, row)];
    }
    assert rows[..|rows|] == rows;
    buckets := InOrder(byStart, keys);
    forall i | 0 <= i < |rows| ensures HasBucket(buckets, rows[i].start) {
      assert Starts(rows, rows[i].start);
    }
  }

  /** What the map holds after some rows: the totals of each start. */
  ghost predicate Gathered(rows: seq<Row>, byStart: map<int, Totals>) {
    && (forall t :: t in byStart <==> Starts(rows, t))
    && (forall t :: t in byStart ==> byStart[t] == TotalsOf(rows, Some(t)))
  }

  lemma GatherStep(rows: seq<Row>, n: nat, byStart: map<int, Totals>)
    requires n < |rows| && Gathered(rows[..n], byStart)
    ensures var bucket := if rows[n].start in byStart then byStart[rows[n].start] else Totals(0, 0, None);
            Gathered(rows[..n + 1], byStart[rows[n].start := Added(bucket, rows[n])])
  {
    hide TotalsOf, Added;
    var start := rows[n].start;
    if start !in byStart {
      assert !Starts(rows[..n], start);
      NotYet(rows[..n], start);
    }
    var bucket := if start in byStart then byStart[start] else Totals(0, 0, None);
    var after := byStart[start := Added(bucket, rows[n])];
    forall t ensures t in after <==> Starts(rows[..n + 1], t) {
      StartsStep(rows, n, t);
    }
    forall t | t in after ensures after[t] == TotalsOf(rows[..n + 1], Some(t)) {
      TotalsStep(rows, n, Some(t));
    }
  }

  lemma StartsStep(rows: seq<Row>, n: nat, t: int)
    requires n < |rows|
    ensures Starts(rows[..n + 1], t) <==> Starts(rows[..n], t) || rows[n].start == t
  {
    if Starts(rows[..n], t) {
      var i :| 0 <= i < n && rows[..n][i].start == t;
      assert rows[..n + 1][i].start == t;
    }
    if rows[n].start == t {
      assert rows[..n + 1][n].start == t;
    }
  }

  lemma {:induction false} NotYet(rows: seq<Row>, t: int)
    requires forall i :: 0 <= i < |rows| ==> rows[i].start != t
    ensures TotalsOf(rows, Some(t)) == Totals(0, 0, None)
  {
    if rows != [] {
      NotYet(rows[..|rows| - 1], t);
    }
  }

  /** The entries of a map, whose keys come in the order they were added, sorted by key. */
  method InOrder(entries: map<int, Totals>, keys: seq<int>) returns (buckets: seq<Bucket>)
    requires forall t :: t in entries <==> t in keys
    requires forall i, j :: 0 <= i < j < |keys| ==> keys[i] != keys[j]
    ensures Ascending(buckets)
    ensures forall k :: 0 <= k < |buckets| ==> buckets[k].t in entries && buckets[k].totals == entries[buckets[k].t]
    ensures forall t :: t in entries ==> HasBucket(buckets, t)
  {
    buckets := [];
    forall j | 0 <= j < |keys| ensures keys[j] in entries {
      var t := keys[j];
      assert t in keys;
    }
    for i := 0 to |keys|
      invariant Ascending(buckets)
      invariant forall b :: b in buckets ==> b.t in keys[..i] && b.totals == entries[b.t]
      invariant forall j :: 0 <= j < i ==> Bucket(keys[j], entries[keys[j]]) in buckets
    {
      assert keys[i] !in keys[..i];
      buckets := Insert(buckets, Bucket(keys[i], entries[keys[i]]));
    }
    forall t | t in entries ensures HasBucket(buckets, t) {
      assert Bucket(t, entries[t]) in buckets;
    }
  }

  method Insert(buckets: seq<Bucket>, bucket: Bucket) returns (r: seq<Bucket>)
    requires Ascending(buckets) && forall b :: b in buckets ==> b.t != bucket.t
    ensures Ascending(r) && forall b :: b in r <==> b in buckets || b == bucket
  {
    var p := 0;
    while p < |buckets| && buckets[p].t < bucket.t
      invariant 0 <= p <= |buckets|
      invariant forall k :: 0 <= k < p ==> buckets[k].t < bucket.t
    {
      p := p + 1;
    }
    r := buckets[..p] + [bucket] + buckets[p..];
    Inserted(buckets, p, bucket);
  }

  lemma Inserted(buckets: seq<Bucket>, p: nat, bucket: Bucket)
    requires p <= |buckets| && Ascending(buckets) && forall b :: b in buckets ==> b.t != bucket.t
    requires forall k :: 0 <= k < p ==> buckets[k].t < bucket.t
    requires p < |buckets| ==> bucket.t <= buckets[p].t
    ensures var r := buckets[..p] + [bucket] + buckets[p..];
            Ascending(r) && forall b :: b in r <==> b in buckets || b == bucket
  {
    InsertedKeepsAll(buckets, p, bucket);
    InsertedAscends(buckets, p, bucket);
  }

  lemma InsertedKeepsAll(buckets: seq<Bucket>, p: nat, bucket: Bucket)
    requires p <= |buckets|
    ensures forall b :: b in buckets[..p] + [bucket] + buckets[p..] <==> b in buckets || b == bucket
  {
    assert buckets == buckets[..p] + buckets[p..];
  }

  lemma InsertedAscends(buckets: seq<Bucket>, p: nat, bucket: Bucket)
    requires p <= |buckets| && Ascending(buckets) && forall b :: b in buckets ==> b.t != bucket.t
    requires forall k :: 0 <= k < p ==> buckets[k].t < bucket.t
    requires p < |buckets| ==> bucket.t <= buckets[p].t
    ensures Ascending(buckets[..p] + [bucket] + buckets[p..])
  {
    var r := buckets[..p] + [bucket] + buckets[p..];
    assert p < |buckets| ==> buckets[p] in buckets;
    forall i, j | 0 <= i < j < |r| ensures r[i].t < r[j].t {
      assert r[j] == if j < p then buckets[j] else if j == p then bucket else buckets[j - 1];
      assert r[i] == if i < p then buckets[i] else if i == p then bucket else buckets[i - 1];
    }
  }

  lemma SameTotals(rows: seq<Row>, other: seq<Row>, at: Option<int>)
    requires multiset(rows) == multiset(other)
    ensures TotalsOf(rows, at) == TotalsOf(other, at)
  {
    SumPermuted(rows, other, Uploaded(at));
    SumPermuted(rows, other, Downloaded(at));
    SumPermuted(rows, other, Optimized(at));
    SumPermuted(rows, other, Measured(at));
  }

  /** The last of `a` is in `b`, so it is not after the last of `b`. */
  lemma LastWithin(a: seq<Bucket>, b: seq<Bucket>)
    requires Ascending(b) && a != [] && a[|a| - 1] in b
    ensures b != [] && a[|a| - 1].t <= b[|b| - 1].t
    ensures a[|a| - 1].t == b[|b| - 1].t ==> a[|a| - 1] == b[|b| - 1]
  {
    var j :| 0 <= j < |b| && b[j] == a[|a| - 1];
    assert j == |b| - 1 || b[j].t < b[|b| - 1].t;
  }

  lemma WithoutLast(a: seq<Bucket>, b: seq<Bucket>)
    requires Ascending(a) && a != [] && b != [] && a[|a| - 1] == b[|b| - 1]
    requires forall i :: 0 <= i < |a| ==> a[i] in b
    ensures Ascending(a[..|a| - 1])
    ensures var rest := a[..|a| - 1]; forall i :: 0 <= i < |rest| ==> rest[i] in b[..|b| - 1]
  {
    forall i | 0 <= i < |a| - 1 ensures a[i] in b[..|b| - 1] {
      var j :| 0 <= j < |b| && b[j] == a[i];
      assert a[i].t < a[|a| - 1].t;
      assert b[..|b| - 1][j] == a[i];
    }
  }

  lemma {:induction false} AscendingUnique(a: seq<Bucket>, b: seq<Bucket>)
    requires Ascending(a) && Ascending(b)
    requires forall i :: 0 <= i < |a| ==> a[i] in b
    requires forall i :: 0 <= i < |b| ==> b[i] in a
    ensures a == b
  {
    if a == [] {
      assert b == [];
    } else {
      hide Ascending;
      LastWithin(a, b);
      LastWithin(b, a);
      WithoutLast(a, b);
      WithoutLast(b, a);
      AscendingUnique(a[..|a| - 1], b[..|b| - 1]);
      assert a == a[..|a| - 1] + [a[|a| - 1]] && b == b[..|b| - 1] + [b[|b| - 1]];
    }
  }

  /** The fold does not depend on the order the rows come in. */
  lemma FoldIgnoresOrder(rows: seq<Row>, other: seq<Row>, buckets: seq<Bucket>, others: seq<Bucket>)
    requires multiset(rows) == multiset(other) && Folded(rows, buckets) && Folded(other, others)
    ensures buckets == others
  {
    EveryBucketIn(rows, other, buckets, others);
    EveryBucketIn(other, rows, others, buckets);
    AscendingUnique(buckets, others);
  }

  lemma EveryBucketIn(rows: seq<Row>, other: seq<Row>, buckets: seq<Bucket>, others: seq<Bucket>)
    requires multiset(rows) == multiset(other) && Folded(rows, buckets) && Folded(other, others)
    ensures forall k :: 0 <= k < |buckets| ==> buckets[k] in others
  {
    forall k | 0 <= k < |buckets| ensures buckets[k] in others {
      var t := buckets[k].t;
      var i :| 0 <= i < |rows| && rows[i].start == t;
      assert rows[i] in multiset(other);
      var j :| 0 <= j < |other| && other[j] == rows[i];
      assert HasBucket(others, other[j].start);
      var m :| 0 <= m < |others| && others[m].t == t;
      SameTotals(rows, other, Some(t));
      assert others[m] == buckets[k];
    }
  }

  // ---------------------------------------------------------------- what is kept

  function Upload(): Bucket -> nat {
    (bucket: Bucket) => bucket.totals.upload
  }

  function Download(): Bucket -> nat {
    (bucket: Bucket) => bucket.totals.download
  }

  function OptimizedIn(): Bucket -> nat {
    (bucket: Bucket) => if bucket.totals.optimized.Some? then bucket.totals.optimized.value else 0
  }

  /** A term of the rows, restricted to those that start in one of the buckets. */
  function Only(f: Row -> nat, buckets: seq<Bucket>): Row -> nat {
    (row: Row) => if HasBucket(buckets, row.start) then f(row) else 0
  }

  function OnlyAt(f: Row -> nat, t: int): Row -> nat {
    (row: Row) => if row.start == t then f(row) else 0
  }

  /** A sum over buckets of sums over their rows is the sum over the rows. */
  lemma {:induction false} SumByBucket(rows: seq<Row>, buckets: seq<Bucket>, f: Row -> nat, g: Bucket -> nat)
    requires Ascending(buckets)
    requires forall k :: 0 <= k < |buckets| ==> g(buckets[k]) == SumOf(rows, OnlyAt(f, buckets[k].t))
    ensures SumOf(buckets, g) == SumOf(rows, Only(f, buckets))
  {
    if buckets == [] {
      SumZero(rows, Only(f, buckets));
    } else {
      var n := |buckets| - 1;
      SumByBucket(rows, buckets[..n], f, g);
      forall i | 0 <= i < |rows|
        ensures Only(f, buckets)(rows[i]) == Only(f, buckets[..n])(rows[i]) + OnlyAt(f, buckets[n].t)(rows[i])
      {
        BucketStep(buckets, n, rows[i].start);
      }
      SumPlus(rows, Only(f, buckets), Only(f, buckets[..n]), OnlyAt(f, buckets[n].t));
    }
  }

  lemma BucketStep(buckets: seq<Bucket>, n: nat, t: int)
    requires Ascending(buckets) && n == |buckets| - 1
    ensures HasBucket(buckets, t) <==> HasBucket(buckets[..n], t) || buckets[n].t == t
    ensures buckets[n].t == t ==> !HasBucket(buckets[..n], t)
  {
    if HasBucket(buckets[..n], t) {
      var k :| 0 <= k < n && buckets[..n][k].t == t;
      assert buckets[k].t == t;
    }
  }

  lemma FoldKeeps(rows: seq<Row>, buckets: seq<Bucket>, f: Row -> nat, g: Bucket -> nat)
    requires Folded(rows, buckets)
    requires forall k :: 0 <= k < |buckets| ==> g(buckets[k]) == SumOf(rows, OnlyAt(f, buckets[k].t))
    ensures SumOf(buckets, g) == SumOf(rows, f)
  {
    SumByBucket(rows, buckets, f, g);
    SumSame(rows, Only(f, buckets), f);
  }

  /** The buckets of the chart add up to the totals of the summary, direction by direction. */
  lemma ChartAddsUpToSummary(rows: seq<Row>, buckets: seq<Bucket>)
    requires Folded(rows, buckets)
    ensures var totals := TotalsOf(rows, None);
            && SumOf(buckets, Upload()) == totals.upload
            && SumOf(buckets, Download()) == totals.download
            && SumOf(buckets, OptimizedIn()) == if totals.optimized.Some? then totals.optimized.value else 0
  {
    forall k | 0 <= k < |buckets|
      ensures Upload()(buckets[k]) == SumOf(rows, OnlyAt(Uploaded(None), buckets[k].t))
      ensures Download()(buckets[k]) == SumOf(rows, OnlyAt(Downloaded(None), buckets[k].t))
      ensures OptimizedIn()(buckets[k]) == SumOf(rows, OnlyAt(Optimized(None), buckets[k].t))
    {
      var t := buckets[k].t;
      SumSame(rows, Uploaded(Some(t)), OnlyAt(Uploaded(None), t));
      SumSame(rows, Downloaded(Some(t)), OnlyAt(Downloaded(None), t));
      SumSame(rows, Optimized(Some(t)), OnlyAt(Optimized(None), t));
      if SumOf(rows, Measured(Some(t))) == 0 {
        UnmeasuredIsZero(rows, Some(t));
      }
    }
    FoldKeeps(rows, buckets, Uploaded(None), Upload());
    FoldKeeps(rows, buckets, Downloaded(None), Download());
    FoldKeeps(rows, buckets, Optimized(None), OptimizedIn());
    if SumOf(rows, Measured(None)) == 0 {
      UnmeasuredIsZero(rows, None);
    }
  }

  // -------------------------------------------------------------------- summary

  /** How long a bucket lasts, in milliseconds: to the next one, or as long as the one before. */
  function Width(buckets: seq<Bucket>, range: Range, k: nat): (ms: int)
    requires k < |buckets|
    ensures ms >= 1000
    ensures k + 1 < |buckets| && buckets[k + 1].t - buckets[k].t >= 1000 ==> ms == buckets[k + 1].t - buckets[k].t
    ensures k + 1 == |buckets| && k > 0 && buckets[k].t - buckets[k - 1].t >= 1000 ==>
              ms == buckets[k].t - buckets[k - 1].t
    ensures |buckets| == 1 && range.start <= buckets[0].t <= range.end - 1000 ==> ms == range.end - buckets[0].t
    ensures |buckets| == 1 && buckets[0].t < range.start <= range.end - 1000 ==> ms == range.end - range.start
  {
    if k + 1 < |buckets| then Max(1000, buckets[k + 1].t - buckets[k].t)
    else if k > 0 then Max(1000, buckets[k].t - buckets[k - 1].t)
    else Max(1000, range.end - Max(range.start, buckets[k].t))
  }

  function RangeWidth(range: Range): (ms: int)
    ensures ms >= 1000 && (range.end - range.start >= 1000 ==> ms == range.end - range.start)
    ensures range.end - range.start < 1000 ==> ms == 1000
  {
    Max(1000, range.end - range.start)
  }

  /** Bytes a second. */
  function Rate(bytes: nat, ms: int): real
    requires ms > 0
  {
    bytes as real / (ms as real / 1000.0)
  }

  function BucketRate(buckets: seq<Bucket>, range: Range, k: nat): real
    requires k < |buckets|
  {
    Rate(buckets[k].totals.upload + buckets[k].totals.download, Width(buckets, range, k))
  }

  /** A saving is measured, or there is not enough to tell. */
  datatype SavingsKind = MEASURED | INSUFFICIENT_DATA

  /** `Math.round(saved / total * 1000) / 10`; none of nothing. */
  function SavingPercent(saved: int, total: nat): (r: Option<real>)
    ensures r.None? <==> total == 0
    ensures r.Some? ==> var exact := saved as real / total as real * 100.0; exact - 0.05 < r.value <= exact + 0.05
  {
    if total == 0 then None else Some((saved as real / total as real * 1000.0 + 0.5).Floor as real / 10.0)
  }

  datatype Summary = Summary(
    totals: Totals,
    saved: Option<int>,
    savingPercent: Option<real>,
    savingsKind: SavingsKind,
    peak: Option<(real, int)>,
    average: real,
    packets: Option<nat>,
    connections: Option<nat>)

  function Carried(): Row -> nat {
    (row: Row) => if row.packets.Some? then row.packets.value else 0
  }

  /** The packets of the rows that counted any, added up. */
  function Packets(rows: seq<Row>): (r: Option<nat>)
    ensures r.None? <==> forall i :: 0 <= i < |rows| ==> rows[i].packets.None?
    ensures r.Some? ==> r.value == SumOf(rows, Carried())
    ensures r.None? ==> SumOf(rows, Carried()) == 0
  {
    if rows == [] then None
    else
      var before, last := Packets(rows[..|rows| - 1]), rows[|rows| - 1].packets;
      if last.None? then before else Some((if before.Some? then before.value else 0) + last.value)
  }

  /** The most connections any row counted. */
  function Connections(rows: seq<Row>): (r: Option<nat>)
    ensures r.None? <==> forall i :: 0 <= i < |rows| ==> rows[i].connections.None?
    ensures r.Some? ==>
              forall i :: 0 <= i < |rows| && rows[i].connections.Some? ==> rows[i].connections.value <= r.value
    ensures r.Some? ==> exists i :: 0 <= i < |rows| && rows[i].connections == r
  {
    if rows == [] then None
    else
      var before, last := Connections(rows[..|rows| - 1]), rows[|rows| - 1].connections;
      if last.None? then before else Some(Max(if before.Some? then before.value else 0, last.value))
  }

  /** The greatest rate of the first `n` buckets, and where it first occurs. */
  ghost predicate Peak(buckets: seq<Bucket>, range: Range, n: nat, peak: Option<(real, int)>)
    requires n <= |buckets|
  {
    && (peak.None? <==> n == 0)
    && (peak.Some? ==>
          && (forall k :: 0 <= k < n ==> BucketRate(buckets, range, k) <= peak.value.0)
          && exists k :: 0 <= k < n && FirstPeak(buckets, range, k, peak.value))
  }

  predicate FirstPeak(buckets: seq<Bucket>, range: Range, k: nat, peak: (real, int))
    requires k < |buckets|
  {
    && buckets[k].t == peak.1
    && BucketRate(buckets, range, k) == peak.0
    && forall j :: 0 <= j < k ==> BucketRate(buckets, range, j) < peak.0
  }

  method Summarise(rows: seq<Row>, buckets: seq<Bucket>, range: Range, packetsMeasured: bool) returns (s: Summary)
    ensures s.totals == TotalsOf(rows, None)
    ensures Peak(buckets, range, |buckets|, s.peak)
    ensures s.average == Rate(s.totals.upload + s.totals.download, RangeWidth(range))
    ensures s.saved == if s.totals.optimized.None? then None
                       else Some(s.totals.upload + s.totals.download - s.totals.optimized.value)
    ensures s.savingPercent.Some? <==> s.saved.Some? && s.totals.upload + s.totals.download > 0
    ensures s.savingPercent.Some? ==>
              s.savingPercent == SavingPercent(s.saved.value, s.totals.upload + s.totals.download)
    ensures s.savingsKind == MEASURED <==> s.savingPercent.Some?
    ensures s.packets == if packetsMeasured then Packets(rows) else None
    ensures s.connections == Connections(rows)
  {
    var peak: Option<(real, int)> := None;
    for k := 0 to |buckets|
      invariant Peak(buckets, range, k, peak)
    {
      var rate := BucketRate(buckets, range, k);
      if peak.None? || rate > peak.value.0 {
        peak := Some((rate, buckets[k].t));
        assert FirstPeak(buckets, range, k, peak.value);
      }
    }
    var totals := Totals(0, 0, None);
    var packets, connections: Option<nat> := None, None;
    for n := 0 to |rows|
      invariant totals == TotalsOf(rows[..n], None)
      invariant packets == Packets(rows[..n])
      invariant connections == Connections(rows[..n])
    {
      var row := rows[n];
      TotalsStep(rows, n, None);
      assert rows[..n + 1][..n] == rows[..n];
      totals := Added(totals, row);
      if row.packets.Some? {
        packets := Some((if packets.Some? then packets.value else 0) + row.packets.value);
      }
      if row.connections.Some? {
        connections := Some(Max(if connections.Some? then connections.value else 0, row.connections.value));
      }
    }
    assert rows[..|rows|] == rows;
    var total := totals.upload + totals.download;
    var saved := if totals.optimized.None? then None else Some(total - totals.optimized.value);
    var percent := if saved.None? then None else SavingPercent(saved.value, total);
    var kind := if percent.None? then INSUFFICIENT_DATA else MEASURED;
    s := Summary(totals, saved, percent, kind, peak, Rate(total, RangeWidth(range)),
                 if packetsMeasured then packets else None, connections);
  }

  function UnmeasuredBytes(): Row -> nat {
    (row: Row) => if row.optimized.None? then row.bytes else 0
  }

  function MeasuredBytes(): Row -> nat {
    (row: Row) => if row.optimized.Some? then row.bytes else 0
  }

  /**
   * A saving is the measured rows' saving together with every byte of the rows that were not
   * measured: it is the saving that was measured exactly when the other rows carried nothing.
   */
  lemma SavedCountsUnmeasured(rows: seq<Row>)
    requires TotalsOf(rows, None).optimized.Some?
    ensures var totals := TotalsOf(rows, None);
            var saved := totals.upload + totals.download - totals.optimized.value;
            var measured := SumOf(rows, MeasuredBytes()) - totals.optimized.value;
            && saved == measured + SumOf(rows, UnmeasuredBytes())
            && (saved == measured <==> SumOf(rows, UnmeasuredBytes()) == 0)
  {
    BytesSplit(rows);
  }

  lemma {:induction false} BytesSplit(rows: seq<Row>)
    ensures SumOf(rows, Uploaded(None)) + SumOf(rows, Downloaded(None))
            == SumOf(rows, MeasuredBytes()) + SumOf(rows, UnmeasuredBytes())
  {
    if rows != [] {
      BytesSplit(rows[..|rows| - 1]);
    }
  }

  // ---------------------------------------------------------- peak and average

  function TotalWidth(buckets: seq<Bucket>, range: Range, n: nat): (ms: nat)
    requires n <= |buckets|
  {
    if n == 0 then 0 else TotalWidth(buckets, range, n - 1) + Width(buckets, range, n - 1)
  }

  function BytesOf(): Bucket -> nat {
    (bucket: Bucket) => bucket.totals.upload + bucket.totals.download
  }

  lemma RateTimesWidth(bytes: nat, ms: int)
    requires ms > 0
    ensures Rate(bytes, ms) * (ms as real) == bytes as real * 1000.0
  {
    var seconds := ms as real / 1000.0;
    assert Rate(bytes, ms) * seconds == bytes as real;
  }

  lemma Extend(rate: real, peak: real, before: nat, width: nat)
    requires rate <= peak
    ensures peak * before as real + rate * width as real <= peak * (before + width) as real
  {
    var w := width as real;
    assert rate * w <= peak * w;
    assert (before + width) as real == before as real + w;
    assert peak * (before as real + w) == peak * before as real + peak * w;
  }

  lemma {:induction false} BytesWithinPeak(buckets: seq<Bucket>, range: Range, n: nat, peak: real)
    requires n <= |buckets|
    requires forall k :: 0 <= k < n ==> BucketRate(buckets, range, k) <= peak
    ensures SumOf(buckets[..n], BytesOf()) as real * 1000.0 <= peak * TotalWidth(buckets, range, n) as real
  {
    hide Rate, Width;
    if n > 0 {
      BytesWithinPeak(buckets, range, n - 1, peak);
      assert buckets[..n][..n - 1] == buckets[..n - 1];
      var bytes, width := BytesOf()(buckets[n - 1]), Width(buckets, range, n - 1);
      RateTimesWidth(bytes, width);
      Extend(BucketRate(buckets, range, n - 1), peak, TotalWidth(buckets, range, n - 1), width);
      assert SumOf(buckets[..n], BytesOf()) == SumOf(buckets[..n - 1], BytesOf()) + bytes;
    }
  }

  /** The same buckets with each carrying one byte a millisecond. */
  function Even(buckets: seq<Bucket>, range: Range): seq<Bucket> {
    seq(|buckets|, k requires 0 <= k < |buckets| => Bucket(buckets[k].t, Totals(Width(buckets, range, k), 0, None)))
  }

  lemma {:induction false} EvenBytes(buckets: seq<Bucket>, range: Range, n: nat)
    requires n <= |buckets|
    ensures SumOf(Even(buckets, range)[..n], BytesOf()) == TotalWidth(buckets, range, n)
  {
    if n > 0 {
      EvenBytes(buckets, range, n - 1);
      assert Even(buckets, range)[..n][..n - 1] == Even(buckets, range)[..n - 1];
    }
  }

  ghost predicate AverageWithinPeak(buckets: seq<Bucket>, range: Range) {
    forall peak: Option<(real, int)> :: Peak(buckets, range, |buckets|, peak) && peak.Some? ==>
      Rate(SumOf(buckets, BytesOf()), RangeWidth(range)) <= peak.value.0
  }

  ghost predicate SameTimes(a: seq<Bucket>, b: seq<Bucket>) {
    |a| == |b| && forall k :: 0 <= k < |a| ==> a[k].t == b[k].t
  }

  lemma WidthsEnough(buckets: seq<Bucket>, range: Range)
    requires TotalWidth(buckets, range, |buckets|) <= RangeWidth(range)
    ensures AverageWithinPeak(buckets, range)
  {
    hide Rate, BytesOf, SumOf, TotalWidth, RangeWidth, Width, FirstPeak;
    var bytes, width := SumOf(buckets, BytesOf()), RangeWidth(range);
    forall peak: Option<(real, int)> | Peak(buckets, range, |buckets|, peak) && peak.Some?
      ensures Rate(bytes, width) <= peak.value.0
    {
      var p := peak.value.0;
      BytesWithinPeak(buckets, range, |buckets|, p);
      assert buckets[..|buckets|] == buckets;
      RateTimesWidth(bytes, width);
      assert BucketRate(buckets, range, 0) <= p;
      RateNotNegative(buckets[0].totals.upload + buckets[0].totals.download, Width(buckets, range, 0));
      NotLess(p, Rate(bytes, width), TotalWidth(buckets, range, |buckets|), width);
    }
  }

  lemma RateNotNegative(bytes: nat, ms: int)
    requires ms > 0
    ensures Rate(bytes, ms) >= 0.0
  {
  }

  lemma NotLess(p: real, average: real, covered: nat, width: int)
    requires p >= 0.0 && covered <= width && width > 0
    requires average * width as real <= p * covered as real
    ensures average <= p
  {
    var gap := (width - covered) as real;
    assert p * gap >= 0.0;
    assert p * width as real == p * covered as real + p * gap;
    var excess, w := average - p, width as real;
    assert excess * w <= 0.0;
  }

  lemma {:induction false} SameWidths(a: seq<Bucket>, b: seq<Bucket>, range: Range, n: nat)
    requires SameTimes(a, b) && n <= |a|
    ensures TotalWidth(a, range, n) == TotalWidth(b, range, n)
  {
    if n > 0 {
      SameWidths(a, b, range, n - 1);
    }
  }

  /**
   * The peak is at least the average, whatever the buckets carry, exactly when the buckets'
   * widths together do not exceed the range's. A gap in the series breaks it: the bucket
   * before a gap is taken to last until after it, and the last one as long again.
   */
  lemma PeakCoversAverageExactly(buckets: seq<Bucket>, range: Range)
    requires buckets != []
    ensures (forall other :: SameTimes(other, buckets) ==> AverageWithinPeak(other, range))
       <==> TotalWidth(buckets, range, |buckets|) <= RangeWidth(range)
  {
    if TotalWidth(buckets, range, |buckets|) <= RangeWidth(range) {
      forall other | SameTimes(other, buckets) ensures AverageWithinPeak(other, range) {
        SameWidths(other, buckets, range, |buckets|);
        WidthsEnough(other, range);
      }
    } else {
      var even := Even(buckets, range);
      EvenBytes(buckets, range, |buckets|);
      assert even[..|buckets|] == even;
      forall k | 0 <= k < |even| ensures BucketRate(even, range, k) == 1000.0 {
        RateTimesWidth(Width(buckets, range, k), Width(buckets, range, k));
        OneThousand(Width(buckets, range, k));
      }
      assert FirstPeak(even, range, 0, (1000.0, even[0].t));
      assert Peak(even, range, |even|, Some((1000.0, even[0].t)));
      MoreThanThousand(TotalWidth(buckets, range, |buckets|), RangeWidth(range));
      assert !AverageWithinPeak(even, range);
      assert SameTimes(even, buckets);
    }
  }

  lemma OneThousand(ms: nat)
    requires ms > 0
    ensures Rate(ms, ms) == 1000.0
  {
    var seconds := ms as real / 1000.0;
    assert ms as real == 1000.0 * seconds;
  }

  lemma MoreThanThousand(bytes: nat, ms: int)
    requires bytes > ms > 0
    ensures Rate(bytes, ms) > 1000.0
  {
    RateTimesWidth(bytes, ms);
    var excess, w := Rate(bytes, ms) - 1000.0, ms as real;
    assert excess * w > 0.0;
  }
}
