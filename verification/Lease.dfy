/**
 * src/server/automation/service.ts: the lease that keeps replicas from running one job at
 * once, and the cadence the scheduler keeps. Times are in milliseconds.
 */
module Lease {
  import opened Common

  const LEASE_MS := 600_000

  datatype RunStatus = SUCCEEDED | FAILED | SKIPPED

  datatype Job = Job(
    enabled: bool,
    intervalSeconds: nat,
    nextRunAt: int,
    leaseUntil: Option<int>,
    lastRunAt: Option<int>,
    failureCount: nat)

  predicate Held(job: Job, now: int) {
    job.leaseUntil.Some? && job.leaseUntil.value > now
  }

  predicate Due(job: Job, now: int) {
    job.enabled && job.nextRunAt <= now && (job.leaseUntil.None? || job.leaseUntil.value <= now)
  }

  function Claimed(job: Job, now: int): Job {
    job.(leaseUntil := Some(now + LEASE_MS))
  }

  /** The next run is scheduled from the finish, with the interval read when the run began. */
  function Released(job: Job, finishedAt: int, intervalSeconds: nat, status: RunStatus): Job {
    job.(leaseUntil := None,
         lastRunAt := Some(finishedAt),
         failureCount := if status == FAILED then job.failureCount + 1 else 0,
         nextRunAt := finishedAt + intervalSeconds * 1000)
  }

  // ---------------------------------------------------- one process at a time

  /** How a run of a job went: when it started and finished, and what its handler said. */
  datatype Outcome = Outcome(startedAt: int, finishedAt: int, status: RunStatus)

  function Ran(job: Job, outcome: Outcome): Job {
    if Held(job, outcome.startedAt) then job
    else Released(Claimed(job, outcome.startedAt), outcome.finishedAt, job.intervalSeconds, outcome.status)
  }

  class JobTable {
    var rows: seq<Job>

    constructor (rows: seq<Job>)
      ensures this.rows == rows
    {
      this.rows := rows;
    }

    method RunAutomationJob(id: nat, outcome: Outcome) returns (result: Result<RunStatus>)
      modifies this
      ensures result == if id >= |old(rows)| then Failure(NotFound)
                        else if Held(old(rows)[id], outcome.startedAt) then Failure(Conflict)
                        else Success(outcome.status)
      ensures rows == if id >= |old(rows)| then old(rows) else old(rows)[id := Ran(old(rows)[id], outcome)]
    {
      var now := outcome.startedAt;
      if id >= |rows| {
        return Failure(NotFound);
      }
      var job := rows[id];
      if job.leaseUntil.Some? && job.leaseUntil.value > now {
        return Failure(Conflict);
      }
      rows := rows[id := rows[id].(leaseUntil := Some(now + LEASE_MS))];
      var status, finishedAt := outcome.status, outcome.finishedAt;
      rows := rows[id := rows[id].(
        leaseUntil := None,
        lastRunAt := Some(finishedAt),
        failureCount := if status == FAILED then rows[id].failureCount + 1 else 0,
        nextRunAt := finishedAt + job.intervalSeconds * 1000)];
      return Success(status);
    }

    /**
     * One tick: the due jobs are listed once, earliest first, then run one after another,
     * the k-th with the k-th outcome.
     */
    method SchedulerTick(now: int, outcomes: seq<Outcome>) returns (due: nat, ran: nat, failed: nat)
      requires |outcomes| == |rows|
      modifies this
      ensures due == |DueJobs(old(rows), now)| <= |outcomes|
      ensures rows == RanAll(old(rows), DueJobs(old(rows), now), outcomes[..due])
      ensures ran <= due <= ran + failed
      ensures (forall k :: 0 <= k < due ==> outcomes[k].startedAt >= now) ==>
                ran == due && failed == FailedCount(outcomes[..due])
      // What that comes to, row by row.
      ensures |rows| == |old(rows)|
      ensures forall i :: 0 <= i < |rows| && NotToRun(old(rows)[i], now) ==> rows[i] == old(rows)[i]
      ensures (forall k :: 0 <= k < due ==> outcomes[k].startedAt >= now) ==>
                forall i :: 0 <= i < |rows| && !NotToRun(old(rows)[i], now) ==>
                  exists k :: 0 <= k < due && RanOnce(old(rows)[i], rows[i], outcomes[k])
    {
      hide DueJobs, Ran, RanAll, FailedCount, NotToRun, RanOnce;
      var list := DueJobs(rows, now);
      ghost var start := rows;
      due, ran, failed := |list|, 0, 0;
      NoneRan(start);
      for k := 0 to |list|
        invariant |rows| == |start| == |outcomes|
        invariant rows == RanAll(start, list[..k], outcomes[..k])
        invariant ran <= k <= ran + failed
        invariant (forall i :: 0 <= i < k ==> outcomes[i].startedAt >= now) ==>
                    ran == k && failed == FailedCount(outcomes[..k])
      {
        NextRan(start, list, outcomes, k);
        assert list[k] in list;
        var result := RunAutomationJob(list[k], outcomes[k]);
        if result.Success? {
          ran := ran + 1;
          if result.value == FAILED {
            failed := failed + 1;
          }
        } else {
          failed := failed + 1;
        }
      }
      assert list[..|list|] == list;
      RowByRow(start, now, outcomes);
    }
  }

  /** The operator switched the job off, another process holds it, or its time has not come. */
  predicate NotToRun(job: Job, now: int) {
    || !job.enabled
    || (job.leaseUntil.Some? && job.leaseUntil.value > now)
    || job.nextRunAt > now
  }

  /** The job ran: it finished when the outcome says, is free, and is due one interval after that. */
  predicate RanOnce(before: Job, after: Job, outcome: Outcome) {
    && after.enabled == before.enabled && after.intervalSeconds == before.intervalSeconds
    && after.lastRunAt == Some(outcome.finishedAt)
    && after.leaseUntil.None?
    && after.nextRunAt == outcome.finishedAt + before.intervalSeconds * 1000
    && after.failureCount == (if outcome.status == FAILED then before.failureCount + 1 else 0)
  }

  lemma {:induction false} RanEach(rows: seq<Job>, ids: seq<nat>, outcomes: seq<Outcome>, k: nat)
    requires k < |ids| == |outcomes| && Distinct(ids) && forall i :: 0 <= i < |ids| ==> ids[i] < |rows|
    ensures RanAll(rows, ids, outcomes)[ids[k]] == Ran(rows[ids[k]], outcomes[k])
  {
    hide Ran;
    var last := |ids| - 1;
    if k == last {
      assert ids[k] !in ids[..last];
    } else {
      RanEach(rows, ids[..last], outcomes[..last], k);
    }
  }

  lemma RowByRow(rows: seq<Job>, now: int, outcomes: seq<Outcome>)
    requires |outcomes| == |rows|
    ensures var ids := DueJobs(rows, now);
            var after := RanAll(rows, ids, outcomes[..|ids|]);
            && (forall i :: 0 <= i < |rows| && NotToRun(rows[i], now) ==> after[i] == rows[i])
            && ((forall k :: 0 <= k < |ids| ==> outcomes[k].startedAt >= now) ==>
                  forall i :: 0 <= i < |rows| && !NotToRun(rows[i], now) ==>
                    exists k :: 0 <= k < |ids| && RanOnce(rows[i], after[i], outcomes[k]))
  {
    hide DueJobs, RanAll;
    var ids := DueJobs(rows, now);
    var after := RanAll(rows, ids, outcomes[..|ids|]);
    if forall k :: 0 <= k < |ids| ==> outcomes[k].startedAt >= now {
      forall i | 0 <= i < |rows| && !NotToRun(rows[i], now)
        ensures exists k :: 0 <= k < |ids| && RanOnce(rows[i], after[i], outcomes[k])
      {
        assert i in ids;
        var k :| 0 <= k < |ids| && ids[k] == i;
        RanEach(rows, ids, outcomes[..|ids|], k);
        assert RanOnce(rows[i], after[i], outcomes[k]);
      }
    }
  }

  lemma NoneRan(rows: seq<Job>)
    ensures RanAll(rows, [], []) == rows && FailedCount([]) == 0
  {
  }

  lemma NextRan(rows: seq<Job>, ids: seq<nat>, outcomes: seq<Outcome>, k: nat)
    requires k < |ids| <= |outcomes| && Distinct(ids) && forall i :: 0 <= i < |ids| ==> ids[i] < |rows|
    ensures var before := RanAll(rows, ids[..k], outcomes[..k]);
            && before[ids[k]] == rows[ids[k]]
            && RanAll(rows, ids[..k + 1], outcomes[..k + 1]) == before[ids[k] := Ran(before[ids[k]], outcomes[k])]
    ensures FailedCount(outcomes[..k + 1]) == FailedCount(outcomes[..k]) + if outcomes[k].status == FAILED then 1 else 0
  {
    hide Ran;
    assert ids[..k + 1][..k] == ids[..k] && outcomes[..k + 1][..k] == outcomes[..k];
    assert ids[k] !in ids[..k];
  }

  function FailedCount(outcomes: seq<Outcome>): nat {
    if outcomes == [] then 0
    else FailedCount(outcomes[..|outcomes| - 1]) + if outcomes[|outcomes| - 1].status == FAILED then 1 else 0
  }

  function RanAll(rows: seq<Job>, ids: seq<nat>, outcomes: seq<Outcome>): (after: seq<Job>)
    requires |ids| == |outcomes| && forall k :: 0 <= k < |ids| ==> ids[k] < |rows|
    ensures |after| == |rows|
    ensures forall i :: 0 <= i < |rows| && i !in ids ==> after[i] == rows[i]
  {
    if ids == [] then rows
    else
      var last := |ids| - 1;
      var before := RanAll(rows, ids[..last], outcomes[..last]);
      before[ids[last] := Ran(before[ids[last]], outcomes[last])]
  }

  predicate Distinct(ids: seq<nat>) {
    forall j, k :: 0 <= j < k < |ids| ==> ids[j] != ids[k]
  }

  /** Inserts a job before the first one that is to run later. */
  function Queued(rows: seq<Job>, queue: seq<nat>, id: nat): (q: seq<nat>)
    requires id < |rows| && forall k :: 0 <= k < |queue| ==> queue[k] < |rows|
    ensures |q| == |queue| + 1 && forall i :: i in q <==> i == id || i in queue
    ensures Distinct(queue) && id !in queue ==> Distinct(q)
  {
    if queue == [] || rows[id].nextRunAt < rows[queue[0]].nextRunAt then [id] + queue
    else
      assert queue == [queue[0]] + queue[1..];
      var rest := Queued(rows, queue[1..], id);
      assert Distinct(queue) ==> Distinct(queue[1..]) && queue[0] !in queue[1..];
      assert forall k :: 0 <= k < |rest| ==> rest[k] in rest;
      [queue[0]] + rest
  }

  function DueAmong(rows: seq<Job>, n: nat, now: int): (ids: seq<nat>)
    requires n <= |rows|
    ensures |ids| <= n && Distinct(ids)
    ensures forall i :: i in ids <==> 0 <= i < n && Due(rows[i], now)
  {
    if n == 0 then []
    else
      var before := DueAmong(rows, n - 1, now);
      assert forall k :: 0 <= k < |before| ==> before[k] in before;
      if Due(rows[n - 1], now) then Queued(rows, before, n - 1) else before
  }

  /** findMany on the due condition, by nextRunAt ascending: every due job once, and no other. */
  function DueJobs(rows: seq<Job>, now: int): (ids: seq<nat>)
    ensures |ids| <= |rows| && Distinct(ids)
    ensures forall i :: i in ids <==> 0 <= i < |rows| && Due(rows[i], now)
    ensures forall i :: 0 <= i < |rows| ==>
              (i in ids <==>
                 && rows[i].enabled && rows[i].nextRunAt <= now
                 && (rows[i].leaseUntil.Some? ==> rows[i].leaseUntil.value <= now))
    ensures forall k :: 0 <= k < |ids| ==> ids[k] < |rows|
  {
    var ids := DueAmong(rows, |rows|, now);
    assert forall k :: 0 <= k < |ids| ==> ids[k] in ids;
    ids
  }

  predicate EarliestFirst(rows: seq<Job>, ids: seq<nat>) {
    && (forall k :: 0 <= k < |ids| ==> ids[k] < |rows|)
    && forall i, j :: 0 <= i < j < |ids| ==> rows[ids[i]].nextRunAt <= rows[ids[j]].nextRunAt
  }

  lemma {:induction false} QueuedSorted(rows: seq<Job>, queue: seq<nat>, id: nat)
    requires id < |rows| && EarliestFirst(rows, queue)
    ensures EarliestFirst(rows, Queued(rows, queue, id))
  {
    hide Distinct;
    if queue != [] && rows[queue[0]].nextRunAt <= rows[id].nextRunAt {
      QueuedSorted(rows, queue[1..], id);
      var rest := Queued(rows, queue[1..], id);
      forall k | 0 <= k < |rest|
        ensures rows[queue[0]].nextRunAt <= rows[rest[k]].nextRunAt
      {
        assert rest[k] in rest;
      }
    }
  }

  lemma NoneQueued(rows: seq<Job>)
    ensures EarliestFirst(rows, [])
  {
  }

  lemma {:induction false} DueSorted(rows: seq<Job>, n: nat, now: int)
    requires n <= |rows|
    ensures EarliestFirst(rows, DueAmong(rows, n, now))
  {
    hide EarliestFirst, Queued, Due;
    if n == 0 {
      assert EarliestFirst(rows, []) by { NoneQueued(rows); }
    } else {
      DueSorted(rows, n - 1, now);
      if Due(rows[n - 1], now) {
        var before := DueAmong(rows, n - 1, now);
        assert forall k :: 0 <= k < |before| ==> before[k] in before;
        QueuedSorted(rows, before, n - 1);
      }
    }
  }
}
