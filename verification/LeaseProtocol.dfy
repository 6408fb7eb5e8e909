/**
 * The lease of one automation job between replicas that may crash, under one clock: who may
 * run the job at the same time, for how long a crash holds it up, and how far apart
 * scheduled starts are (src/server/automation/service.ts:212-271, 337-356).
 */
module LeaseProtocol {
  import opened Common
  import opened Lease

  type Replica = nat

  /**
   * Where a replica is with the job. `Listed` comes from the scheduler's due list, `Read`
   * lies between the lease check and the lease write, which are two statements; the run uses
   * the clock and the interval that the check has read.
   */
  datatype Phase =
    | Idle
    | Listed(at: int, nextRunAt: int)
    | Read(at: int, intervalSeconds: nat)
    | Running(since: int, intervalSeconds: nat)

  datatype State = State(clock: int, job: Job, phases: map<Replica, Phase>)

  function PhaseOf(s: State, r: Replica): Phase {
    if r in s.phases then s.phases[r] else Idle
  }

  datatype Step =
    | Wait(ms: nat)
    | List(r: Replica)
    | StartScheduled(r: Replica)
    | StartManual(r: Replica)
    | CheckLease(r: Replica)
    | WriteLease(r: Replica)
    | Finish(r: Replica, status: RunStatus)
    | Crash(r: Replica)
    | Edit(intervalSeconds: nat)
    | Enable(enabled: bool)

  function Moved(s: State, r: Replica, phase: Phase): State {
    s.(phases := s.phases[r := phase])
  }

  /**
   * Check and claim in one step, as when nothing comes between the two statements; a held lease
   * is a conflict. With steps between them a start is a CheckLease and a WriteLease.
   */
  function Started(s: State, r: Replica): State {
    if Held(s.job, s.clock) then Moved(s, r, Idle)
    else Moved(s.(job := Claimed(s.job, s.clock)), r, Running(s.clock, s.job.intervalSeconds))
  }

  /** A step that its replica is not ready for changes nothing. */
  function Next(s: State, step: Step): State {
    match step
    case Wait(ms) => s.(clock := s.clock + ms)
    case List(r) =>
      if PhaseOf(s, r).Idle? && Due(s.job, s.clock) then Moved(s, r, Listed(s.clock, s.job.nextRunAt)) else s
    case StartScheduled(r) => if PhaseOf(s, r).Listed? then Started(s, r) else s
    case StartManual(r) => if PhaseOf(s, r).Idle? then Started(s, r) else s
    case CheckLease(r) =>
      if !PhaseOf(s, r).Idle? && !PhaseOf(s, r).Listed? then s
      else Moved(s, r, if Held(s.job, s.clock) then Idle else Read(s.clock, s.job.intervalSeconds))
    case WriteLease(r) =>
      var p := PhaseOf(s, r);
      if p.Read? then Moved(s.(job := Claimed(s.job, p.at)), r, Running(p.at, p.intervalSeconds)) else s
    case Finish(r, status) =>
      var p := PhaseOf(s, r);
      if p.Running? then Moved(s.(job := Released(s.job, s.clock, p.intervalSeconds, status)), r, Idle) else s
    case Crash(r) => Moved(s, r, Idle)
    case Edit(intervalSeconds) =>
      s.(job := s.job.(intervalSeconds := intervalSeconds, nextRunAt := s.clock + intervalSeconds * 1000))
    case Enable(enabled) => s.(job := s.job.(enabled := enabled))
  }

  function Run(s: State, steps: seq<Step>): State {
    if steps == [] then s else Next(Run(s, steps[..|steps| - 1]), steps[|steps| - 1])
  }

  /** A job as it is created: never run, no lease, first due one interval later. */
  ghost predicate Initial(s: State) {
    && s.phases == map[]
    && s.job.leaseUntil.None? && s.job.lastRunAt.None?
    && s.job.nextRunAt == s.clock + s.job.intervalSeconds * 1000
  }

  predicate Live(s: State, r: Replica) {
    PhaseOf(s, r).Running?
  }

  /** Some run has lasted as long as its lease. */
  ghost predicate Overran(s: State) {
    exists r :: Live(s, r) && s.clock >= PhaseOf(s, r).since + LEASE_MS
  }

  /** No state of the run holds an overrun. */
  ghost predicate Timely(s: State, steps: seq<Step>) {
    forall k :: 0 <= k <= |steps| ==> !Overran(Run(s, steps[..k]))
  }

  // -------------------------------------------------------- mutual exclusion

  ghost predicate AtMostOne(s: State) {
    forall r, q :: Live(s, r) && Live(s, q) ==> r == q
  }

  /** No moment of the run has two replicas running the job. */
  ghost predicate Excludes(s: State, steps: seq<Step>) {
    forall k :: 0 <= k <= |steps| ==> AtMostOne(Run(s, steps[..k]))
  }

  /** A claim is written although, since its check, another replica has come to run the job. */
  ghost predicate LateWrite(s: State, step: Step) {
    step.WriteLease? && PhaseOf(s, step.r).Read? && exists q :: Live(s, q)
  }

  ghost predicate NoLateWrite(s: State, steps: seq<Step>) {
    forall k :: 0 <= k < |steps| ==> !LateWrite(Run(s, steps[..k]), steps[k])
  }

  /** At most one replica runs the job, and the lease is its own. */
  ghost predicate Owned(s: State) {
    AtMostOne(s) && forall r :: Live(s, r) ==> s.job.leaseUntil == Some(PhaseOf(s, r).since + LEASE_MS)
  }

  /** While no lease has run out, only a late write ends exclusion; all other steps keep it. */
  lemma OwnedStep(s: State, step: Step)
    requires Owned(s) && !Overran(s)
    ensures LateWrite(s, step) ==> !AtMostOne(Next(s, step))
    ensures !LateWrite(s, step) ==> Owned(Next(s, step))
  {
    var t := Next(s, step);
    if step.Wait? || step.Edit? || step.Enable? {
      assert forall q :: PhaseOf(t, q) == PhaseOf(s, q) && Live(t, q) == Live(s, q);
    } else {
      var r := step.r;
      assert forall q :: q != r ==> PhaseOf(t, q) == PhaseOf(s, q) && Live(t, q) == Live(s, q);
      if LateWrite(s, step) {
        var q :| Live(s, q);
        assert Live(t, q) && Live(t, r) && q != r;
      } else if q :| q != r && Live(t, q) {
        assert Live(s, q) && Held(s.job, s.clock);
        assert !Live(s, r);
      }
    }
  }

  /** So without a late write the lease is the runner's own throughout. */
  lemma {:induction false} OwnedRun(s: State, steps: seq<Step>)
    requires Initial(s) && Timely(s, steps) && NoLateWrite(s, steps)
    ensures Owned(Run(s, steps))
  {
    if steps != [] {
      var before := steps[..|steps| - 1];
      assert forall k :: 0 <= k <= |before| ==> before[..k] == steps[..k];
      OwnedRun(s, before);
      assert !Overran(Run(s, steps[..|before|])) && !LateWrite(Run(s, steps[..|before|]), steps[|before|]);
      OwnedStep(Run(s, before), steps[|steps| - 1]);
    }
  }

  lemma PrefixKeeps(s: State, steps: seq<Step>, n: nat)
    requires n <= |steps|
    ensures Timely(s, steps) ==> Timely(s, steps[..n])
    ensures NoLateWrite(s, steps) ==> NoLateWrite(s, steps[..n])
    ensures forall k :: 0 <= k <= n ==> steps[..n][..k] == steps[..k]
  {
    assert forall k :: 0 <= k <= n ==> steps[..n][..k] == steps[..k];
    assert forall k :: 0 <= k < n ==> steps[..n][k] == steps[k];
  }

  /** A run with a late write has a first one, up to which there is none. */
  lemma {:induction false} FirstLateWrite(s: State, steps: seq<Step>) returns (k: nat)
    requires !NoLateWrite(s, steps)
    ensures k < |steps| && LateWrite(Run(s, steps[..k]), steps[k]) && NoLateWrite(s, steps[..k])
  {
    hide Run, LateWrite, Timely;
    var before := steps[..|steps| - 1];
    PrefixKeeps(s, steps, |before|);
    if NoLateWrite(s, before) {
      k := |before|;
      assert forall i :: 0 <= i < |before| ==> !LateWrite(Run(s, before[..i]), before[i]);
    } else {
      k := FirstLateWrite(s, before);
      PrefixKeeps(s, steps, k);
      assert before[..k] == steps[..k] && before[k] == steps[k];
    }
  }

  /**
   * Mutual exclusion, exactly. Over every run of any number of replicas, with crashes and with
   * the check and the write of the lease apart: while no run outlives its lease, there are
   * never two replicas running the job exactly if no claim is written while one is running it.
   */
  lemma ExclusiveExactly(s: State, steps: seq<Step>)
    requires Initial(s) && Timely(s, steps)
    ensures Excludes(s, steps) <==> NoLateWrite(s, steps)
  {
    hide Run, LateWrite, Owned, Initial, Overran, AtMostOne;
    if NoLateWrite(s, steps) {
      forall k | 0 <= k <= |steps|
        ensures AtMostOne(Run(s, steps[..k]))
      {
        PrefixKeeps(s, steps, k);
        OwnedRun(s, steps[..k]);
        assert AtMostOne(Run(s, steps[..k])) by { OwnedMeans(Run(s, steps[..k])); }
      }
    } else {
      var k := FirstLateWrite(s, steps);
      PrefixKeeps(s, steps, k);
      OwnedRun(s, steps[..k]);
      assert !Overran(Run(s, steps[..k]));
      OwnedStep(Run(s, steps[..k]), steps[k]);
      RunFurther(s, steps, k);
      assert !AtMostOne(Run(s, steps[..k + 1]));
    }
  }

  lemma OwnedMeans(s: State)
    requires Owned(s)
    ensures AtMostOne(s)
  {
  }

  lemma RunFurther(s: State, steps: seq<Step>, k: nat)
    requires k < |steps|
    ensures Run(s, steps[..k + 1]) == Next(Run(s, steps[..k]), steps[k])
  {
    assert steps[..k + 1][..k] == steps[..k];
  }

  /** Checking the lease once more in the statement that writes it would refuse every late write. */
  lemma LateWriteIsHeld(s: State, steps: seq<Step>, step: Step)
    requires Initial(s) && Timely(s, steps) && NoLateWrite(s, steps) && LateWrite(Run(s, steps), step)
    ensures Held(Run(s, steps).job, Run(s, steps).clock)
  {
    OwnedRun(s, steps);
    var t := Run(s, steps);
    var q :| Live(t, q);
    assert !Overran(t) by {
      assert steps[..|steps|] == steps;
    }
  }

  /** The lease is checked and written in one step. */
  predicate Atomic(steps: seq<Step>) {
    forall k :: 0 <= k < |steps| ==> !steps[k].CheckLease? && !steps[k].WriteLease?
  }

  /** So where every claim is one step, no two replicas ever run the job at once. */
  lemma MutualExclusion(s: State, steps: seq<Step>)
    requires Initial(s) && Atomic(steps) && Timely(s, steps)
    ensures Excludes(s, steps) && Owned(Run(s, steps))
  {
    ExclusiveExactly(s, steps);
    OwnedRun(s, steps);
  }

  /**
   * Once a run has lasted as long as its lease, and only then, any idle replica may start the
   * job beside it.
   */
  lemma OverrunAdmitsSecond(s: State, r: Replica, q: Replica)
    requires Owned(s) && Live(s, r) && PhaseOf(s, q).Idle?
    ensures Live(Next(s, StartManual(q)), r) && Live(Next(s, StartManual(q)), q) <==>
              s.clock >= PhaseOf(s, r).since + 600_000
  {
  }

  /** Two replicas that both pass the check before either writes both run the job. */
  lemma SplitClaimAdmitsTwo(s: State)
    requires Initial(s)
    ensures var claims := [CheckLease(0), CheckLease(1), WriteLease(0)];
            var t := Next(Run(s, claims), WriteLease(1));
            LateWrite(Run(s, claims), WriteLease(1)) && Live(t, 0) && Live(t, 1) && !Overran(t)
  {
    var claims := [CheckLease(0), CheckLease(1), WriteLease(0)];
    assert claims[..2] == [CheckLease(0), CheckLease(1)];
    assert claims[..2][..1] == [CheckLease(0)];
    assert claims[..2][..1][..0] == [];
    var a := Next(s, CheckLease(0));
    var b := Next(a, CheckLease(1));
    var c := Next(b, WriteLease(0));
    assert Run(s, claims[..2][..1]) == a;
    assert Run(s, claims[..2]) == b;
    assert Run(s, claims) == c;
    assert Live(c, 0);
  }

  // ----------------------------------------------------------------- recovery

  /** No lease reaches further than its length from now, and nothing lies in the future. */
  ghost predicate Bounded(s: State) {
    && (s.job.leaseUntil.Some? ==> s.job.leaseUntil.value <= s.clock + LEASE_MS)
    && forall r :: PhaseOf(s, r).Read? ==> PhaseOf(s, r).at <= s.clock
  }

  lemma BoundedStep(s: State, step: Step)
    requires Bounded(s)
    ensures Bounded(Next(s, step)) && s.clock <= Next(s, step).clock
  {
    var t := Next(s, step);
    if step.Wait? || step.Edit? || step.Enable? {
      assert forall q :: PhaseOf(t, q) == PhaseOf(s, q);
    } else {
      assert forall q :: q != step.r ==> PhaseOf(t, q) == PhaseOf(s, q);
    }
  }

  lemma {:induction false} BoundedRun(s: State, steps: seq<Step>)
    requires Bounded(s)
    ensures Bounded(Run(s, steps)) && s.clock <= Run(s, steps).clock
  {
    if steps != [] {
      BoundedRun(s, steps[..|steps| - 1]);
      BoundedStep(Run(s, steps[..|steps| - 1]), steps[|steps| - 1]);
    }
  }

  predicate NoStarts(steps: seq<Step>) {
    forall k :: 0 <= k < |steps| ==> !steps[k].StartScheduled? && !steps[k].StartManual? && !steps[k].WriteLease?
  }

  lemma {:induction false} LeaseNotRenewed(s: State, steps: seq<Step>)
    requires NoStarts(steps)
    ensures var t := Run(s, steps); t.job.leaseUntil.None? || t.job.leaseUntil == s.job.leaseUntil
  {
    if steps != [] {
      LeaseNotRenewed(s, steps[..|steps| - 1]);
    }
  }

  /**
   * A crash cannot wedge a job: from any reachable state, once the lease's length has gone by
   * without a new start, the job is free, and the next replica to ask runs it.
   */
  lemma CrashedHolderFreesJob(start: State, steps: seq<Step>, r: Replica, more: seq<Step>, q: Replica)
    requires Initial(start) && NoStarts(more)
    requires var crashed := Next(Run(start, steps), Crash(r));
             Run(crashed, more).clock >= crashed.clock + 600_000 && PhaseOf(Run(crashed, more), q).Idle?
    ensures var t := Run(Next(Run(start, steps), Crash(r)), more);
            !Held(t.job, t.clock) && Live(Next(t, StartManual(q)), q)
  {
    BoundedRun(start, steps);
    BoundedStep(Run(start, steps), Crash(r));
    LeaseNotRenewed(Next(Run(start, steps), Crash(r)), more);
  }

  // ------------------------------------------------------------------ cadence

  /** Once a job has run, it is next due one interval after its last finish. */
  ghost predicate OnCadence(s: State) {
    && (s.job.lastRunAt.Some? ==> s.job.nextRunAt == s.job.lastRunAt.value + s.job.intervalSeconds * 1000)
    && (forall r :: Live(s, r) || PhaseOf(s, r).Read? ==> PhaseOf(s, r).intervalSeconds == s.job.intervalSeconds)
    && forall r :: PhaseOf(s, r).Listed? ==> PhaseOf(s, r).nextRunAt <= PhaseOf(s, r).at <= s.clock
  }

  predicate NoEdits(steps: seq<Step>) {
    forall k :: 0 <= k < |steps| ==> !steps[k].Edit?
  }

  lemma CadenceStep(s: State, step: Step)
    requires OnCadence(s) && !step.Edit?
    ensures OnCadence(Next(s, step))
  {
    var t := Next(s, step);
    if step.Wait? || step.Enable? {
      assert forall q :: PhaseOf(t, q) == PhaseOf(s, q);
    } else {
      assert forall q :: q != step.r ==> PhaseOf(t, q) == PhaseOf(s, q);
    }
  }

  lemma {:induction false} CadenceRun(s: State, steps: seq<Step>)
    requires Initial(s) && NoEdits(steps)
    ensures OnCadence(Run(s, steps))
  {
    if steps != [] {
      CadenceRun(s, steps[..|steps| - 1]);
      CadenceStep(Run(s, steps[..|steps| - 1]), steps[|steps| - 1]);
    }
  }

  /**
   * The scheduler's list: a step puts the job on a replica's list exactly when that replica,
   * not busy with the job, asks for it while it is switched on, has come due and nobody holds
   * its lease. A job that is switched off is never listed.
   */
  lemma ListedExactly(s: State, step: Step, r: Replica)
    requires !PhaseOf(s, r).Listed?
    ensures PhaseOf(Next(s, step), r).Listed? <==>
              && step == List(r) && PhaseOf(s, r).Idle?
              && s.job.enabled && s.job.nextRunAt <= s.clock
              && (s.job.leaseUntil.Some? ==> s.job.leaseUntil.value <= s.clock)
    ensures PhaseOf(Next(s, step), r).Listed? ==> PhaseOf(Next(s, step), r) == Listed(s.clock, s.job.nextRunAt)
  {
  }

  /** So over every run in which the job stays switched off, no replica comes to list it. */
  lemma {:induction false} DisabledNotListed(s: State, steps: seq<Step>, r: Replica)
    requires !s.job.enabled && !PhaseOf(s, r).Listed?
    requires forall k :: 0 <= k < |steps| ==> steps[k] != Enable(true)
    ensures !Run(s, steps).job.enabled && !PhaseOf(Run(s, steps), r).Listed?
  {
    if steps != [] {
      var before := steps[..|steps| - 1];
      DisabledNotListed(s, before, r);
      ListedExactly(Run(s, before), steps[|steps| - 1], r);
    }
  }

  /**
   * A scheduled start is meant to come at least one interval after the previous finish. While
   * the interval is not edited it does so exactly when the row is due at the start itself.
   * The scheduler looks at that only when it lists the due jobs, so it is certain when the
   * row's due time has not moved since the listing.
   */
  lemma ScheduledStartsSpaced(start: State, steps: seq<Step>, r: Replica)
    requires Initial(start) && NoEdits(steps)
    requires var s := Run(start, steps); PhaseOf(s, r).Listed? && !Held(s.job, s.clock) && s.job.lastRunAt.Some?
    ensures var s := Run(start, steps);
            && Live(Next(s, StartScheduled(r)), r)
            && PhaseOf(Next(s, CheckLease(r)), r) == Read(s.clock, s.job.intervalSeconds)
            && (s.clock >= s.job.lastRunAt.value + s.job.intervalSeconds * 1000 <==> s.job.nextRunAt <= s.clock)
            && (s.job.nextRunAt == PhaseOf(s, r).nextRunAt ==> s.job.nextRunAt <= s.clock)
  {
    CadenceRun(start, steps);
  }

  /**
   * When it has moved, the start may follow the previous finish at once: replicas 0 and 1 list
   * the same due job, 0 runs it, and 1 then runs it again without any wait.
   */
  lemma StaleListStartsEarly(s: State)
    requires Initial(s) && s.job.enabled && s.job.intervalSeconds > 0
    ensures var steps :=
              [Wait(s.job.intervalSeconds * 1000), List(0), List(1), StartScheduled(0), Finish(0, SUCCEEDED)];
            var t := Run(s, steps);
            && Atomic(steps) && t.job.lastRunAt == Some(t.clock)
            && Live(Next(t, StartScheduled(1)), 1) && t.clock < t.job.nextRunAt
  {
    var w := Wait(s.job.intervalSeconds * 1000);
    var steps := [w, List(0), List(1), StartScheduled(0), Finish(0, SUCCEEDED)];
    var a := Next(s, w);
    var b := Next(a, List(0));
    var c := Next(b, List(1));
    var d := Next(c, StartScheduled(0));
    assert steps[..4] == [w, List(0), List(1), StartScheduled(0)];
    assert steps[..4][..3] == [w, List(0), List(1)];
    assert steps[..4][..3][..2] == [w, List(0)];
    assert steps[..4][..3][..2][..1] == [w];
    assert steps[..4][..3][..2][..1][..0] == [];
    assert Run(s, [w]) == a;
    assert Run(s, steps[..4][..3][..2]) == b;
    assert Run(s, steps[..4][..3]) == c;
    assert Run(s, steps[..4]) == d;
    assert Run(s, steps) == Next(d, Finish(0, SUCCEEDED));
  }
}
