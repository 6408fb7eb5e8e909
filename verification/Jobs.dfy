/** src/server/automation/jobs.ts: the periodic quota reset. */
module Jobs {
  import opened Common
  import opened Store
  import opened QuotaEngine

  const RESET_REASON := "Quota period reset (automatic)"

  predicate Due(quota: Quota, now: int) {
    quota.automatic && quota.enabled && quota.resetAt.Some? && quota.resetAt.value <= now
  }

  function ResetFirst(s: State, n: nat, now: int): (t: State)
    requires n <= |s.quotas|
    ensures |t.quotas| == |s.quotas| && |t.devices| == |s.devices|
    ensures forall q :: n <= q < |s.quotas| ==> t.quotas[q] == s.quotas[q]
  {
    if n == 0 then s
    else
      var before := ResetFirst(s, n - 1, now);
      if Due(s.quotas[n - 1], now) then QuotaWasReset(before, n - 1, RESET_REASON) else before
  }

  /** Every quota that is due, reset one after another. */
  function PeriodReset(s: State, now: int): State {
    ResetFirst(s, |s.quotas|, now)
  }

  function DueCount(quotas: seq<Quota>, now: int): nat {
    if quotas == [] then 0
    else DueCount(quotas[..|quotas| - 1], now) + if Due(quotas[|quotas| - 1], now) then 1 else 0
  }

  method QuotaPeriodReset(db: Database, now: int) returns (affected: nat)
    requires forall q :: 0 <= q < |db.quotas| && db.quotas[q].device.Some? ==> db.quotas[q].device.value < |db.devices|
    modifies db
    ensures db.Contents() == PeriodReset(old(db.Contents()), now)
    ensures affected == DueCount(old(db.quotas), now)
  {
    var rows := db.quotas;
    affected := 0;
    for i := 0 to |rows|
      invariant |db.quotas| == |rows| && |db.devices| == |old(db.devices)|
      invariant db.Contents() == ResetFirst(old(db.Contents()), i, now)
      invariant affected == DueCount(rows[..i], now)
    {
      assert rows[..i + 1][..i] == rows[..i];
      if Due(rows[i], now) {
        ResetRow(db, i, RESET_REASON);
        affected := affected + 1;
      }
    }
    assert rows[..|rows|] == rows;
  }

  /** What the job leaves of each quota: a due one is cleared, the others are as they were. */
  lemma {:induction false} ResetFirstQuotas(s: State, n: nat, now: int)
    requires n <= |s.quotas|
    ensures var t := ResetFirst(s, n, now);
            forall q :: 0 <= q < n ==>
              t.quotas[q] == if Due(s.quotas[q], now) then Cleared(s.quotas[q]) else s.quotas[q]
  {
    if n > 0 {
      ResetFirstQuotas(s, n - 1, now);
    }
  }

  /**
   * The job does not move `resetAt` on: a quota that has come due stays due, so every later
   * run of the job resets it again, whatever was used in between.
   */
  lemma DueStaysDue(s: State, quota: QuotaId, now: int, later: int)
    requires quota < |s.quotas| && now <= later && Due(s.quotas[quota], now)
    ensures var t := PeriodReset(s, now);
            t.quotas[quota] == Cleared(s.quotas[quota]) && Due(t.quotas[quota], later)
  {
    ResetFirstQuotas(s, |s.quotas|, now);
  }

  /** The automatic quota an approval creates has no reset date, so the job never resets it. */
  lemma DefaultQuotaNeverDue(limit: nat, device: DeviceId, now: int)
    ensures !Due(Quota(DEVICE(device), limit, 0, true, true, None, None, None, None, Some(device)), now)
  {
  }
}
