/**
 * src/server/billing/service.ts and the arithmetic of src/server/receipts/service.ts: what
 * traffic costs, what was saved, the receipt's subtotal, and the projection of a period.
 * Money and gigabytes are exact reals, rounded only where the code rounds.
 */
module Cost {
  import opened Common
  import Time

  const BYTES_PER_GB := 1_073_741_824

  /** To the nearest integer, halves up. */
  function Nearest(x: real): (n: int)
    ensures x - 0.5 < n as real <= x + 0.5
  {
    (x + 0.5).Floor
  }

  /** Two decimal places, halves up. */
  function ToCents(x: real): (r: real)
    ensures x - 0.005 < r <= x + 0.005
  {
    Nearest(x * 100.0) as real / 100.0
  }

  /** Six decimal places of an amount that is not negative. */
  function ToMillionths(x: real): (r: real)
    ensures x - 0.0000005 < r <= x + 0.0000005
  {
    Nearest(x * 1_000_000.0) as real / 1_000_000.0
  }

  /** Four decimal places, halves away from zero, counted in ten-thousandths. */
  function Grains(x: real): int {
    if x >= 0.0 then Nearest(x * 10_000.0) else -Nearest(-x * 10_000.0)
  }

  function Money(x: real): (r: real)
    ensures x - 0.00005 <= r <= x + 0.00005
  {
    Grains(x) as real / 10_000.0
  }

  /** Halves go away from zero: up for what is owed, and the same with the other sign. */
  lemma MoneyRounds(x: real)
    ensures x >= 0.0 ==> x - 0.00005 < Money(x) <= x + 0.00005
    ensures Money(-x) == -Money(x)
  {
    if x == 0.0 {
      assert Nearest(0.0) == 0;
    }
  }

  lemma MoneyMonotone(x: real, y: real)
    requires x <= y
    ensures Money(x) <= Money(y)
  {
    assert Grains(x) <= Grains(y);
  }

  lemma MoneyExact(n: int)
    ensures Money(n as real / 10_000.0) == n as real / 10_000.0
  {
    assert Grains(n as real / 10_000.0) == n;
  }

  /** Money amounts are whole ten-thousandths, so rounding their difference changes nothing. */
  lemma MoneyDifference(x: real, y: real)
    ensures Money(Money(x) - Money(y)) == Money(x) - Money(y)
  {
    assert Money(x) - Money(y) == (Grains(x) - Grains(y)) as real / 10_000.0;
    MoneyExact(Grains(x) - Grains(y));
  }

  lemma DivideMonotone(a: real, b: real, s: real)
    requires s > 0.0 && a <= b
    ensures a / s <= b / s
  {
  }

  // --------------------------------------------------------------------- cost

  datatype Pricing = Pricing(baseFee: real, pricePerGb: real, freeQuotaGb: real)

  /** The settings registry keeps every price non-negative. */
  predicate ValidPricing(p: Pricing) {
    p.baseFee >= 0.0 && p.pricePerGb >= 0.0 && p.freeQuotaGb >= 0.0
  }

  function ToGb(bytes: nat): real {
    bytes as real / BYTES_PER_GB as real
  }

  function Billable(bytes: nat, pricing: Pricing): real {
    if ToGb(bytes) <= pricing.freeQuotaGb then 0.0 else ToGb(bytes) - pricing.freeQuotaGb
  }

  function Charge(gb: real, price: real): real {
    gb * price
  }

  /** The formula, before rounding. */
  function ExactCost(bytes: nat, pricing: Pricing): real {
    pricing.baseFee + Charge(Billable(bytes, pricing), pricing.pricePerGb)
  }

  datatype Breakdown = Breakdown(
    rawBytes: nat,
    optimizedBytes: nat,
    savedBytes: nat,
    billableGb: real,
    baseFee: real,
    pricePerGb: real,
    computedCost: real,
    costWithoutOptimization: real,
    savedCost: real)

  /** `optimizedBytes` is absent when nothing measured it: then the raw bytes are charged. */
  function ComputeCost(rawBytes: nat, optimizedBytes: Option<nat>, pricing: Pricing): Breakdown {
    var optimized := if optimizedBytes.Some? then optimizedBytes.value else rawBytes;
    var computedCost := Money(ExactCost(optimized, pricing));
    var costWithoutOptimization := Money(ExactCost(rawBytes, pricing));
    var savedCost := Money(costWithoutOptimization - computedCost);
    Breakdown(
      rawBytes,
      optimized,
      if rawBytes > optimized then rawBytes - optimized else 0,
      ToMillionths(Billable(optimized, pricing)),
      pricing.baseFee,
      pricing.pricePerGb,
      computedCost,
      costWithoutOptimization,
      if savedCost < 0.0 then 0.0 else savedCost)
  }

  lemma ExactCostMonotone(a: nat, b: nat, pricing: Pricing)
    requires a <= b && ValidPricing(pricing)
    ensures ExactCost(a, pricing) <= ExactCost(b, pricing)
  {
    DivideMonotone(a as real, b as real, BYTES_PER_GB as real);
    var x, y, p := Billable(a, pricing), Billable(b, pricing), pricing.pricePerGb;
    assert x <= y;
    assert x * p <= y * p;
  }

  /** The charge is within half a ten-thousandth of the formula, and never falls as more is carried. */
  lemma CostFollowsFormula(rawBytes: nat, optimizedBytes: nat, more: nat, pricing: Pricing)
    requires ValidPricing(pricing) && optimizedBytes <= more
    ensures var cost := ComputeCost(rawBytes, Some(optimizedBytes), pricing).computedCost;
            && ExactCost(optimizedBytes, pricing) - 0.00005 <= cost <= ExactCost(optimizedBytes, pricing) + 0.00005
            && cost <= ComputeCost(rawBytes, Some(more), pricing).computedCost
            && pricing.baseFee - 0.00005 <= cost
  {
    hide Money, Billable;
    ExactCostMonotone(optimizedBytes, more, pricing);
    MoneyMonotone(ExactCost(optimizedBytes, pricing), ExactCost(more, pricing));
    BillableCosts(optimizedBytes, pricing);
  }

  lemma BillableCosts(bytes: nat, pricing: Pricing)
    requires ValidPricing(pricing)
    ensures ExactCost(bytes, pricing) >= pricing.baseFee
  {
    hide ToGb;
    var x, p := Billable(bytes, pricing), pricing.pricePerGb;
    assert x >= 0.0;
    assert x * p >= 0.0;
  }

  /**
   * The saving is the difference of the two charges and is never negative; it is more than
   * the difference only when optimizing made the traffic dearer.
   */
  lemma SavedCostExactly(rawBytes: nat, optimizedBytes: Option<nat>, pricing: Pricing)
    requires ValidPricing(pricing)
    ensures var b := ComputeCost(rawBytes, optimizedBytes, pricing);
            && (b.savedCost == b.costWithoutOptimization - b.computedCost <==>
                  b.computedCost <= b.costWithoutOptimization)
            && b.savedCost >= 0.0
            && (b.optimizedBytes <= rawBytes ==>
                  b.computedCost <= b.costWithoutOptimization && b.savedBytes == rawBytes - b.optimizedBytes)
            && (optimizedBytes.None? ==> b.savedCost == 0.0 && b.savedBytes == 0)
  {
    hide Money, ExactCost, Billable;
    var optimized := if optimizedBytes.Some? then optimizedBytes.value else rawBytes;
    MoneyDifference(ExactCost(rawBytes, pricing), ExactCost(optimized, pricing));
    if optimized <= rawBytes {
      ExactCostMonotone(optimized, rawBytes, pricing);
      MoneyMonotone(ExactCost(optimized, pricing), ExactCost(rawBytes, pricing));
    }
  }

  /** What a volume is charged, whether it is the raw or the optimized one, to within half a ten-thousandth. */
  predicate Charged(gb: real, pricing: Pricing, cost: real) {
    var price := pricing.baseFee
               + if gb <= pricing.freeQuotaGb then 0.0 else Charge(gb - pricing.freeQuotaGb, pricing.pricePerGb);
    price - 0.00005 <= cost <= price + 0.00005
  }

  /**
   * The free quota: up to it the charge is the base fee, beyond it only what exceeds it is
   * charged, with optimization and without.
   */
  lemma FreeQuotaIsFree(rawBytes: nat, optimizedBytes: Option<nat>, pricing: Pricing)
    requires ValidPricing(pricing)
    ensures var b := ComputeCost(rawBytes, optimizedBytes, pricing);
            var optimized := if optimizedBytes.Some? then optimizedBytes.value else rawBytes;
            && Charged(rawBytes as real / 1_073_741_824.0, pricing, b.costWithoutOptimization)
            && Charged(optimized as real / 1_073_741_824.0, pricing, b.computedCost)
  {
    hide Money, ExactCost, Charged, Billable;
    ChargedOnce(rawBytes, pricing);
    ChargedOnce(if optimizedBytes.Some? then optimizedBytes.value else rawBytes, pricing);
  }

  lemma ChargedOnce(bytes: nat, pricing: Pricing)
    ensures Charged(bytes as real / 1_073_741_824.0, pricing, Money(ExactCost(bytes, pricing)))
  {
    hide Money, Charge;
    NothingCharged(pricing.pricePerGb);
  }

  lemma NothingCharged(price: real)
    ensures Charge(0.0, price) == 0.0
  {
  }

  /** Beyond the free quota, two volumes differ by the price of their difference. */
  lemma MoreCostsItsPrice(rawBytes: nat, less: nat, more: nat, pricing: Pricing)
    requires ValidPricing(pricing) && pricing.freeQuotaGb <= less as real / 1_073_741_824.0 && less <= more
    ensures var a := ComputeCost(rawBytes, Some(less), pricing).computedCost;
            var b := ComputeCost(rawBytes, Some(more), pricing).computedCost;
            var price := Charge((more - less) as real / 1_073_741_824.0, pricing.pricePerGb);
            price - 0.0001 <= b - a <= price + 0.0001
  {
    hide Money, ComputeCost, Charge;
    var x, y := less as real / 1_073_741_824.0, more as real / 1_073_741_824.0;
    FreeQuotaIsFree(rawBytes, Some(less), pricing);
    FreeQuotaIsFree(rawBytes, Some(more), pricing);
    DivideMonotone(less as real, more as real, 1_073_741_824.0);
    NothingCharged(pricing.pricePerGb);
    assert (more - less) as real / 1_073_741_824.0 == y - x;
    ChargesAdd(y - x, x - pricing.freeQuotaGb, pricing.pricePerGb);
    assert y - x + (x - pricing.freeQuotaGb) == y - pricing.freeQuotaGb;
  }

  lemma ChargesAdd(a: real, b: real, price: real)
    ensures Charge(a + b, price) == Charge(a, price) + Charge(b, price)
  {
  }

  /** 15 GB of which 10 are free, at 25 000 a gigabyte on a base fee of 15 000. */
  lemma FreeQuotaExample()
    ensures ComputeCost(16_106_127_360, None, Pricing(15_000.0, 25_000.0, 10.0)).computedCost == 140_000.0
  {
    assert ToGb(16_106_127_360) == 15.0;
    MoneyExact(1_400_000_000);
  }

  /** 100 GB at 25 000 a gigabyte on a base fee of 15 000. */
  lemma WorkedExample()
    ensures ComputeCost(107_374_182_400, None, Pricing(15_000.0, 25_000.0, 0.0)).computedCost == 2_515_000.0
  {
    assert ToGb(107_374_182_400) == 100.0;
    MoneyExact(25_150_000_000);
  }

  // ------------------------------------------------------------------- receipt

  /** The receipt's own line: the rounded gigabytes times the price, to two places. */
  function Subtotal(b: Breakdown): real {
    ToCents(Charge(b.billableGb, b.pricePerGb))
  }

  /**
   * A receipt shows base fee, subtotal and total. The first two add up to the third within
   * the three roundings between them: of the subtotal, the total and the gigabytes.
   */
  lemma ReceiptAddsUp(rawBytes: nat, optimizedBytes: Option<nat>, pricing: Pricing)
    requires ValidPricing(pricing)
    ensures var b := ComputeCost(rawBytes, optimizedBytes, pricing);
            var gap := b.baseFee + Subtotal(b) - b.computedCost;
            var bound := 0.005 + 0.00005 + pricing.pricePerGb * 0.0000005;
            -bound <= gap <= bound
  {
    hide Money, Billable, Charge;
    var optimized := if optimizedBytes.Some? then optimizedBytes.value else rawBytes;
    var gb := Billable(optimized, pricing);
    LineClose(gb, ToMillionths(gb), pricing.pricePerGb);
  }

  lemma LineClose(gb: real, rounded: real, price: real)
    requires gb - 0.0000005 <= rounded <= gb + 0.0000005 && price >= 0.0
    ensures Charge(gb, price) - price * 0.0000005 <= Charge(rounded, price) <= Charge(gb, price) + price * 0.0000005
  {
    var above, below := gb + 0.0000005 - rounded, rounded - gb + 0.0000005;
    NotNegative(above, price);
    NotNegative(below, price);
    assert above * price == gb * price + 0.0000005 * price - rounded * price;
    assert below * price == rounded * price - gb * price + 0.0000005 * price;
  }

  lemma NotNegative(a: real, b: real)
    requires a >= 0.0 && b >= 0.0
    ensures a * b >= 0.0
  {
  }

  // ---------------------------------------------------------------- projection

  /** A projected amount; dividing by no elapsed time gives none. */
  datatype Projection = Unavailable | Projected(amount: Option<real>)

  function Project(cost: real, elapsed: real, totalDays: real, minimumDays: real, hasTraffic: bool): Projection {
    if !hasTraffic then Unavailable
    else if elapsed < minimumDays then Unavailable
    else if totalDays <= 0.0 then Unavailable
    else Projected(if elapsed == 0.0 then None else Some(ToCents(cost / elapsed * totalDays)))
  }

  /**
   * Projected over a period at any moment, an amount is never less than half a cent below
   * what the period has cost so far: elapsed time never exceeds the period. It is available
   * without an amount exactly when no time has passed and no minimum asks for any.
   */
  lemma ProjectionCoversCost(cost: real, range: Time.Range, now: int, minimumDays: real, hasTraffic: bool)
    requires cost >= 0.0
    ensures var elapsed, total := Time.ElapsedDays(range, now), Time.RangeDays(range);
            var p := Project(cost, elapsed, total, minimumDays, hasTraffic);
            && (p.Projected? <==> hasTraffic && minimumDays <= elapsed && range.start < range.end)
            && (p.Projected? && p.amount.Some? ==> p.amount.value >= cost - 0.005)
            && (p.Projected? && p.amount.None? <==>
                  hasTraffic && minimumDays <= 0.0 && range.start < range.end && now <= range.start)
            && (p.Projected? && now >= range.end ==> p.amount == Some(ToCents(cost)))
  {
    var elapsed, total := Time.ElapsedDays(range, now), Time.RangeDays(range);
    Time.ElapsedWithinRange(range, now);
    Time.ElapsedWithinRange(range, range.end);
    assert total > 0.0 <==> range.start < range.end;
    assert range.start < range.end <= now ==> elapsed == total;
    if elapsed > 0.0 {
      Scaled(cost, elapsed, total);
    }
  }

  lemma Scaled(cost: real, elapsed: real, total: real)
    requires cost >= 0.0 && 0.0 < elapsed <= total
    ensures cost / elapsed * total >= cost
    ensures elapsed == total ==> cost / elapsed * total == cost
  {
    var rate := cost / elapsed;
    assert rate * elapsed == cost;
    assert rate >= 0.0;
    assert rate * (total - elapsed) >= 0.0;
  }

  // --------------------------------------------------------------- measurement

  datatype Direction = UPLOAD | DOWNLOAD

  /** An aggregate row of the period and scope; `optimized` is absent when not measured. */
  datatype Aggregate = Aggregate(direction: Direction, bytes: nat, optimized: Option<nat>)

  function SumBytes(rows: seq<Aggregate>, d: Direction): nat {
    if rows == [] then 0
    else SumBytes(rows[..|rows| - 1], d) + if rows[|rows| - 1].direction == d then rows[|rows| - 1].bytes else 0
  }

  /** Sum over the rows that have a value; none when no row has. */
  function SumOptimized(rows: seq<Aggregate>, d: Direction): Option<nat> {
    if rows == [] then None
    else
      var before, last := SumOptimized(rows[..|rows| - 1], d), rows[|rows| - 1];
      if last.direction != d || last.optimized.None? then before
      else Some((if before.Some? then before.value else 0) + last.optimized.value)
  }

  function AllBytes(rows: seq<Aggregate>): nat {
    if rows == [] then 0 else AllBytes(rows[..|rows| - 1]) + rows[|rows| - 1].bytes
  }

  function AllOptimized(rows: seq<Aggregate>): nat {
    if rows == [] then 0
    else
      AllOptimized(rows[..|rows| - 1])
      + if rows[|rows| - 1].optimized.Some? then rows[|rows| - 1].optimized.value else 0
  }

  predicate AnyMeasured(rows: seq<Aggregate>) {
    exists i :: 0 <= i < |rows| && rows[i].optimized.Some?
  }

  /** One group per direction, added up. */
  method MeasurePeriod(rows: seq<Aggregate>) returns (rawBytes: nat, optimizedBytes: Option<nat>)
    ensures rawBytes == AllBytes(rows)
    ensures optimizedBytes == if AnyMeasured(rows) then Some(AllOptimized(rows)) else None
  {
    var groups := [UPLOAD, DOWNLOAD];
    rawBytes := 0;
    var optimized := 0;
    var sawMeasured := false;
    for g := 0 to 2
      invariant rawBytes
                == (if g >= 1 then SumBytes(rows, UPLOAD) else 0) + (if g >= 2 then SumBytes(rows, DOWNLOAD) else 0)
      invariant optimized == (if g >= 1 then OrZero(SumOptimized(rows, UPLOAD)) else 0)
                + (if g >= 2 then OrZero(SumOptimized(rows, DOWNLOAD)) else 0)
      invariant sawMeasured <==>
                  (g >= 1 && SumOptimized(rows, UPLOAD).Some?) || (g >= 2 && SumOptimized(rows, DOWNLOAD).Some?)
    {
      rawBytes := rawBytes + SumBytes(rows, groups[g]);
      var sum := SumOptimized(rows, groups[g]);
      if sum.Some? {
        optimized := optimized + sum.value;
        sawMeasured := true;
      }
    }
    GroupsCoverRows(rows);
    optimizedBytes := if sawMeasured then Some(optimized) else None;
  }

  function OrZero(n: Option<nat>): nat {
    if n.Some? then n.value else 0
  }

  lemma {:induction false} GroupsCoverRows(rows: seq<Aggregate>)
    ensures AllBytes(rows) == SumBytes(rows, UPLOAD) + SumBytes(rows, DOWNLOAD)
    ensures AllOptimized(rows) == OrZero(SumOptimized(rows, UPLOAD)) + OrZero(SumOptimized(rows, DOWNLOAD))
    ensures AnyMeasured(rows) <==> SumOptimized(rows, UPLOAD).Some? || SumOptimized(rows, DOWNLOAD).Some?
  {
    if rows != [] {
      GroupsCoverRows(rows[..|rows| - 1]);
      assert AnyMeasured(rows) <==> AnyMeasured(rows[..|rows| - 1]) || rows[|rows| - 1].optimized.Some? by {
        if AnyMeasured(rows[..|rows| - 1]) {
          var i :| 0 <= i < |rows| - 1 && rows[..|rows| - 1][i].optimized.Some?;
          assert rows[i].optimized.Some?;
        }
      }
    }
  }

  /** The bytes carried: a row's optimized bytes where they were measured, its bytes where not. */
  function Carried(rows: seq<Aggregate>): nat {
    if rows == [] then 0
    else
      Carried(rows[..|rows| - 1])
      + if rows[|rows| - 1].optimized.Some? then rows[|rows| - 1].optimized.value else rows[|rows| - 1].bytes
  }

  /** The bytes of the rows that were not measured. */
  function Unmeasured(rows: seq<Aggregate>): nat {
    if rows == [] then 0
    else Unmeasured(rows[..|rows| - 1]) + if rows[|rows| - 1].optimized.Some? then 0 else rows[|rows| - 1].bytes
  }

  lemma {:induction false} CarriedSplits(rows: seq<Aggregate>)
    ensures Carried(rows) == AllOptimized(rows) + Unmeasured(rows)
    ensures !AnyMeasured(rows) ==> Carried(rows) == AllBytes(rows)
  {
    if rows != [] {
      var before := rows[..|rows| - 1];
      CarriedSplits(before);
      assert !AnyMeasured(rows) ==> !AnyMeasured(before) && rows[|rows| - 1].optimized.None? by {
        if AnyMeasured(before) {
          var i :| 0 <= i < |before| && before[i].optimized.Some?;
          assert rows[i].optimized.Some?;
        }
      }
    }
  }

  /**
   * The bytes a period is charged for are the bytes it carried exactly when no row was
   * measured or no unmeasured row carried any: as soon as one row is measured, the traffic of
   * the unmeasured ones is charged as nothing.
   */
  lemma MixedMeasurementDropsBytes(rows: seq<Aggregate>, optimizedBytes: Option<nat>)
    requires optimizedBytes == if AnyMeasured(rows) then Some(AllOptimized(rows)) else None
    ensures var charged := if optimizedBytes.Some? then optimizedBytes.value else AllBytes(rows);
            charged == Carried(rows) <==> !AnyMeasured(rows) || Unmeasured(rows) == 0
  {
    CarriedSplits(rows);
  }
}
