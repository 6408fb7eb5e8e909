/**
 * src/server/routing/score.ts: how good a node is on what could be measured of it, and which
 * node a new session is placed on. Measurements and weights are exact reals.
 */
module Routing {
  import opened Common

  function Clamp(value: real): (g: real)
    ensures 0.0 <= g <= 100.0
  {
    if value < 0.0 then 0.0 else if value > 100.0 then 100.0 else value
  }

  /** A measurement of which less is better, as goodness from 100 at zero to 0 at `unusableAt`. */
  function LowerIsBetter(value: real, unusableAt: real): real
    requires unusableAt > 0.0
  {
    if value <= 0.0 then 100.0
    else if value >= unusableAt then 0.0
    else 100.0 * (1.0 - value / unusableAt)
  }

  datatype MetricKey = LATENCY | JITTER | PACKET_LOSS | LOAD | STABILITY | CAPACITY

  const KEYS: seq<MetricKey> := [LATENCY, JITTER, PACKET_LOSS, LOAD, STABILITY, CAPACITY]

  function Goodness(key: MetricKey, value: real): real {
    match key
    case LATENCY => LowerIsBetter(value, 150.0)
    case JITTER => LowerIsBetter(value, 30.0)
    case PACKET_LOSS => LowerIsBetter(value, 5.0)
    case LOAD => Clamp(100.0 - value)
    case STABILITY => Clamp(value)
    case CAPACITY => Clamp(value)
  }

  /** How far a measurement of which less is better may rise before it is worth nothing. */
  function UnusableAt(key: MetricKey): real
    requires key != STABILITY && key != CAPACITY
  {
    match key
    case LATENCY => 150.0
    case JITTER => 30.0
    case PACKET_LOSS => 5.0
    case _ => 100.0
  }

  /**
   * The scale of each metric: 150 ms of latency, 30 ms of jitter, 5 % of loss and 100 % of load
   * are worth nothing, none of them is worth 100, and half as much is worth 50; of stability
   * and headroom the percentage is the goodness.
   */
  lemma GoodnessScale(key: MetricKey, value: real)
    ensures key == LATENCY ==>
              (Goodness(key, value) == 100.0 <==> value <= 0.0) && (Goodness(key, value) == 0.0 <==> value >= 150.0)
    ensures key == JITTER ==>
              (Goodness(key, value) == 100.0 <==> value <= 0.0) && (Goodness(key, value) == 0.0 <==> value >= 30.0)
    ensures key == PACKET_LOSS ==>
              (Goodness(key, value) == 100.0 <==> value <= 0.0) && (Goodness(key, value) == 0.0 <==> value >= 5.0)
    ensures key == LOAD ==>
              (Goodness(key, value) == 100.0 <==> value <= 0.0) && (Goodness(key, value) == 0.0 <==> value >= 100.0)
    ensures key == STABILITY || key == CAPACITY ==>
              (Goodness(key, value) == 100.0 <==> value >= 100.0) && (Goodness(key, value) == 0.0 <==> value <= 0.0)
    ensures Goodness(LATENCY, 75.0) == Goodness(JITTER, 15.0) == Goodness(PACKET_LOSS, 2.5) == 50.0
    ensures Goodness(LOAD, 50.0) == Goodness(STABILITY, 50.0) == Goodness(CAPACITY, 50.0) == 50.0
  {
    Quotients(value, 150.0, 150.0);
    Quotients(150.0, value, 150.0);
    Quotients(value, 30.0, 30.0);
    Quotients(30.0, value, 30.0);
    Quotients(value, 5.0, 5.0);
    Quotients(5.0, value, 5.0);
    Quotients(value, 0.0, 150.0);
    Quotients(value, 0.0, 30.0);
    Quotients(value, 0.0, 5.0);
  }

  /** In between it falls evenly: equal steps cost equally much. */
  lemma GoodnessEven(key: MetricKey, a: real, b: real)
    requires key != STABILITY && key != CAPACITY
    requires 0.0 <= a <= UnusableAt(key) && 0.0 <= b <= UnusableAt(key)
    ensures (Goodness(key, a) - Goodness(key, b)) * UnusableAt(key) == 100.0 * (b - a)
  {
    var u := UnusableAt(key);
    if key != LOAD {
      assert Goodness(key, a) * u == 100.0 * (u - a) by { Linear(a, u); }
      assert Goodness(key, b) * u == 100.0 * (u - b) by { Linear(b, u); }
    }
  }

  lemma Linear(value: real, u: real)
    requires 0.0 <= value <= u && u > 0.0
    ensures LowerIsBetter(value, u) * u == 100.0 * (u - value)
  {
    assert value / u * u == value;
    assert 100.0 * (1.0 - value / u) * u == 100.0 * (u - value / u * u);
  }

  /** More headroom and stability is better; less of everything else is. */
  predicate NoWorse(key: MetricKey, before: real, after: real) {
    if key == STABILITY || key == CAPACITY then before <= after else after <= before
  }

  lemma GoodnessMonotone(key: MetricKey, before: real, after: real)
    requires NoWorse(key, before, after)
    ensures 0.0 <= Goodness(key, before) <= Goodness(key, after) <= 100.0
  {
    match key
    case LATENCY => LowerMonotone(before, after, 150.0);
    case JITTER => LowerMonotone(before, after, 30.0);
    case PACKET_LOSS => LowerMonotone(before, after, 5.0);
    case _ =>
  }

  lemma LowerMonotone(before: real, after: real, unusableAt: real)
    requires after <= before && unusableAt > 0.0
    ensures 0.0 <= LowerIsBetter(before, unusableAt) <= LowerIsBetter(after, unusableAt) <= 100.0
  {
    Quotients(after, before, unusableAt);
    Quotients(0.0, after, unusableAt);
    Quotients(0.0, before, unusableAt);
    Quotients(after, unusableAt, unusableAt);
    Quotients(before, unusableAt, unusableAt);
  }

  lemma Quotients(a: real, b: real, c: real)
    requires c > 0.0
    ensures a <= b <==> a / c <= b / c
    ensures c / c == 1.0 && 0.0 / c == 0.0
  {
    assert a == a / c * c && b == b / c * c;
    if a / c <= b / c {
      assert a / c * c <= b / c * c;
    } else {
      assert b / c * c < a / c * c;
    }
  }

  // -------------------------------------------------------------------- score

  /** One metric of a node: its weight, and its goodness when it was measured. */
  datatype Metric = Metric(weight: real, goodness: Option<real>)

  function MeasuredWeight(metrics: seq<Metric>): real {
    if metrics == [] then 0.0
    else MeasuredWeight(metrics[..|metrics| - 1])
         + if metrics[|metrics| - 1].goodness.Some? then metrics[|metrics| - 1].weight else 0.0
  }

  /** The sum of weight times goodness over what was measured. */
  function WeightedSum(metrics: seq<Metric>): real {
    if metrics == [] then 0.0
    else WeightedSum(metrics[..|metrics| - 1])
         + if metrics[|metrics| - 1].goodness.Some?
           then metrics[|metrics| - 1].weight * metrics[|metrics| - 1].goodness.value else 0.0
  }

  /** `Math.round(x * 10) / 10`: to one decimal, halves up. */
  function RoundTenth(x: real): real {
    (x * 10.0 + 0.5).Floor as real / 10.0
  }

  lemma RoundTenthClose(x: real)
    ensures x - 0.05 <= RoundTenth(x) <= x + 0.05
  {
  }

  lemma RoundTenthMonotone(x: real, y: real)
    requires x <= y
    ensures RoundTenth(x) <= RoundTenth(y)
  {
    var m, n := (x * 10.0 + 0.5).Floor, (y * 10.0 + 0.5).Floor;
    assert m <= n;
    assert m as real <= n as real;
  }

  /** The contributions are hundredths of weight times goodness, and the quotient undoes the hundred. */
  function RouteScore(metrics: seq<Metric>): Option<real> {
    var available := MeasuredWeight(metrics);
    if available > 0.0 then Some(RoundTenth(Contribution(metrics) / available * 100.0)) else None
  }

  function Contribution(metrics: seq<Metric>): real {
    if metrics == [] then 0.0
    else Contribution(metrics[..|metrics| - 1])
         + if metrics[|metrics| - 1].goodness.Some?
           then metrics[|metrics| - 1].weight * metrics[|metrics| - 1].goodness.value / 100.0 else 0.0
  }

  lemma {:induction false} ContributionIsHundredth(metrics: seq<Metric>)
    ensures Contribution(metrics) == WeightedSum(metrics) / 100.0
  {
    if metrics != [] {
      ContributionIsHundredth(metrics[..|metrics| - 1]);
    }
  }

  function Mean(metrics: seq<Metric>): real
    requires MeasuredWeight(metrics) > 0.0
  {
    WeightedSum(metrics) / MeasuredWeight(metrics)
  }

  lemma ScoreRoundsMean(metrics: seq<Metric>)
    ensures RouteScore(metrics).Some? <==> MeasuredWeight(metrics) > 0.0
    ensures MeasuredWeight(metrics) > 0.0 ==> RouteScore(metrics) == Some(RoundTenth(Mean(metrics)))
  {
    ContributionIsHundredth(metrics);
    if MeasuredWeight(metrics) > 0.0 {
      Hundredfold(WeightedSum(metrics), MeasuredWeight(metrics));
    }
  }

  lemma Hundredfold(a: real, b: real)
    requires b > 0.0
    ensures a / 100.0 / b * 100.0 == a / b
  {
    var q := a / b;
    assert q * b == a;
    var r := a / 100.0 / b;
    assert r * b == a / 100.0;
    assert r * b * 100.0 == q * b;
    assert (r * 100.0 - q) * b == 0.0;
  }

  predicate NonNegative(metrics: seq<Metric>) {
    forall i :: 0 <= i < |metrics| ==> metrics[i].weight >= 0.0
  }

  predicate Between(metrics: seq<Metric>, low: real, high: real) {
    forall i :: 0 <= i < |metrics| && metrics[i].goodness.Some? ==> low <= metrics[i].goodness.value <= high
  }

  lemma SumsUnfold(metrics: seq<Metric>)
    ensures metrics == [] ==> MeasuredWeight(metrics) == 0.0 && WeightedSum(metrics) == 0.0
    ensures metrics != [] ==>
              var before, last := metrics[..|metrics| - 1], metrics[|metrics| - 1];
              if last.goodness.Some? then
                && MeasuredWeight(metrics) == MeasuredWeight(before) + last.weight
                && WeightedSum(metrics) == WeightedSum(before) + last.weight * last.goodness.value
              else MeasuredWeight(metrics) == MeasuredWeight(before) && WeightedSum(metrics) == WeightedSum(before)
  {
  }

  lemma {:induction false} SumBetween(metrics: seq<Metric>, low: real, high: real)
    requires NonNegative(metrics) && Between(metrics, low, high)
    ensures MeasuredWeight(metrics) >= 0.0
    ensures low * MeasuredWeight(metrics) <= WeightedSum(metrics) <= high * MeasuredWeight(metrics)
  {
    SumsUnfold(metrics);
    hide MeasuredWeight, WeightedSum;
    if metrics != [] {
      var before, last := metrics[..|metrics| - 1], metrics[|metrics| - 1];
      SumBetween(before, low, high);
      if last.goodness.Some? {
        WeightAdded(low, last.goodness.value, high, MeasuredWeight(before), WeightedSum(before), last.weight);
      }
    }
  }

  lemma WeightAdded(low: real, g: real, high: real, weight: real, sum: real, w: real)
    requires low <= g <= high && w >= 0.0 && low * weight <= sum <= high * weight
    ensures low * (weight + w) <= sum + w * g <= high * (weight + w)
  {
    Distributed(low, weight, w);
    Distributed(high, weight, w);
    Scaled(low, g, w);
    Scaled(g, high, w);
  }

  lemma Distributed(a: real, b: real, c: real)
    ensures a * (b + c) == a * b + a * c
  {
  }

  lemma Scaled(a: real, b: real, w: real)
    requires a <= b && w >= 0.0
    ensures a * w <= b * w && w * b == b * w && w * a == a * w
  {
  }

  /**
   * For non-negative weights of which some measured one is positive, the score is the
   * weighted mean of the measured goodness, rounded: it is within 0.05 of that mean, and
   * between the rounded bounds of the goodness, so always from 0 to 100.
   */
  lemma ScoreIsWeightedMean(metrics: seq<Metric>, low: real, high: real)
    requires NonNegative(metrics) && Between(metrics, low, high) && MeasuredWeight(metrics) > 0.0
    ensures var score := RouteScore(metrics).value;
            && RouteScore(metrics).Some?
            && low <= Mean(metrics) <= high
            && Mean(metrics) - 0.05 <= score <= Mean(metrics) + 0.05
            && RoundTenth(low) <= score <= RoundTenth(high)
            && (0.0 <= low && high <= 100.0 ==> 0.0 <= score <= 100.0)
  {
    hide RoundTenth, RouteScore, WeightedSum, MeasuredWeight, Between, NonNegative;
    ScoreRoundsMean(metrics);
    SumBetween(metrics, low, high);
    MeanBetween(WeightedSum(metrics), MeasuredWeight(metrics), low, high);
    RoundTenthClose(Mean(metrics));
    RoundTenthMonotone(low, Mean(metrics));
    RoundTenthMonotone(Mean(metrics), high);
    if 0.0 <= low && high <= 100.0 {
      RoundTenthMonotone(0.0, low);
      RoundTenthMonotone(high, 100.0);
      RoundEnds();
    }
  }

  lemma RoundEnds()
    ensures RoundTenth(0.0) == 0.0 && RoundTenth(100.0) == 100.0
  {
  }

  lemma MeanBetween(sum: real, weight: real, low: real, high: real)
    requires weight > 0.0 && low * weight <= sum <= high * weight
    ensures low <= sum / weight <= high
  {
    var q := sum / weight;
    assert q * weight == sum;
    assert q < low ==> q * weight < low * weight;
    assert high < q ==> high * weight < q * weight;
  }

  predicate ScoreWithin(metrics: seq<Metric>, low: real, high: real) {
    RouteScore(metrics).Some? && low <= RouteScore(metrics).value <= high
  }

  ghost predicate Weighting(metrics: seq<Metric>, low: real, high: real) {
    NonNegative(metrics) && Between(metrics, low, high) && MeasuredWeight(metrics) > 0.0
  }

  /**
   * A score is meant to lie between the smallest and the greatest goodness it averages. It
   * does, for every weighting of goodness from `low` to `high`, exactly when rounding to a
   * tenth takes neither bound out of the range.
   */
  lemma ScoreWithinExactly(low: real, high: real)
    requires low <= high
    ensures (forall metrics :: Weighting(metrics, low, high) ==> ScoreWithin(metrics, low, high)) <==>
              low <= RoundTenth(low) && RoundTenth(high) <= high
  {
    hide RoundTenth, RouteScore, Between, NonNegative, MeasuredWeight;
    if low <= RoundTenth(low) && RoundTenth(high) <= high {
      forall metrics | Weighting(metrics, low, high) ensures ScoreWithin(metrics, low, high) {
        ScoreIsWeightedMean(metrics, low, high);
      }
    } else {
      OneMetric(low, low, high);
      OneMetric(high, low, high);
    }
  }

  /** A single metric's score is its rounded goodness. */
  lemma OneMetric(goodness: real, low: real, high: real)
    requires low <= goodness <= high
    ensures Weighting([Metric(1.0, Some(goodness))], low, high)
    ensures RouteScore([Metric(1.0, Some(goodness))]) == Some(RoundTenth(goodness))
  {
    hide RoundTenth;
    var metrics := [Metric(1.0, Some(goodness))];
    assert metrics[..0] == [];
    SumsUnfold(metrics);
    SumsUnfold([]);
    assert MeasuredWeight(metrics) == 1.0 && WeightedSum(metrics) == goodness;
    ScoreRoundsMean(metrics);
    assert Mean(metrics) == goodness;
  }

  /** So a goodness of 33.33 alone scores below itself. */
  lemma ScoreMayLeaveRange()
    ensures RouteScore([Metric(1.0, Some(33.33))]) == Some(33.3)
    ensures !ScoreWithin([Metric(1.0, Some(33.33))], 33.33, 33.33)
  {
    OneMetric(33.33, 33.33, 33.33);
  }

  /** Metrics that agree on everything measured. */
  predicate SameMeasured(a: seq<Metric>, b: seq<Metric>) {
    && |a| == |b|
    && forall i :: 0 <= i < |a| ==>
         a[i].goodness == b[i].goodness && (a[i].goodness.Some? ==> a[i].weight == b[i].weight)
  }

  lemma {:induction false} SameSums(a: seq<Metric>, b: seq<Metric>)
    requires SameMeasured(a, b)
    ensures MeasuredWeight(a) == MeasuredWeight(b) && WeightedSum(a) == WeightedSum(b)
  {
    if a != [] {
      SameSums(a[..|a| - 1], b[..|b| - 1]);
    }
  }

  /** The weight of a metric that was not measured plays no part. */
  lemma UnmeasuredWeightIgnored(a: seq<Metric>, b: seq<Metric>)
    requires SameMeasured(a, b)
    ensures RouteScore(a) == RouteScore(b)
  {
    SameSums(a, b);
    ScoreRoundsMean(a);
    ScoreRoundsMean(b);
  }

  // ---------------------------------------------------------------- placement

  datatype NodeStatus = REGISTERING | ONLINE | OFFLINE | DEGRADED | REVOKED

  datatype Health = HEALTHY | POOR | DOWN | NEVER_SEEN

  datatype Node = Node(
    id: nat,
    status: NodeStatus,
    health: Health,
    maintenance: bool,
    draining: bool,
    poolEnabled: bool,
    values: map<MetricKey, real>)

  /** Every metric is counted once: no key is missing from the order and none comes twice. */
  lemma KeysAreAll(key: MetricKey)
    ensures |KEYS| == 6 && key in KEYS
    ensures forall i, j :: 0 <= i < j < |KEYS| ==> KEYS[i] != KEYS[j]
  {
    assert KEYS[0] == LATENCY && KEYS[1] == JITTER && KEYS[2] == PACKET_LOSS;
    assert KEYS[3] == LOAD && KEYS[4] == STABILITY && KEYS[5] == CAPACITY;
  }

  type Weights = map<MetricKey, real>

  /** The metrics of a node, in the fixed order; a metric without a value is unmeasured. */
  function MetricsOf(node: Node, weights: Weights): (metrics: seq<Metric>)
    requires forall k: MetricKey :: k in weights
    ensures |metrics| == 6
    ensures forall i :: 0 <= i < 6 ==>
              metrics[i]
              == Metric(weights[KEYS[i]],
                        if KEYS[i] in node.values then Some(Goodness(KEYS[i], node.values[KEYS[i]])) else None)
  {
    seq(6, i requires 0 <= i < 6 =>
      Metric(weights[KEYS[i]], if KEYS[i] in node.values then Some(Goodness(KEYS[i], node.values[KEYS[i]])) else None))
  }

  function ScoreOf(node: Node, weights: Weights): Option<real>
    requires forall k: MetricKey :: k in weights
  {
    RouteScore(MetricsOf(node, weights))
  }

  /** A node's score, whatever was measured of it, is a number from 0 to 100. */
  lemma NodeScoreInRange(node: Node, weights: Weights)
    requires forall k: MetricKey :: k in weights && weights[k] >= 0.0
    ensures ScoreOf(node, weights).Some? ==> 0.0 <= ScoreOf(node, weights).value <= 100.0
  {
    var metrics := MetricsOf(node, weights);
    forall i | 0 <= i < 6 && metrics[i].goodness.Some?
      ensures 0.0 <= metrics[i].goodness.value <= 100.0
    {
      GoodnessMonotone(KEYS[i], node.values[KEYS[i]], node.values[KEYS[i]]);
    }
    if MeasuredWeight(metrics) > 0.0 {
      ScoreIsWeightedMean(metrics, 0.0, 100.0);
    }
  }

  /** Why a node takes no new session; each stands for the sentence the console shows. */
  datatype Exclusion =
    | NODE_REVOKED
    | NOT_ONLINE
    | NODE_DOWN
    | NO_HEARTBEAT
    | IN_MAINTENANCE
    | IS_DRAINING
    | POOL_DISABLED
    | NO_SCORE

  /** The first check that fails gives the reason, and without one the node is eligible. */
  method Eligibility(node: Node, score: Option<real>) returns (eligible: bool, reason: Option<Exclusion>)
    ensures eligible <==> IsEligible(node, score)
    ensures eligible <==> reason.None?
    ensures var online := node.status == ONLINE;
            var healthy := online && node.health != DOWN && node.health != NEVER_SEEN;
            var open := healthy && !node.maintenance && !node.draining;
            && (reason == Some(NODE_REVOKED) <==> node.status == REVOKED)
            && (reason == Some(NOT_ONLINE) <==> !online && node.status != REVOKED)
            && (reason == Some(NODE_DOWN) <==> online && node.health == DOWN)
            && (reason == Some(NO_HEARTBEAT) <==> online && node.health == NEVER_SEEN)
            && (reason == Some(IN_MAINTENANCE) <==> healthy && node.maintenance)
            && (reason == Some(IS_DRAINING) <==> healthy && !node.maintenance && node.draining)
            && (reason == Some(POOL_DISABLED) <==> open && !node.poolEnabled)
            && (reason == Some(NO_SCORE) <==> open && node.poolEnabled && score.None?)
            && (eligible <==> open && node.poolEnabled && score.Some?)
  {
    eligible, reason := true, None;
    if node.status == REVOKED {
      eligible, reason := false, Some(NODE_REVOKED);
    } else if node.status != ONLINE {
      eligible, reason := false, Some(NOT_ONLINE);
    } else if node.health == DOWN {
      eligible, reason := false, Some(NODE_DOWN);
    } else if node.health == NEVER_SEEN {
      eligible, reason := false, Some(NO_HEARTBEAT);
    } else if node.maintenance {
      eligible, reason := false, Some(IN_MAINTENANCE);
    } else if node.draining {
      eligible, reason := false, Some(IS_DRAINING);
    } else if !node.poolEnabled {
      eligible, reason := false, Some(POOL_DISABLED);
    } else if score.None? {
      eligible, reason := false, Some(NO_SCORE);
    }
  }

  predicate IsEligible(node: Node, score: Option<real>) {
    && node.status == ONLINE && node.health != DOWN && node.health != NEVER_SEEN
    && !node.maintenance && !node.draining && node.poolEnabled && score.Some?
  }

  datatype Candidate = Candidate(id: nat, score: real)

  /** Eligible, scored and not excluded, in the order of the nodes. */
  function Candidates(nodes: seq<Node>, weights: Weights, excluded: set<nat>): seq<Candidate>
    requires forall k: MetricKey :: k in weights
  {
    if nodes == [] then []
    else
      var node := nodes[0];
      var score := ScoreOf(node, weights);
      (if IsEligible(node, score) && node.id !in excluded then [Candidate(node.id, score.value)] else [])
      + Candidates(nodes[1..], weights, excluded)
  }

  /** Puts a candidate before the ones it is at least as good as: a stable sort from the back. */
  function Placed(c: Candidate, ranked: seq<Candidate>): seq<Candidate> {
    if ranked == [] || c.score >= ranked[0].score then [c] + ranked else [ranked[0]] + Placed(c, ranked[1..])
  }

  /** Best score first, ties in the order of the nodes. */
  function Ranked(candidates: seq<Candidate>): seq<Candidate> {
    if candidates == [] then [] else Placed(candidates[0], Ranked(candidates[1..]))
  }

  /** In manual mode the operator assigns nodes and nothing is selected. */
  function SelectNode(automatic: bool, nodes: seq<Node>, weights: Weights, excluded: set<nat>): Option<Candidate>
    requires forall k: MetricKey :: k in weights
  {
    var ranked := Ranked(Candidates(nodes, weights, excluded));
    if !automatic || ranked == [] then None else Some(ranked[0])
  }

  /** The first candidate no other one beats. */
  ghost predicate FirstBest(candidates: seq<Candidate>, best: nat) {
    && best < |candidates|
    && (forall i :: 0 <= i < |candidates| ==> candidates[i].score <= candidates[best].score)
    && forall i :: 0 <= i < best ==> candidates[i].score < candidates[best].score
  }

  lemma {:induction false} RankedHead(candidates: seq<Candidate>) returns (best: nat)
    requires candidates != []
    ensures Ranked(candidates) != [] && FirstBest(candidates, best) && Ranked(candidates)[0] == candidates[best]
  {
    if |candidates| == 1 {
      best := 0;
    } else {
      var rest := RankedHead(candidates[1..]);
      best := if candidates[0].score >= candidates[rest + 1].score then 0 else rest + 1;
      assert forall i :: 1 <= i < |candidates| ==> candidates[i] == candidates[1..][i - 1];
    }
  }

  lemma FirstBestUnique(candidates: seq<Candidate>, i: nat, j: nat)
    requires FirstBest(candidates, i) && FirstBest(candidates, j)
    ensures i == j
  {
    assert candidates[i].score <= candidates[j].score <= candidates[i].score;
  }

  /** Raising the best candidate and no other leaves it the best. */
  lemma RaisedStaysBest(a: seq<Candidate>, b: seq<Candidate>, best: nat)
    requires FirstBest(a, best) && |b| == |a|
    requires forall i :: 0 <= i < |a| && i != best ==> b[i] == a[i]
    requires a[best].score <= b[best].score
    ensures FirstBest(b, best)
  {
    forall i | 0 <= i < |b|
      ensures b[i].score <= b[best].score && (i < best ==> b[i].score < b[best].score)
    {
      if i != best {
        assert b[i] == a[i];
      }
    }
  }

  /** Selection picks the first best of the candidates, and nothing exactly in manual mode or when there is none. */
  lemma SelectsFirstBest(automatic: bool, nodes: seq<Node>, weights: Weights, excluded: set<nat>) returns (best: nat)
    requires forall k: MetricKey :: k in weights
    ensures SelectNode(automatic, nodes, weights, excluded).None? <==>
              !automatic || Candidates(nodes, weights, excluded) == []
    ensures SelectNode(automatic, nodes, weights, excluded).Some? ==>
              && FirstBest(Candidates(nodes, weights, excluded), best)
              && SelectNode(automatic, nodes, weights, excluded).value == Candidates(nodes, weights, excluded)[best]
  {
    best := 0;
    if Candidates(nodes, weights, excluded) != [] {
      best := RankedHead(Candidates(nodes, weights, excluded));
    }
  }

  lemma {:induction false} CandidatesExactly(nodes: seq<Node>, weights: Weights, excluded: set<nat>)
    requires forall k: MetricKey :: k in weights
    ensures forall c :: c in Candidates(nodes, weights, excluded) <==>
              exists i :: 0 <= i < |nodes| && Chosen(nodes[i], weights, excluded, c)
  {
    if nodes != [] {
      CandidatesExactly(nodes[1..], weights, excluded);
      forall c
        ensures c in Candidates(nodes, weights, excluded) <==>
                  exists i :: 0 <= i < |nodes| && Chosen(nodes[i], weights, excluded, c)
      {
        if i :| 0 <= i < |nodes| && Chosen(nodes[i], weights, excluded, c) {
          assert i > 0 ==> nodes[1..][i - 1] == nodes[i];
        }
        if c in Candidates(nodes[1..], weights, excluded) {
          var j :| 0 <= j < |nodes[1..]| && Chosen(nodes[1..][j], weights, excluded, c);
          assert nodes[j + 1] == nodes[1..][j];
        }
        if Chosen(nodes[0], weights, excluded, c) {
          assert c in Candidates(nodes, weights, excluded);
        }
      }
    }
  }

  predicate Chosen(node: Node, weights: Weights, excluded: set<nat>, c: Candidate)
    requires forall k: MetricKey :: k in weights
  {
    var score := ScoreOf(node, weights);
    IsEligible(node, score) && node.id !in excluded && c == Candidate(node.id, score.value)
  }

  // ------------------------------------------------------------- improvement

  /** The node, with one of its measurements no worse than before. */
  ghost predicate Improved(before: Node, after: Node) {
    && after == before.(values := after.values) && after.values.Keys == before.values.Keys
    && forall k :: k in before.values ==> NoWorse(k, before.values[k], after.values[k])
  }

  /** Two metrics of one weight that are both measured or both not. */
  ghost predicate NoLess(a: Metric, b: Metric) {
    && a.weight == b.weight && (a.goodness.Some? <==> b.goodness.Some?)
    && (a.goodness.Some? ==> a.goodness.value <= b.goodness.value)
  }

  lemma TermNoLess(a: Metric, b: Metric)
    requires NoLess(a, b) && a.weight >= 0.0 && a.goodness.Some?
    ensures a.weight * a.goodness.value <= b.weight * b.goodness.value
  {
    Scaled(a.goodness.value, b.goodness.value, b.weight);
  }

  lemma {:induction false} SumsImprove(a: seq<Metric>, b: seq<Metric>)
    requires |a| == |b| && NonNegative(a)
    requires forall i :: 0 <= i < |a| ==> NoLess(a[i], b[i])
    ensures MeasuredWeight(a) == MeasuredWeight(b) && WeightedSum(a) <= WeightedSum(b)
  {
    if a != [] {
      var last := |a| - 1;
      assert NoLess(a[last], b[last]);
      SumsImprove(a[..last], b[..last]);
      if a[last].goodness.Some? {
        var p, q := a[last].weight * a[last].goodness.value, b[last].weight * b[last].goodness.value;
        assert p <= q by { TermNoLess(a[last], b[last]); }
        assert WeightedSum(a) == WeightedSum(a[..last]) + p;
        assert WeightedSum(b) == WeightedSum(b[..last]) + q;
      }
    }
  }

  lemma ScoreImproves(before: Node, after: Node, weights: Weights)
    requires forall k: MetricKey :: k in weights && weights[k] >= 0.0
    requires Improved(before, after)
    ensures ScoreOf(before, weights).Some? <==> ScoreOf(after, weights).Some?
    ensures ScoreOf(before, weights).Some? ==> ScoreOf(before, weights).value <= ScoreOf(after, weights).value
  {
    var a, b := MetricsOf(before, weights), MetricsOf(after, weights);
    forall i | 0 <= i < 6
      ensures a[i].goodness.Some? ==> b[i].goodness.Some? && a[i].goodness.value <= b[i].goodness.value
    {
      if KEYS[i] in before.values {
        GoodnessMonotone(KEYS[i], before.values[KEYS[i]], after.values[KEYS[i]]);
      }
    }
    SumsImprove(a, b);
    ScoreRoundsMean(a);
    ScoreRoundsMean(b);
    if MeasuredWeight(a) > 0.0 {
      Quotients(WeightedSum(a), WeightedSum(b), MeasuredWeight(a));
      RoundTenthMonotone(Mean(a), Mean(b));
    }
  }

  /**
   * Improving the node that was selected never loses it the selection: with every other node
   * as it was, the same node is selected again.
   */
  lemma ImprovementKeepsSelection(automatic: bool, nodes: seq<Node>, weights: Weights, excluded: set<nat>, n: nat,
                                  better: Node)
    requires forall k: MetricKey :: k in weights && weights[k] >= 0.0
    requires n < |nodes| && Improved(nodes[n], better)
    requires forall i, j :: 0 <= i < j < |nodes| ==> nodes[i].id != nodes[j].id
    requires SelectNode(automatic, nodes, weights, excluded).Some?
             && SelectNode(automatic, nodes, weights, excluded).value.id == nodes[n].id
    ensures var again := SelectNode(automatic, nodes[n := better], weights, excluded);
            again.Some? && again.value.id == nodes[n].id
  {
    hide ScoreOf, Ranked, Candidates, Improved;
    var a, b := Candidates(nodes, weights, excluded), Candidates(nodes[n := better], weights, excluded);
    var best := SelectsFirstBest(automatic, nodes, weights, excluded);
    OneRaised(nodes, weights, excluded, n, better);
    assert a[best].id == nodes[n].id;
    CandidatesDiffer(nodes, weights, excluded);
    RaisedStaysBest(a, b, best);
    var best' := SelectsFirstBest(automatic, nodes[n := better], weights, excluded);
    assert b != [] && b[best].id == a[best].id;
    FirstBestUnique(b, best, best');
  }

  predicate AllDiffer(candidates: seq<Candidate>) {
    forall i, j :: 0 <= i < j < |candidates| ==> candidates[i].id != candidates[j].id
  }

  lemma {:induction false} CandidatesDiffer(nodes: seq<Node>, weights: Weights, excluded: set<nat>)
    requires forall k: MetricKey :: k in weights
    requires forall i, j :: 0 <= i < j < |nodes| ==> nodes[i].id != nodes[j].id
    ensures AllDiffer(Candidates(nodes, weights, excluded))
  {
    hide ScoreOf, IsEligible;
    if nodes != [] {
      var c, rest := Candidates(nodes, weights, excluded), Candidates(nodes[1..], weights, excluded);
      CandidatesDiffer(nodes[1..], weights, excluded);
      OthersDiffer(nodes, weights, excluded);
      assert AllDiffer(rest);
      assert c == rest || (c[0].id == nodes[0].id && c == [c[0]] + rest);
      forall i, j | 0 <= i < j < |c|
        ensures c[i].id != c[j].id
      {
        if c == rest {
          assert rest[i].id != rest[j].id;
        } else {
          assert c[j] == rest[j - 1] && rest[j - 1].id != nodes[0].id;
          if i > 0 {
            assert c[i] == rest[i - 1] && rest[i - 1].id != rest[j - 1].id;
          }
        }
      }
    }
  }

  lemma OthersDiffer(nodes: seq<Node>, weights: Weights, excluded: set<nat>)
    requires forall k: MetricKey :: k in weights
    requires nodes != [] && forall i, j :: 0 <= i < j < |nodes| ==> nodes[i].id != nodes[j].id
    ensures forall i :: 0 <= i < |Candidates(nodes[1..], weights, excluded)| ==>
              Candidates(nodes[1..], weights, excluded)[i].id != nodes[0].id
  {
    hide ScoreOf, IsEligible, Candidates;
    CandidatesExactly(nodes[1..], weights, excluded);
    var rest := Candidates(nodes[1..], weights, excluded);
    forall i | 0 <= i < |rest|
      ensures rest[i].id != nodes[0].id
    {
      assert rest[i] in rest;
      var j :| 0 <= j < |nodes[1..]| && Chosen(nodes[1..][j], weights, excluded, rest[i]);
      assert nodes[j + 1] == nodes[1..][j];
    }
  }

  /** Only the improved node's candidate changes, and only upwards. */
  lemma {:induction false} OneRaised(nodes: seq<Node>, weights: Weights, excluded: set<nat>, n: nat, better: Node)
    requires forall k: MetricKey :: k in weights && weights[k] >= 0.0
    requires n < |nodes| && Improved(nodes[n], better)
    requires forall i, j :: 0 <= i < j < |nodes| ==> nodes[i].id != nodes[j].id
    ensures var a, b := Candidates(nodes, weights, excluded), Candidates(nodes[n := better], weights, excluded);
            && |a| == |b|
            && forall i :: 0 <= i < |a| ==>
                 && b[i].id == a[i].id
                 && (a[i].id != nodes[n].id ==> b[i] == a[i])
                 && a[i].score <= b[i].score
  {
    if n == 0 {
      ScoreImproves(nodes[0], better, weights);
      assert nodes[n := better][1..] == nodes[1..];
      OthersDiffer(nodes, weights, excluded);
    } else {
      assert nodes[n := better][1..] == nodes[1..][n - 1 := better];
      OneRaised(nodes[1..], weights, excluded, n - 1, better);
    }
  }
}
