/**
 * src/server/realtime/aggregator.ts: byte counters in, one point a second out, kept in a
 * ring buffer as long as the widest chart. A tick lasts one second, so a rate is a byte
 * count; counters are whole numbers.
 */
module Aggregator {
  import opened Common

  type NodeId = nat

  datatype Point = Point(t: int, upload: nat, download: nat, total: nat, connections: nat)

  datatype NodeRate = NodeRate(upload: nat, download: nat, sessions: nat, lastReportAt: int)

  datatype Pending = Pending(upload: nat, download: nat, connections: nat)

  const NOTHING := Pending(0, 0, 0)

  datatype Batch = Batch(
    node: NodeId,
    upload: nat,
    download: nat,
    connections: Option<nat>,
    sessions: Option<nat>,
    mock: bool,
    at: int)

  datatype Status = LIVE | IDLE | MOCK | STALE

  /** Upload and download bytes, added side by side. */
  datatype Bytes = Bytes(upload: nat, download: nat) {
    function Plus(other: Bytes): Bytes {
      Bytes(upload + other.upload, download + other.download)
    }
  }

  ghost function PendingBytes(m: map<NodeId, Pending>): Bytes
    decreases |m|
  {
    if m == map[] then Bytes(0, 0)
    else
      var n: NodeId :| n in m;
      PendingBytes(m - {n}).Plus(Bytes(m[n].upload, m[n].download))
  }

  /** The order in which the nodes are added up does not matter. */
  lemma {:induction false} PendingWithout(m: map<NodeId, Pending>, n: NodeId)
    requires n in m
    ensures PendingBytes(m) == PendingBytes(m - {n}).Plus(Bytes(m[n].upload, m[n].download))
    decreases |m|
  {
    var k: NodeId :| k in m && PendingBytes(m) == PendingBytes(m - {k}).Plus(Bytes(m[k].upload, m[k].download));
    if k != n {
      PendingWithout(m - {k}, n);
      PendingWithout(m - {n}, k);
      assert m - {n} - {k} == m - {k} - {n};
      assert PendingBytes(m) == PendingBytes(m - {k}).Plus(Bytes(m[k].upload, m[k].download));
      assert PendingBytes(m).upload == PendingBytes(m - {n}).upload + m[n].upload;
      assert PendingBytes(m).download == PendingBytes(m - {n}).download + m[n].download;
    }
  }

  /** Bytes add up; the connection count is the latest batch's, whichever node sent it. */
  function Raised(p: Pending, batch: Batch): (r: Pending)
    ensures r.upload == p.upload + batch.upload && r.download == p.download + batch.download
    ensures r.connections == if batch.connections.Some? then batch.connections.value else p.connections
  {
    Pending(p.upload + batch.upload, p.download + batch.download,
            if batch.connections.Some? then batch.connections.value else p.connections)
  }

  /** A node that owes `more` bytes raises the total by exactly that. */
  lemma PendingRaised(m: map<NodeId, Pending>, n: NodeId, p: Pending, more: Bytes)
    requires var was := if n in m then m[n] else NOTHING;
             p.upload == was.upload + more.upload && p.download == was.download + more.download
    ensures PendingBytes(m[n := p]) == PendingBytes(m).Plus(more)
  {
    PendingWithout(m[n := p], n);
    if n in m {
      PendingWithout(m, n);
      assert m[n := p] - {n} == m - {n};
    } else {
      assert m[n := p] - {n} == m;
    }
  }

  /** Connections play no part. */
  lemma {:induction false} PendingSame(a: map<NodeId, Pending>, b: map<NodeId, Pending>)
    requires a.Keys == b.Keys
    requires forall n :: n in a ==> a[n].upload == b[n].upload && a[n].download == b[n].download
    ensures PendingBytes(a) == PendingBytes(b)
    decreases |a|
  {
    if a == map[] {
      assert b == map[];
    } else {
      var n: NodeId :| n in a;
      PendingSame(a - {n}, b - {n});
      PendingWithout(a, n);
      PendingWithout(b, n);
    }
  }

  /**
   * A node that reported is rated at its own bytes, and its sessions change only when it
   * reported connections; a silent node keeps its row.
   */
  ghost predicate RatedBy(before: map<NodeId, NodeRate>, reports: map<NodeId, Pending>, after: map<NodeId, NodeRate>) {
    && after.Keys == before.Keys
    && (forall n :: n in reports && n in before ==>
          && after[n].upload == reports[n].upload && after[n].download == reports[n].download
          && after[n].sessions == (if reports[n].connections != 0 then reports[n].connections else before[n].sessions)
          && after[n].lastReportAt == before[n].lastReportAt)
    && forall n :: n in before && n !in reports ==> after[n] == before[n]
  }

  /** The rates of the given nodes, added up direction by direction. */
  ghost function RateBytes(nodes: map<NodeId, NodeRate>, of: set<NodeId>): Bytes {
    PendingBytes(map n | n in of && n in nodes :: Pending(nodes[n].upload, nodes[n].download, 0))
  }

  ghost function PointBytes(points: seq<Point>): Bytes {
    if points == [] then Bytes(0, 0)
    else PointBytes(points[..|points| - 1]).Plus(Bytes(points[|points| - 1].upload, points[|points| - 1].download))
  }

  lemma PointAdded(points: seq<Point>, point: Point)
    ensures PointBytes(points + [point]) == PointBytes(points).Plus(Bytes(point.upload, point.download))
  {
    assert (points + [point])[..|points|] == points;
  }

  lemma NothingPending()
    ensures PendingBytes(map[]) == Bytes(0, 0)
  {
  }

  // -------------------------------------------------------------- the window

  /** The points from `cutoff` on, oldest first. */
  function Since(points: seq<Point>, cutoff: int): seq<Point> {
    if points == [] then []
    else if points[0].t >= cutoff then [points[0]] + Since(points[1..], cutoff)
    else Since(points[1..], cutoff)
  }

  lemma SinceFirst(first: Point, rest: seq<Point>, cutoff: int)
    ensures Since([first] + rest, cutoff) == (if first.t >= cutoff then [first] else []) + Since(rest, cutoff)
  {
    assert ([first] + rest)[1..] == rest;
  }

  lemma {:induction false} SinceOfJoined(a: seq<Point>, b: seq<Point>, cutoff: int)
    ensures Since(a + b, cutoff) == Since(a, cutoff) + Since(b, cutoff)
  {
    if a == [] {
      assert a + b == b;
      assert Since(a, cutoff) == [];
    } else {
      hide Since;
      SinceOfJoined(a[1..], b, cutoff);
      assert a == [a[0]] + a[1..] && a + b == [a[0]] + (a[1..] + b);
      SinceFirst(a[0], a[1..], cutoff);
      SinceFirst(a[0], a[1..] + b, cutoff);
    }
  }

  lemma {:induction false} SinceEmpty(points: seq<Point>, cutoff: int)
    ensures Since(points, cutoff) == [] <==> forall i :: 0 <= i < |points| ==> points[i].t < cutoff
  {
    if points != [] {
      SinceEmpty(points[1..], cutoff);
      assert forall i :: 1 <= i < |points| ==> points[i] == points[1..][i - 1];
    }
  }

  /**
   * What the buffer dropped costs nothing exactly when all of it is older than the window:
   * only then does filtering the buffer give what filtering all of history would.
   */
  lemma WindowExactly(history: seq<Point>, dropped: nat, cutoff: int)
    requires dropped <= |history|
    ensures Since(history[dropped..], cutoff) == Since(history, cutoff) <==>
              (forall i :: 0 <= i < dropped ==> history[i].t < cutoff)
  {
    assert history == history[..dropped] + history[dropped..];
    SinceOfJoined(history[..dropped], history[dropped..], cutoff);
    SinceEmpty(history[..dropped], cutoff);
    assert forall i :: 0 <= i < dropped ==> history[..dropped][i] == history[i];
  }

  /** The buffer is the end of the history. */
  predicate IsTail(points: seq<Point>, history: seq<Point>) {
    |points| <= |history| && points == history[|history| - |points|..]
  }

  lemma TailGrows(points: seq<Point>, history: seq<Point>, point: Point)
    requires IsTail(points, history)
    ensures IsTail(points + [point], history + [point])
  {
  }

  lemma LastOfTail(points: seq<Point>, history: seq<Point>)
    requires IsTail(points, history) && points != []
    ensures points[|points| - 1] == history[|history| - 1]
  {
  }

  lemma TailShrinks(points: seq<Point>, history: seq<Point>)
    requires IsTail(points, history) && points != []
    ensures IsTail(points[1..], history)
  {
  }

  /** Consecutive ticks are at least one second apart. */
  predicate Spaced(history: seq<Point>) {
    forall i :: 0 < i < |history| ==> history[i - 1].t + 1000 <= history[i].t
  }

  lemma {:induction false} SpacedApart(history: seq<Point>, i: nat, j: nat)
    requires Spaced(history) && i <= j < |history|
    ensures history[i].t + 1000 * (j - i) <= history[j].t
    decreases j - i
  {
    if i < j {
      SpacedApart(history, i, j - 1);
    }
  }

  /** With ticks a second apart, a buffer of `capacity` points never drops one a window needs. */
  lemma WindowCovered(history: seq<Point>, capacity: nat, window: nat, now: int)
    requires Spaced(history) && window < capacity <= |history|
    requires history[|history| - 1].t <= now
    ensures Since(history[|history| - capacity..], now - 1000 * window) == Since(history, now - 1000 * window)
  {
    var dropped := |history| - capacity;
    forall i | 0 <= i < dropped
      ensures history[i].t < now - 1000 * window
    {
      SpacedApart(history, i, |history| - 1);
    }
    WindowExactly(history, dropped, now - 1000 * window);
  }

  // --------------------------------------------------------------- the status

  /** The latest report of any node, as `resolveStatus` folds it from 0. */
  ghost predicate NewestReport(nodes: map<NodeId, NodeRate>, newest: int) {
    && newest >= 0
    && (forall n :: n in nodes ==> nodes[n].lastReportAt <= newest)
    && (newest == 0 || exists n :: n in nodes && nodes[n].lastReportAt == newest)
  }

  /** `mockAllowed`: a development process with the mock gateway switched on. */
  function StatusOf(silent: bool, anyNode: bool, mockAllowed: bool, sawMock: bool, sawReal: bool, total: nat): Status {
    if silent then
      if !anyNode then STALE
      else if mockAllowed && !sawReal then IDLE
      else STALE
    else if sawMock && !sawReal then MOCK
    else if total == 0 then IDLE
    else LIVE
  }

  function Widest(windows: seq<nat>): (w: nat)
    ensures forall i :: 0 <= i < |windows| ==> windows[i] <= w
    ensures w == 0 || w in windows
  {
    if windows == [] then 0
    else Max(windows[|windows| - 1], Widest(windows[..|windows| - 1]))
  }

  class RealtimeAggregator {
    const windows: seq<nat>
    const staleMs: nat
    const mockAllowed: bool

    var points: seq<Point>
    var nodes: map<NodeId, NodeRate>
    var pending: Pending
    var pendingByNode: map<NodeId, Pending>
    var lastTickAt: Option<int>
    var lastIngestAt: Option<int>
    var sawMockFeed: bool
    var sawRealFeed: bool
    var status: Status

    /** Every point since the last reset, and every byte ingested since then. */
    ghost var history: seq<Point>
    ghost var ingested: Bytes

    function Capacity(): nat {
      Max(Widest(windows), 60) + 5
    }

    /** The buffer holds five points more than the widest window, or than a minute if none is wider. */
    lemma CapacityExactly()
      ensures Capacity() >= 65 && forall w :: w in windows ==> Capacity() >= w + 5
      ensures Capacity() == 65 || exists w :: w in windows && Capacity() == w + 5
    {
    }

    ghost predicate Valid()
      reads this
    {
      // The buffer is the end of the history, cut only at its capacity.
      && |points| == Min(|history|, Capacity()) && IsTail(points, history)
      // The total is what the nodes still owe, and no byte is lost or counted twice.
      && PendingBytes(pendingByNode) == Bytes(pending.upload, pending.download)
      && ingested == PointBytes(history).Plus(Bytes(pending.upload, pending.download))
      && (forall i :: 0 <= i < |history| ==> history[i].total == history[i].upload + history[i].download)
      && pendingByNode.Keys <= nodes.Keys
      && (lastIngestAt.None? <==> nodes == map[])
      && (nodes != map[] ==> sawMockFeed || sawRealFeed)
    }

    constructor (windows: seq<nat>, staleSeconds: nat, mockAllowed: bool)
      ensures Valid() && history == [] && ingested == Bytes(0, 0)
      ensures this.windows == windows && staleMs == Max(15, staleSeconds) * 1000 && this.mockAllowed == mockAllowed
      ensures status == STALE
    {
      this.windows := windows;
      this.staleMs := Max(15, staleSeconds) * 1000;
      this.mockAllowed := mockAllowed;
      points, nodes, pending, pendingByNode := [], map[], NOTHING, map[];
      lastTickAt, lastIngestAt := None, None;
      sawMockFeed, sawRealFeed := false, false;
      status := STALE;
      history, ingested := [], Bytes(0, 0);
    }

    method Ingest(batch: Batch)
      requires Valid()
      modifies this
      ensures Valid()
      ensures ingested == old(ingested).Plus(Bytes(batch.upload, batch.download))
      ensures history == old(history) && status == old(status) && lastTickAt == old(lastTickAt)
      ensures pending.upload == old(pending.upload) + batch.upload
      ensures pending.download == old(pending.download) + batch.download
      ensures pending.connections == if batch.connections.Some? then batch.connections.value
                                     else old(pending.connections)
      ensures nodes.Keys == old(nodes.Keys) + {batch.node} && nodes[batch.node].lastReportAt == batch.at
      ensures var before := if batch.node in old(nodes) then old(nodes)[batch.node] else NodeRate(0, 0, 0, 0);
              && nodes[batch.node].upload == before.upload && nodes[batch.node].download == before.download
              && nodes[batch.node].sessions == if batch.sessions.Some? then batch.sessions.value else before.sessions
      ensures forall n :: n in old(nodes) && n != batch.node ==> nodes[n] == old(nodes)[n]
      ensures lastIngestAt == Some(batch.at)
      ensures sawMockFeed == (old(sawMockFeed) || batch.mock) && sawRealFeed == (old(sawRealFeed) || !batch.mock)
    {
      hide PendingBytes, PointBytes, Widest, Capacity, Min, Max, Raised, IsTail;
      lastIngestAt := Some(batch.at);
      if batch.mock {
        sawMockFeed := true;
      } else {
        sawRealFeed := true;
      }
      AddPending(batch);
      ReportNode(batch);
    }

    /** The batch's bytes, owed in all and by its node. */
    method AddPending(batch: Batch)
      requires PendingBytes(pendingByNode) == Bytes(pending.upload, pending.download)
      modifies this`pending, this`pendingByNode, this`ingested
      ensures pending.upload == old(pending.upload) + batch.upload
      ensures pending.download == old(pending.download) + batch.download
      ensures pending.connections == if batch.connections.Some? then batch.connections.value
                                     else old(pending.connections)
      ensures PendingBytes(pendingByNode) == Bytes(pending.upload, pending.download)
      ensures pendingByNode.Keys == old(pendingByNode.Keys) + {batch.node}
      ensures ingested == old(ingested).Plus(Bytes(batch.upload, batch.download))
    {
      hide PendingBytes, Raised;
      pending := Raised(pending, batch);
      var nodePending := Raised(if batch.node in pendingByNode then pendingByNode[batch.node] else NOTHING, batch);
      PendingRaised(pendingByNode, batch.node, nodePending, Bytes(batch.upload, batch.download));
      pendingByNode := pendingByNode[batch.node := nodePending];
      ingested := ingested.Plus(Bytes(batch.upload, batch.download));
    }

    /** The node's report; its rate stays until the next tick. */
    method ReportNode(batch: Batch)
      modifies this`nodes
      ensures nodes.Keys == old(nodes.Keys) + {batch.node} && nodes[batch.node].lastReportAt == batch.at
      ensures var before := if batch.node in old(nodes) then old(nodes)[batch.node] else NodeRate(0, 0, 0, 0);
              && nodes[batch.node].upload == before.upload && nodes[batch.node].download == before.download
              && nodes[batch.node].sessions == if batch.sessions.Some? then batch.sessions.value else before.sessions
      ensures forall n :: n in old(nodes) && n != batch.node ==> nodes[n] == old(nodes)[n]
    {
      var existing := if batch.node in nodes then nodes[batch.node] else NodeRate(0, 0, 0, 0);
      nodes := nodes[batch.node := NodeRate(existing.upload, existing.download,
        if batch.sessions.Some? then batch.sessions.value else existing.sessions, batch.at)];
    }

    method Tick(now: int)
      requires Valid()
      modifies this
      ensures Valid()
      ensures history == old(history) + [Point(now, old(pending.upload), old(pending.download),
                                               old(pending.upload) + old(pending.download), old(pending.connections))]
      ensures ingested == old(ingested)
      ensures pending == Pending(0, 0, 0) && pendingByNode == map[]
      ensures lastIngestAt == old(lastIngestAt)
      ensures RatedBy(old(nodes), old(pendingByNode), nodes)
      // The rates of the reporting nodes add up to the point, direction by direction.
      ensures RateBytes(nodes, old(pendingByNode.Keys))
              == Bytes(points[|points| - 1].upload, points[|points| - 1].download)
      ensures sawMockFeed == old(sawMockFeed) && sawRealFeed == old(sawRealFeed)
      ensures lastTickAt == Some(now)
      ensures exists newest :: NewestReport(nodes, newest)
                && status == StatusOf(lastIngestAt.None? || now - newest > staleMs, nodes != map[], mockAllowed,
                                      sawMockFeed, sawRealFeed, old(pending.upload) + old(pending.download))
    {
      hide PendingBytes, PointBytes, RateBytes, RatedBy, Widest, Capacity, Min, Max, StatusOf, NewestReport, IsTail;
      PointAdded(history,
                 Point(now, pending.upload, pending.download, pending.upload + pending.download, pending.connections));
      NothingPending();
      var uploadBps, downloadBps := pending.upload, pending.download;
      var totalBps := uploadBps + downloadBps;
      var connections := pending.connections;

      RateNodes();
      Push(Point(now, uploadBps, downloadBps, totalBps, connections));

      pending := NOTHING;
      pendingByNode := map[];
      lastTickAt := Some(now);
      status := ResolveStatus(totalBps, now);
    }

    /** Appends the point and drops the oldest ones beyond the capacity. */
    method Push(point: Point)
      requires |points| == Min(|history|, Capacity()) && IsTail(points, history)
      modifies this`points, this`history
      ensures history == old(history) + [point]
      ensures |points| == Min(|history|, Capacity()) && IsTail(points, history)
      ensures points != [] && points[|points| - 1] == point
    {
      hide Widest, IsTail;
      TailGrows(points, history, point);
      points := points + [point];
      history := history + [point];
      var maxWindow := Max(Widest(windows), 60);
      while |points| > maxWindow + 5
        invariant maxWindow + 5 <= |points| || |points| == |history|
        invariant 0 < |points| <= |history| && IsTail(points, history)
        invariant history == old(history) + [point]
        decreases |points|
      {
        TailShrinks(points, history);
        points := points[1..];
      }
      LastOfTail(points, history);
    }

    /** The loop over the pending nodes, in whatever order the map gives them. */
    method RateNodes()
      requires pendingByNode.Keys <= nodes.Keys
      modifies this`nodes
      ensures nodes.Keys == old(nodes.Keys) && RatedBy(old(nodes), pendingByNode, nodes)
      ensures RateBytes(nodes, pendingByNode.Keys) == PendingBytes(pendingByNode)
    {
      var left := pendingByNode.Keys;
      ghost var done: set<NodeId> := {};
      while left != {}
        invariant left + done == pendingByNode.Keys && left !! done
        invariant nodes.Keys == old(nodes.Keys)
        invariant forall n :: n in nodes && n !in done ==> nodes[n] == old(nodes)[n]
        invariant forall n :: n in done ==>
                    && nodes[n].upload == pendingByNode[n].upload && nodes[n].download == pendingByNode[n].download
                    && nodes[n].sessions == (if pendingByNode[n].connections != 0
                                             then pendingByNode[n].connections else old(nodes[n].sessions))
                    && nodes[n].lastReportAt == old(nodes[n].lastReportAt)
        decreases left
      {
        var nodeId :| nodeId in left;
        left, done := left - {nodeId}, done + {nodeId};
        var p := pendingByNode[nodeId];
        var record := nodes[nodeId];
        record := record.(upload := p.upload, download := p.download);
        if p.connections != 0 {
          record := record.(sessions := p.connections);
        }
        nodes := nodes[nodeId := record];
      }
      PendingSame(map n | n in pendingByNode && n in nodes :: Pending(nodes[n].upload, nodes[n].download, 0),
                  pendingByNode);
    }

    method ResolveStatus(totalBps: nat, now: int) returns (result: Status)
      ensures exists newest :: NewestReport(nodes, newest)
                && result == StatusOf(lastIngestAt.None? || now - newest > staleMs, nodes != map[], mockAllowed,
                                      sawMockFeed, sawRealFeed, totalBps)
    {
      var newestReport := 0;
      var left := nodes.Keys;
      while left != {}
        invariant left <= nodes.Keys && newestReport >= 0
        invariant forall n :: n in nodes && n !in left ==> nodes[n].lastReportAt <= newestReport
        invariant newestReport == 0 || exists n :: n in nodes && nodes[n].lastReportAt == newestReport
        decreases left
      {
        var n :| n in left;
        left := left - {n};
        newestReport := Max(newestReport, nodes[n].lastReportAt);
      }
      assert NewestReport(nodes, newestReport);

      var neverReported := lastIngestAt.None?;
      var allSilent := neverReported || now - newestReport > staleMs;
      if allSilent {
        if nodes == map[] {
          return STALE;
        }
        if mockAllowed && !sawRealFeed {
          return IDLE;
        }
        return STALE;
      }
      if sawMockFeed && !sawRealFeed {
        return MOCK;
      }
      if totalBps == 0 {
        return IDLE;
      }
      return LIVE;
    }

    /**
     * The window of a chart. With ticks a second apart it is what filtering every point ever
     * produced would give, for any window up to the widest.
     */
    method Snapshot(windowSeconds: nat, now: int) returns (window: seq<Point>)
      requires Valid()
      ensures window == Since(points, now - windowSeconds * 1000)
      ensures Spaced(history) && (history == [] || history[|history| - 1].t <= now) ==>
                windowSeconds <= Max(Widest(windows), 60) ==>
                window == Since(history, now - windowSeconds * 1000)
      ensures window == Since(history, now - windowSeconds * 1000) <==>
                (forall i :: 0 <= i < |history| - |points| ==> history[i].t < now - windowSeconds * 1000)
    {
      hide Since, Spaced, Widest, PendingBytes, PointBytes;
      var cutoff := now - windowSeconds * 1000;
      WindowExactly(history, |history| - |points|, cutoff);
      if Spaced(history) && |history| > |points| && history[|history| - 1].t <= now && windowSeconds < Capacity() {
        WindowCovered(history, Capacity(), windowSeconds, now);
      }
      window := Since(points, cutoff);
    }

    /** The first frame of a stream shows the newest point, when the widest window still has it. */
    method Hello(now: int) returns (frame: Point, shown: Status)
      requires Valid()
      ensures shown == status
      ensures frame.t == now
      ensures var window := Since(points, now - Widest(windows) * 1000);
              frame == if window == [] then Point(now, 0, 0, 0, 0) else window[|window| - 1].(t := now)
    {
      var recent := Snapshot(Widest(windows), now);
      if recent == [] {
        frame := Point(now, 0, 0, 0, 0);
      } else {
        frame := recent[|recent| - 1].(t := now);
      }
      shown := status;
    }

    method Reset()
      modifies this
      ensures Valid() && history == [] && ingested == Bytes(0, 0) && status == STALE
    {
      points, nodes, pendingByNode, pending := [], map[], map[], NOTHING;
      lastTickAt, lastIngestAt := None, None;
      sawMockFeed, sawRealFeed := false, false;
      status := STALE;
      history, ingested := [], Bytes(0, 0);
    }
  }

  /**
   * What a status claims. LIVE and MOCK need a report within the freshness window, and a
   * feed that saw only the mock is never LIVE. IDLE needs no more than such a report: a
   * second in which no gateway reported shows 0 bps as IDLE, like one in which a gateway
   * measured zero.
   */
  lemma StatusIsHonest(nodes: map<NodeId, NodeRate>, newest: int, now: int, staleMs: nat, mockAllowed: bool,
                       sawMock: bool, sawReal: bool, total: nat)
    requires NewestReport(nodes, newest) && now > staleMs && (nodes != map[] ==> sawMock || sawReal)
    ensures var shown :=
              StatusOf(nodes == map[] || now - newest > staleMs, nodes != map[], mockAllowed, sawMock, sawReal, total);
            var recent := exists n :: n in nodes && now - nodes[n].lastReportAt <= staleMs;
            && (shown == LIVE <==> recent && sawReal && total > 0)
            && (shown == MOCK <==> recent && !sawReal)
            && (shown == IDLE <==>
                  (recent && sawReal && total == 0) || (!recent && nodes != map[] && mockAllowed && !sawReal))
  {
    var recent := exists n :: n in nodes && now - nodes[n].lastReportAt <= staleMs;
    if now - newest <= staleMs {
      var n :| n in nodes && nodes[n].lastReportAt == newest;
      assert recent;
    } else {
      assert !recent;
    }
  }
}
