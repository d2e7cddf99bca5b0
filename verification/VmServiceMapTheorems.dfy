/** What the finished call graph promises, for every resolver and all samples. */
module VmServiceMapTheorems {
  import opened Collections
  import opened VmDestinations
  import opened VmServiceMap

  ghost predicate Complete(t: Traffic) {
    |t.l7| == |L7_PROTOCOLS|
  }

  lemma ProtocolsAreNotTcp(i: nat)
    requires i < |L7_PROTOCOLS|
    ensures L7_PROTOCOLS[i] != "tcp"
  {
    assert |L7_PROTOCOLS[i]| != 3;
  }

  /** The passes over application series carry the protocol of the series. */
  lemma {:induction false} L7PassProtocol(t: Traffic, n: nat, i: nat)
    requires Complete(t) && n <= |t.l7| && i < |L7Passes(t, n)|
    ensures L7Passes(t, n)[i].feed.protocol in L7_PROTOCOLS && L7Passes(t, n)[i].feed.protocol != "tcp"
    ensures CountsRequests(L7Passes(t, n)[i].effect) ==> exists j :: 0 <= j < n && L7Passes(t, n)[i].feed == RequestFeed(t, j)
  {
    if i < |L7Passes(t, n - 1)| {
      L7PassProtocol(t, n - 1, i);
    } else {
      ProtocolsAreNotTcp(n - 1);
      assert L7Passes(t, n)[i] == ProtocolPasses(t, n - 1)[i - |L7Passes(t, n - 1)|];
    }
  }

  lemma TouchesProtocol(to: Targets, f: Feed, k: EdgeKey)
    requires Touches(to, f, |f.samples|, k)
    ensures f.protocol == k.protocol
    ensures k.pair !in f.blocked
  {
  }

  /** Every edge comes from a pass over samples of its protocol. */
  lemma PassOf(to: Targets, t: Traffic, m: ServiceMap, k: EdgeKey) returns (p: Pass)
    requires Complete(t) && Maps(to, t, m) && k in m.edges
    ensures p in Passes(t, m.covered) && p.feed.protocol == k.protocol && k.pair !in p.feed.blocked
  {
    var passes := Passes(t, m.covered);
    var i :| 0 <= i < |passes| && Touches(to, passes[i].feed, |passes[i].feed.samples|, k);
    p := passes[i];
    TouchesProtocol(to, p.feed, k);
  }

  lemma PassProtocol(t: Traffic, covered: set<Pair>, p: Pass)
    requires Complete(t) && p in Passes(t, covered)
    ensures p.feed.protocol == "tcp" || p.feed.protocol in L7_PROTOCOLS
    ensures p.feed.protocol == "tcp" ==> p.feed.blocked == covered
  {
    var l7, tcp := L7Passes(t, |t.l7|), TcpPasses(t, covered);
    if p in l7 {
      var i :| 0 <= i < |l7| && l7[i] == p;
      L7PassProtocol(t, |t.l7|, i);
    } else {
      assert p in tcp;
      HttpIsFirst();
    }
  }

  lemma HttpIsFirst()
    ensures "http" in L7_PROTOCOLS && "http" != "tcp"
  {
    assert L7_PROTOCOLS[0] == "http";
    assert |"http"| != |"tcp"|;
  }

  /** A tcp edge exists only where no application request was seen. */
  lemma TcpEdgeUncovered(to: Targets, t: Traffic, m: ServiceMap, k: EdgeKey)
    requires Complete(t) && Maps(to, t, m) && k in m.edges && k.protocol == "tcp"
    ensures k.pair !in m.covered
  {
    var p := PassOf(to, t, m, k);
    PassProtocol(t, m.covered, p);
  }

  lemma {:induction false} TotalOfPositive(to: Targets, f: Feed, n: nat, k: EdgeKey)
    requires n <= |f.samples| && f.positive
    ensures Total(to, f, n, k) >= 0.0
    ensures Total(to, f, n, k) > 0.0 <==> Touches(to, f, n, k)
  {
    if n > 0 {
      TotalOfPositive(to, f, n - 1, k);
      assert Touches(to, f, n, k) <==> Touches(to, f, n - 1, k) || Hits(to, f, f.samples[n - 1], k);
    }
  }

  lemma ProtocolsDiffer(i: nat, j: nat)
    requires i < |L7_PROTOCOLS| && j < |L7_PROTOCOLS| && i != j
    ensures L7_PROTOCOLS[i] != L7_PROTOCOLS[j]
  {
    // Length and first two letters tell all twelve apart.
    var a, b := L7_PROTOCOLS[i], L7_PROTOCOLS[j];
    assert |a| != |b| || a[0] != b[0] || a[1] != b[1];
  }

  /** What is summed up: requests, or errors. */
  datatype Measure = Requests | Errors

  predicate Adds(effect: Effect, of: Measure) {
    if of.Requests? then CountsRequests(effect) else effect.AddErrors?
  }

  function TotalOf(to: Targets, passes: seq<Pass>, of: Measure, k: EdgeKey): (r: real) {
    if of.Requests? then RequestTotal(to, passes, k) else ErrorTotal(to, passes, k)
  }

  ghost function FeedTotal(to: Targets, f: Feed, k: EdgeKey): real {
    Total(to, f, |f.samples|, k)
  }

  ghost function PassTotal(to: Targets, p: Pass, of: Measure, k: EdgeKey): real {
    if Adds(p.effect, of) then FeedTotal(to, p.feed, k) else 0.0
  }

  lemma {:induction false} TotalAppend(to: Targets, a: seq<Pass>, b: seq<Pass>, of: Measure, k: EdgeKey)
    ensures TotalOf(to, a + b, of, k) == TotalOf(to, a, of, k) + TotalOf(to, b, of, k)
  {
    if b == [] {
      assert a + b == a;
    } else {
      assert (a + b)[..|a + b| - 1] == a + b[..|b| - 1];
      TotalAppend(to, a, b[..|b| - 1], of, k);
    }
  }

  lemma OtherProtocol(to: Targets, f: Feed, k: EdgeKey)
    requires f.protocol != k.protocol
    ensures FeedTotal(to, f, k) == 0.0
  {
    UntouchedTotal(to, f, |f.samples|, k);
  }

  lemma ThreePasses(to: Targets, a: Pass, b: Pass, c: Pass, of: Measure, k: EdgeKey)
    ensures TotalOf(to, [a, b, c], of, k) == PassTotal(to, a, of, k) + PassTotal(to, b, of, k) + PassTotal(to, c, of, k)
  {
    assert [a, b, c] == [a] + [b] + [c];
    TotalAppend(to, [a] + [b], [c], of, k);
    TotalAppend(to, [a], [b], of, k);
    forall p: Pass ensures TotalOf(to, [p], of, k) == PassTotal(to, p, of, k) {
      assert [p][..0] == [];
    }
  }

  /** The series of protocol i that adds to the measure. */
  function MeasureFeed(t: Traffic, i: nat, of: Measure): (f: Feed)
    requires i < |t.l7| == |L7_PROTOCOLS|
  {
    if of.Requests? then RequestFeed(t, i) else FailedFeed(t, i)
  }

  lemma ProtocolTotal(to: Targets, t: Traffic, i: nat, of: Measure, k: EdgeKey)
    requires Complete(t) && i < |t.l7|
    ensures TotalOf(to, ProtocolPasses(t, i), of, k) == FeedTotal(to, MeasureFeed(t, i, of), k)
  {
    var p := ProtocolPasses(t, i);
    assert p == [p[0], p[1], p[2]];
    ThreePasses(to, p[0], p[1], p[2], of, k);
  }

  lemma {:induction false} L7Total(to: Targets, t: Traffic, n: nat, of: Measure, i: nat, k: EdgeKey)
    requires Complete(t) && n <= |t.l7| && i < |t.l7| && k.protocol == L7_PROTOCOLS[i]
    ensures TotalOf(to, L7Passes(t, n), of, k) == if i < n then FeedTotal(to, MeasureFeed(t, i, of), k) else 0.0
  {
    if n > 0 {
      L7Total(to, t, n - 1, of, i, k);
      TotalAppend(to, L7Passes(t, n - 1), ProtocolPasses(t, n - 1), of, k);
      ProtocolTotal(to, t, n - 1, of, k);
      if i != n - 1 {
        ProtocolsDiffer(i, n - 1);
        OtherProtocol(to, MeasureFeed(t, n - 1, of), k);
      }
    }
  }

  lemma {:induction false} L7NoTcp(to: Targets, t: Traffic, n: nat, of: Measure, k: EdgeKey)
    requires Complete(t) && n <= |t.l7| && k.protocol == "tcp"
    ensures TotalOf(to, L7Passes(t, n), of, k) == 0.0
  {
    if n > 0 {
      L7NoTcp(to, t, n - 1, of, k);
      TotalAppend(to, L7Passes(t, n - 1), ProtocolPasses(t, n - 1), of, k);
      ProtocolTotal(to, t, n - 1, of, k);
      ProtocolsAreNotTcp(n - 1);
      OtherProtocol(to, MeasureFeed(t, n - 1, of), k);
    }
  }

  lemma TcpPart(to: Targets, t: Traffic, covered: set<Pair>, of: Measure, k: EdgeKey)
    requires Complete(t)
    ensures var p := TcpPasses(t, covered);
            TotalOf(to, Passes(t, covered), of, k) ==
            TotalOf(to, L7Passes(t, |t.l7|), of, k) + PassTotal(to, p[0], of, k) + PassTotal(to, p[1], of, k) + PassTotal(to, p[2], of, k)
  {
    var p := TcpPasses(t, covered);
    TotalAppend(to, L7Passes(t, |t.l7|), p, of, k);
    ThreePasses(to, p[0], p[1], p[2], of, k);
    assert p == [p[0], p[1], p[2]];
  }

  /** An application edge counts exactly the requests of its protocol that name it. */
  lemma ApplicationEdgeRequests(to: Targets, t: Traffic, m: ServiceMap, i: nat, k: EdgeKey)
    requires Complete(t) && Maps(to, t, m) && i < |t.l7| && k in m.edges && k.protocol == L7_PROTOCOLS[i]
    ensures m.edges[k].requests == FeedTotal(to, RequestFeed(t, i), k)
  {
    assert BuiltEdge(to, Passes(t, m.covered), k, m.edges[k]);
    TcpPart(to, t, m.covered, Requests, k);
    L7Total(to, t, |t.l7|, Requests, i, k);
    ProtocolsAreNotTcp(i);
    OtherProtocol(to, ConnectFeed(t, m.covered), k);
  }

  /** Its errors are the failed requests of its protocol that name it and, for http, the gRPC failures. */
  lemma ApplicationEdgeErrors(to: Targets, t: Traffic, m: ServiceMap, i: nat, k: EdgeKey)
    requires Complete(t) && Maps(to, t, m) && i < |t.l7| && k in m.edges && k.protocol == L7_PROTOCOLS[i]
    ensures m.edges[k].errors == FeedTotal(to, FailedFeed(t, i), k) + FeedTotal(to, GrpcFeed(t), k)
  {
    assert BuiltEdge(to, Passes(t, m.covered), k, m.edges[k]);
    TcpPart(to, t, m.covered, Errors, k);
    L7Total(to, t, |t.l7|, Errors, i, k);
    ProtocolsAreNotTcp(i);
    OtherProtocol(to, FailedConnectFeed(t, m.covered), k);
  }

  /** A tcp edge counts exactly the connects that name it and whose pair is uncovered. */
  lemma TcpEdgeRequests(to: Targets, t: Traffic, m: ServiceMap, k: EdgeKey)
    requires Complete(t) && Maps(to, t, m) && k in m.edges && k.protocol == "tcp"
    ensures m.edges[k].requests == FeedTotal(to, ConnectFeed(t, m.covered), k)
  {
    assert BuiltEdge(to, Passes(t, m.covered), k, m.edges[k]);
    TcpPart(to, t, m.covered, Requests, k);
    L7NoTcp(to, t, |t.l7|, Requests, k);
  }

  lemma TcpEdgeErrors(to: Targets, t: Traffic, m: ServiceMap, k: EdgeKey)
    requires Complete(t) && Maps(to, t, m) && k in m.edges && k.protocol == "tcp"
    ensures m.edges[k].errors == FeedTotal(to, FailedConnectFeed(t, m.covered), k)
  {
    assert BuiltEdge(to, Passes(t, m.covered), k, m.edges[k]);
    TcpPart(to, t, m.covered, Errors, k);
    L7NoTcp(to, t, |t.l7|, Errors, k);
    HttpIsFirst();
    OtherProtocol(to, GrpcFeed(t), k);
  }

  lemma EdgeProtocols(to: Targets, t: Traffic, m: ServiceMap, k: EdgeKey)
    requires Complete(t) && Maps(to, t, m) && k in m.edges
    ensures k.protocol == "tcp" || exists i :: 0 <= i < |L7_PROTOCOLS| && L7_PROTOCOLS[i] == k.protocol
  {
    var p := PassOf(to, t, m, k);
    PassProtocol(t, m.covered, p);
  }

  /** No source and destination have both a tcp edge and an application edge with requests. */
  lemma NoTcpBesideApplication(to: Targets, t: Traffic, m: ServiceMap, j: EdgeKey, k: EdgeKey)
    requires Complete(t) && Maps(to, t, m) && j in m.edges && k in m.edges
    requires j.pair == k.pair && j.protocol == "tcp" && k.protocol != "tcp"
    ensures m.edges[k].requests == 0.0
  {
    TcpEdgeUncovered(to, t, m, j);
    EdgeProtocols(to, t, m, k);
    var i :| 0 <= i < |L7_PROTOCOLS| && L7_PROTOCOLS[i] == k.protocol;
    ApplicationEdgeRequests(to, t, m, i, k);
    var f := RequestFeed(t, i);
    TotalOfPositive(to, f, |f.samples|, k);
    TouchedIsCovered(to, t, i, k);
  }

  lemma TouchedIsCovered(to: Targets, t: Traffic, i: nat, k: EdgeKey)
    requires Complete(t) && i < |t.l7|
    ensures Touches(to, RequestFeed(t, i), |t.l7[i].requests|, k) ==> CoveredBy(to, t, |t.l7|, k.pair)
  {
    var f := RequestFeed(t, i);
    if Touches(to, f, |f.samples|, k) {
      var n :| 0 <= n < |f.samples| && Hits(to, f, f.samples[n], k);
      assert CoveredIn(to, t, i, k.pair);
    }
  }

  // ----- Latency -----

  lemma {:induction false} NoHitElsewhere(to: Targets, f: Feed, n: nat, k: EdgeKey)
    requires n <= |f.samples| && f.protocol != k.protocol
    ensures LastHit(to, f, n, k) == None
  {
    if n > 0 {
      NoHitElsewhere(to, f, n - 1, k);
    }
  }

  /** The pass leaves the latency of key k alone. */
  ghost predicate Quiet(pass: Pass, k: EdgeKey) {
    !SetsLatency(pass.effect) || pass.feed.protocol != k.protocol
  }

  lemma QuietLatency(to: Targets, passes: seq<Pass>, a: Pass, b: Pass, c: Pass, k: EdgeKey)
    requires Quiet(a, k) && Quiet(b, k)
    ensures Latency(to, passes + [a, b, c], k) == PassLatency(to, c, k, Latency(to, passes, k))
    ensures Quiet(c, k) ==> Latency(to, passes + [a, b, c], k) == Latency(to, passes, k)
  {
    assert passes + [a, b, c] == passes + [a] + [b] + [c];
    forall p: Pass, x: real | Quiet(p, k) ensures PassLatency(to, p, k, x) == x {
      if SetsLatency(p.effect) { NoHitElsewhere(to, p.feed, |p.feed.samples|, k); }
    }
    LatencyAfter(to, passes + [a] + [b], c, k);
    LatencyAfter(to, passes + [a], b, k);
    LatencyAfter(to, passes, a, k);
  }

  /** The last counted sample of a series decides: the durations of its identity over its count. */
  ghost function SeriesLatency(to: Targets, f: Feed, durations: seq<Sample>, k: EdgeKey): real
    requires f.positive
  {
    var last := LastHit(to, f, |f.samples|, k);
    if last.None? then 0.0
    else IdentitySum(durations, |durations|, k.(protocol := "")) / f.samples[last.value].value * 1000.0
  }

  lemma PassGivesLatency(to: Targets, pass: Pass, durations: seq<Sample>, k: EdgeKey)
    requires pass.feed.positive
    requires pass.effect == SetLatency(Index(durations, |durations|)) || pass.effect == AddConnects(Index(durations, |durations|))
    ensures PassLatency(to, pass, k, 0.0) == SeriesLatency(to, pass.feed, durations, k)
  {
    var last := LastHit(to, pass.feed, |pass.feed.samples|, k);
    if last.Some? {
      IndexSums(durations, |durations|, pass.feed.samples[last.value]);
    }
  }

  /** One protocol's passes set the latency of the edges of that protocol only. */
  lemma ProtocolLatency(to: Targets, t: Traffic, j: nat, passes: seq<Pass>, k: EdgeKey)
    requires Complete(t) && j < |t.l7|
    ensures k.protocol != L7_PROTOCOLS[j] ==> Latency(to, passes + ProtocolPasses(t, j), k) == Latency(to, passes, k)
    ensures k.protocol == L7_PROTOCOLS[j] && Latency(to, passes, k) == 0.0 ==>
              Latency(to, passes + ProtocolPasses(t, j), k) == SeriesLatency(to, DurationFeed(t, j), t.l7[j].durationSum, k)
  {
    var p := ProtocolPasses(t, j);
    assert p == [p[0], p[1], p[2]];
    QuietLatency(to, passes, p[0], p[1], p[2], k);
    PassGivesLatency(to, p[2], t.l7[j].durationSum, k);
  }

  lemma {:induction false} L7Latency(to: Targets, t: Traffic, n: nat, i: nat, k: EdgeKey)
    requires Complete(t) && n <= |t.l7| && i < |t.l7| && k.protocol == L7_PROTOCOLS[i]
    ensures Latency(to, L7Passes(t, n), k) == if i < n then SeriesLatency(to, DurationFeed(t, i), t.l7[i].durationSum, k) else 0.0
  {
    if n > 0 {
      L7Latency(to, t, n - 1, i, k);
      if n - 1 != i { ProtocolsDiffer(n - 1, i); }
      ProtocolLatency(to, t, n - 1, L7Passes(t, n - 1), k);
    }
  }

  lemma {:induction false} L7NoTcpLatency(to: Targets, t: Traffic, n: nat, k: EdgeKey)
    requires Complete(t) && n <= |t.l7| && k.protocol == "tcp"
    ensures Latency(to, L7Passes(t, n), k) == 0.0
  {
    if n > 0 {
      L7NoTcpLatency(to, t, n - 1, k);
      ProtocolsAreNotTcp(n - 1);
      ProtocolLatency(to, t, n - 1, L7Passes(t, n - 1), k);
    }
  }

  /** The latency of an application edge is that of its protocol's duration series, in every row. */
  lemma ApplicationEdgeLatency(to: Targets, t: Traffic, m: ServiceMap, i: nat, k: EdgeKey)
    requires Complete(t) && Maps(to, t, m) && i < |t.l7| && k in m.edges && k.protocol == L7_PROTOCOLS[i]
    ensures m.edges[k].latencyMs == SeriesLatency(to, DurationFeed(t, i), t.l7[i].durationSum, k)
    ensures forall row :: row in m.rows && row.key == k ==> row.edge.latencyMs == m.edges[k].latencyMs
  {
    var p := TcpPasses(t, m.covered);
    assert p == [p[0], p[1], p[2]];
    ProtocolsAreNotTcp(i);
    QuietLatency(to, L7Passes(t, |t.l7|), p[0], p[1], p[2], k);
    L7Latency(to, t, |t.l7|, i, k);
    assert BuiltEdge(to, Passes(t, m.covered), k, m.edges[k]);
    RowLatency(to, t, m, k);
  }

  lemma TcpPassesLatency(to: Targets, t: Traffic, covered: set<Pair>, k: EdgeKey)
    requires Complete(t) && k.protocol == "tcp"
    ensures Latency(to, Passes(t, covered), k) == SeriesLatency(to, ConnectFeed(t, covered), t.connectTime, k)
  {
    var p, l7 := TcpPasses(t, covered), L7Passes(t, |t.l7|);
    assert Latency(to, l7 + [p[0]], k) == 0.0 by {
      L7NoTcpLatency(to, t, |t.l7|, k);
      LatencyAfter(to, l7, p[0], k);
    }
    assert Latency(to, l7 + [p[0]] + [p[1]], k) == SeriesLatency(to, ConnectFeed(t, covered), t.connectTime, k) by {
      LatencyAfter(to, l7 + [p[0]], p[1], k);
      PassGivesLatency(to, p[1], t.connectTime, k);
    }
    LatencyAfter(to, l7 + [p[0]] + [p[1]], p[2], k);
    assert Passes(t, covered) == l7 + [p[0]] + [p[1]] + [p[2]];
  }

  /** The latency of a tcp edge is that of the uncovered connects, in every row. */
  lemma TcpEdgeLatency(to: Targets, t: Traffic, m: ServiceMap, k: EdgeKey)
    requires Complete(t) && Maps(to, t, m) && k in m.edges && k.protocol == "tcp"
    ensures m.edges[k].latencyMs == SeriesLatency(to, ConnectFeed(t, m.covered), t.connectTime, k)
    ensures forall row :: row in m.rows && row.key == k ==> row.edge.latencyMs == m.edges[k].latencyMs
  {
    TcpPassesLatency(to, t, m.covered, k);
    assert BuiltEdge(to, Passes(t, m.covered), k, m.edges[k]);
    RowLatency(to, t, m, k);
  }

  lemma RowLatency(to: Targets, t: Traffic, m: ServiceMap, k: EdgeKey)
    requires Complete(t) && Maps(to, t, m) && k in m.edges
    ensures forall row :: row in m.rows && row.key == k ==> row.edge.latencyMs == m.edges[k].latencyMs
  {
    assert m.placed[k].latencyMs == m.edges[k].latencyMs;
  }

  // ----- Rows -----

  /** Rows carry the rounded totals of their edge. */
  lemma RowOf(to: Targets, t: Traffic, m: ServiceMap, k: EdgeKey)
    requires Complete(t) && Maps(to, t, m) && k in m.edges && m.edges[k].requests > 0.0
    ensures Row(k, Rounded(m.placed[k])) in m.rows
    ensures Rounded(m.placed[k]).requests == WholeCount(m.edges[k].requests) >= 1.0
  {
  }

  ghost predicate CarriesBytes(t: Traffic, m: ServiceMap, p: Pair, row: Row) {
    && row.key.pair == p
    && row.edge.bytesSent == Round(PairSum(t.bytesSent, |t.bytesSent|, p))
    && row.edge.bytesReceived == Round(PairSum(t.bytesReceived, |t.bytesReceived|, p))
    && forall other :: other in m.rows && other.key.pair == p && other != row ==> Lighter(other, row)
  }

  ghost predicate Lighter(other: Row, row: Row) {
    other.edge.bytesSent == 0.0 && other.edge.bytesReceived == 0.0 && other.edge.requests <= row.edge.requests
  }

  /** When some edge of a pair has requests, exactly one emitted row of the pair carries the byte
      totals of the pair, the others carry none, and no row of the pair has more requests. */
  lemma BytesOncePerPair(to: Targets, t: Traffic, m: ServiceMap, k: EdgeKey)
    requires Complete(t) && Maps(to, t, m) && k in m.edges && m.edges[k].requests > 0.0
    ensures exists row :: row in m.rows && CarriesBytes(t, m, k.pair, row)
  {
    var b := m.best[k.pair];
    RowOf(to, t, m, b);
    var row := Row(b, Rounded(m.placed[b]));
    forall other | other in m.rows && other.key.pair == k.pair && other != row ensures Lighter(other, row) {
      OtherIsLighter(to, t, m, other);
    }
    assert CarriesBytes(t, m, k.pair, row);
  }

  lemma OtherIsLighter(to: Targets, t: Traffic, m: ServiceMap, other: Row)
    requires Complete(t) && Maps(to, t, m) && other in m.rows && other.key != m.best[other.key.pair]
    ensures var b := m.best[other.key.pair]; Lighter(other, Row(b, Rounded(m.placed[b])))
  {
    var b := m.best[other.key.pair];
    assert m.placed[other.key] == m.edges[other.key] && m.placed[b].requests == m.edges[b].requests;
    assert BuiltEdge(to, Passes(t, m.covered), other.key, m.edges[other.key]);
    RoundedLighter(other.key, m.placed[other.key], b, m.placed[b]);
  }

  lemma RoundedLighter(k: EdgeKey, e: Edge, b: EdgeKey, best: Edge)
    requires e.bytesSent == 0.0 && e.bytesReceived == 0.0 && e.requests <= best.requests
    ensures Lighter(Row(k, Rounded(e)), Row(b, Rounded(best)))
  {
    assert Round(0.0) == 0.0;
    WholeCountMonotone(e.requests, best.requests);
  }

  lemma FloorMonotone(x: real, y: real)
    requires x <= y
    ensures x.Floor <= y.Floor
  {
  }

  lemma WholeCountMonotone(a: real, b: real)
    requires a <= b
    ensures WholeCount(a) <= WholeCount(b)
  {
    if a > 0.0 {
      FloorMonotone(a + 0.5, b + 0.5);
    }
  }

  /** Every application request sample that draws an edge is in the sum of exactly its own edge,
      and that edge is emitted with the rounded sum, at least one. */
  lemma ApplicationSampleCounted(to: Targets, t: Traffic, m: ServiceMap, i: nat, n: nat)
    requires Complete(t) && Maps(to, t, m) && i < |t.l7| && n < |t.l7[i].requests|
    requires t.l7[i].requests[n].value > 0.0 && Draws(to, t.l7[i].requests[n])
    ensures var k := EdgeKeyOf(t.l7[i].requests[n], L7_PROTOCOLS[i]);
            && k in m.edges && m.edges[k].requests == FeedTotal(to, RequestFeed(t, i), k)
            && exists row :: row in m.rows && row.key == k && row.edge.requests == WholeCount(m.edges[k].requests) >= 1.0
  {
    var f := RequestFeed(t, i);
    var k := EdgeKeyOf(f.samples[n], f.protocol);
    assert Hits(to, f, f.samples[n], k);
    RequestPassListed(t, |t.l7|, i);
    ReachedBy(to, t, m, Pass(f, AddRequests), k);
    ApplicationEdgeRequests(to, t, m, i, k);
    TotalOfPositive(to, f, |f.samples|, k);
    RowOf(to, t, m, k);
  }

  /** The same for a connect whose pair saw no application request. */
  lemma ConnectSampleCounted(to: Targets, t: Traffic, m: ServiceMap, n: nat)
    requires Complete(t) && Maps(to, t, m) && n < |t.connects|
    requires t.connects[n].value > 0.0 && Draws(to, t.connects[n]) && PairOf(t.connects[n]) !in m.covered
    ensures var k := EdgeKeyOf(t.connects[n], "tcp");
            && k in m.edges && m.edges[k].requests == FeedTotal(to, ConnectFeed(t, m.covered), k)
            && exists row :: row in m.rows && row.key == k && row.edge.requests == WholeCount(m.edges[k].requests) >= 1.0
  {
    var f := ConnectFeed(t, m.covered);
    var k := EdgeKeyOf(f.samples[n], "tcp");
    assert Hits(to, f, f.samples[n], k);
    var pass := TcpPasses(t, m.covered)[1];
    assert Passes(t, m.covered)[|L7Passes(t, |t.l7|)| + 1] == pass;
    ReachedBy(to, t, m, pass, k);
    TcpEdgeRequests(to, t, m, k);
    TotalOfPositive(to, f, |f.samples|, k);
    RowOf(to, t, m, k);
  }

  lemma ReachedBy(to: Targets, t: Traffic, m: ServiceMap, pass: Pass, k: EdgeKey)
    requires Complete(t) && Maps(to, t, m) && pass in Passes(t, m.covered) && Touches(to, pass.feed, |pass.feed.samples|, k)
    ensures k in m.edges
  {
    var passes := Passes(t, m.covered);
    var i :| 0 <= i < |passes| && passes[i] == pass;
    assert Reached(to, passes, k);
  }

  lemma {:induction false} RequestPassListed(t: Traffic, n: nat, i: nat)
    requires Complete(t) && i < n <= |t.l7|
    ensures Pass(RequestFeed(t, i), AddRequests) in L7Passes(t, n)
  {
    if i < n - 1 {
      RequestPassListed(t, n - 1, i);
    } else {
      assert ProtocolPasses(t, i)[0] in ProtocolPasses(t, i);
    }
  }

  /** The cut keeps the heaviest edges: none it drops has more requests than one it keeps. */
  lemma CutKeepsHeaviest(to: Targets, t: Traffic, m: ServiceMap, kept: nat, dropped: nat)
    requires Complete(t) && Maps(to, t, m) && kept < MAX_EDGES <= dropped < |m.rows|
    ensures m.rows[dropped].edge.requests <= m.rows[kept].edge.requests
  {
    assert !Precedes(m.rows[dropped], m.rows[kept]);
  }

  // ----- Conservation over the whole graph -----

  ghost function SumOver(keys: set<EdgeKey>, f: EdgeKey -> real): real
    decreases |keys|
  {
    if keys == {} then 0.0
    else
      var k :| k in keys;
      f(k) + SumOver(keys - {k}, f)
  }

  lemma {:induction false} SumOverSplit(keys: set<EdgeKey>, k: EdgeKey, f: EdgeKey -> real)
    requires k in keys
    ensures SumOver(keys, f) == f(k) + SumOver(keys - {k}, f)
    decreases |keys|
  {
    var j :| j in keys && SumOver(keys, f) == f(j) + SumOver(keys - {j}, f);
    if j != k {
      SumOverSplit(keys - {j}, k, f);
      SumOverSplit(keys - {k}, j, f);
      assert keys - {j} - {k} == keys - {k} - {j};
    }
  }

  lemma {:induction false} SumOverAdds(keys: set<EdgeKey>, f: EdgeKey -> real, g: EdgeKey -> real, h: EdgeKey -> real)
    requires forall k :: k in keys ==> h(k) == f(k) + g(k)
    ensures SumOver(keys, h) == SumOver(keys, f) + SumOver(keys, g)
    decreases |keys|
  {
    if keys != {} {
      var k :| k in keys;
      SumOverSplit(keys, k, f);
      SumOverSplit(keys, k, g);
      SumOverSplit(keys, k, h);
      SumOverAdds(keys - {k}, f, g, h);
    }
  }

  lemma {:induction false} SumOverZero(keys: set<EdgeKey>, f: EdgeKey -> real)
    requires forall k :: k in keys ==> f(k) == 0.0
    ensures SumOver(keys, f) == 0.0
    decreases |keys|
  {
    if keys != {} {
      var k :| k in keys;
      SumOverSplit(keys, k, f);
      SumOverZero(keys - {k}, f);
    }
  }

  /** The values of all counted samples, whatever edge they go to. */
  ghost function CountedSum(to: Targets, f: Feed, n: nat): real
    requires n <= |f.samples|
  {
    if n == 0 then 0.0
    else CountedSum(to, f, n - 1) + if Counted(to, f, f.samples[n - 1]) then f.samples[n - 1].value else 0.0
  }

  lemma {:induction false} FeedConserved(to: Targets, f: Feed, n: nat, keys: set<EdgeKey>)
    requires n <= |f.samples| && forall k :: Touches(to, f, n, k) ==> k in keys
    ensures SumOver(keys, k => Total(to, f, n, k)) == CountedSum(to, f, n)
  {
    if n == 0 {
      SumOverZero(keys, k => Total(to, f, 0, k));
    } else {
      var s := f.samples[n - 1];
      var hit := k => if Hits(to, f, s, k) then s.value else 0.0;
      forall k | Touches(to, f, n - 1, k) ensures k in keys {
        assert Touches(to, f, n, k);
      }
      FeedConserved(to, f, n - 1, keys);
      SumOverAdds(keys, k => Total(to, f, n - 1, k), hit, k => Total(to, f, n, k));
      if Counted(to, f, s) {
        var j := EdgeKeyOf(s, f.protocol);
        assert Hits(to, f, s, j) && Touches(to, f, n, j);
        SumOverSplit(keys, j, hit);
        SumOverZero(keys - {j}, hit);
      } else {
        SumOverZero(keys, hit);
      }
    }
  }

  ghost function PassSum(to: Targets, p: Pass, of: Measure): real {
    if Adds(p.effect, of) then CountedSum(to, p.feed, |p.feed.samples|) else 0.0
  }

  ghost function PassedSum(to: Targets, passes: seq<Pass>, of: Measure): real {
    if passes == [] then 0.0
    else PassedSum(to, passes[..|passes| - 1], of) + PassSum(to, passes[|passes| - 1], of)
  }

  lemma {:induction false} PassesConserved(to: Targets, passes: seq<Pass>, of: Measure, keys: set<EdgeKey>)
    requires forall k :: Reached(to, passes, k) ==> k in keys
    ensures SumOver(keys, k => TotalOf(to, passes, of, k)) == PassedSum(to, passes, of)
  {
    if passes == [] {
      SumOverZero(keys, k => TotalOf(to, passes, of, k));
    } else {
      var init, last := passes[..|passes| - 1], passes[|passes| - 1];
      var n := |last.feed.samples|;
      assert passes == init + [last];
      forall k | Reached(to, init, k) || Touches(to, last.feed, n, k) ensures k in keys {
        ReachedMore(to, init, last, k);
      }
      PassesConserved(to, init, of, keys);
      var part := k => if Adds(last.effect, of) then Total(to, last.feed, n, k) else 0.0;
      SumOverAdds(keys, k => TotalOf(to, init, of, k), part, k => TotalOf(to, passes, of, k));
      if Adds(last.effect, of) {
        FeedConserved(to, last.feed, n, keys);
        SumOverAdds(keys, k => Total(to, last.feed, n, k), k => 0.0, part);
        SumOverZero(keys, k => 0.0);
      } else {
        SumOverZero(keys, part);
      }
    }
  }

  ghost function MeasureOf(edges: Edges, of: Measure): EdgeKey -> real {
    k => if k !in edges then 0.0 else if of.Requests? then edges[k].requests else edges[k].errors
  }

  lemma {:induction false} PassedSumAppend(to: Targets, a: seq<Pass>, b: seq<Pass>, of: Measure)
    ensures PassedSum(to, a + b, of) == PassedSum(to, a, of) + PassedSum(to, b, of)
  {
    if b == [] {
      assert a + b == a;
    } else {
      assert (a + b)[..|a + b| - 1] == a + b[..|b| - 1];
      PassedSumAppend(to, a, b[..|b| - 1], of);
    }
  }

  lemma PassedSumOfThree(to: Targets, a: Pass, b: Pass, c: Pass, of: Measure)
    ensures PassedSum(to, [a, b, c], of) == PassSum(to, a, of) + PassSum(to, b, of) + PassSum(to, c, of)
  {
    assert [a, b, c] == [a] + [b] + [c];
    PassedSumAppend(to, [a] + [b], [c], of);
    PassedSumAppend(to, [a], [b], of);
    forall p: Pass ensures PassedSum(to, [p], of) == PassSum(to, p, of) {
      assert [p][..0] == [];
    }
  }

  /** The counted samples of the first n application protocols: requests, or failed requests. */
  ghost function ApplicationSum(to: Targets, t: Traffic, n: nat, of: Measure): real
    requires Complete(t) && n <= |t.l7|
  {
    if n == 0 then 0.0
    else
      var f := if of.Requests? then RequestFeed(t, n - 1) else FailedFeed(t, n - 1);
      ApplicationSum(to, t, n - 1, of) + CountedSum(to, f, |f.samples|)
  }

  lemma {:induction false} L7PassedSum(to: Targets, t: Traffic, n: nat, of: Measure)
    requires Complete(t) && n <= |t.l7|
    ensures PassedSum(to, L7Passes(t, n), of) == ApplicationSum(to, t, n, of)
  {
    if n > 0 {
      L7PassedSum(to, t, n - 1, of);
      var p := ProtocolPasses(t, n - 1);
      PassedSumAppend(to, L7Passes(t, n - 1), p, of);
      PassedSumOfThree(to, p[0], p[1], p[2], of);
      assert p == [p[0], p[1], p[2]];
    }
  }

  lemma EdgesConserved(to: Targets, t: Traffic, m: ServiceMap, of: Measure)
    requires Complete(t) && Maps(to, t, m)
    ensures var p := TcpPasses(t, m.covered);
            SumOver(m.edges.Keys, MeasureOf(m.edges, of)) ==
            ApplicationSum(to, t, |t.l7|, of) + PassSum(to, p[0], of) + PassSum(to, p[1], of) + PassSum(to, p[2], of)
  {
    var passes, p := Passes(t, m.covered), TcpPasses(t, m.covered);
    PassesConserved(to, passes, of, m.edges.Keys);
    L7PassedSum(to, t, |t.l7|, of);
    PassedSumAppend(to, L7Passes(t, |t.l7|), p, of);
    PassedSumOfThree(to, p[0], p[1], p[2], of);
    assert p == [p[0], p[1], p[2]];
    forall k | k in m.edges ensures MeasureOf(m.edges, of)(k) == TotalOf(to, passes, of, k) {
      assert BuiltEdge(to, passes, k, m.edges[k]);
    }
    SumOverAdds(m.edges.Keys, k => TotalOf(to, passes, of, k), k => 0.0, MeasureOf(m.edges, of));
    SumOverZero(m.edges.Keys, k => 0.0);
  }

  /** Nothing is lost or counted twice: the requests of all edges together are the values of all
      counted samples, application requests and uncovered connects, each once. */
  lemma RequestsConserved(to: Targets, t: Traffic, m: ServiceMap)
    requires Complete(t) && Maps(to, t, m)
    ensures SumOver(m.edges.Keys, MeasureOf(m.edges, Requests)) ==
            ApplicationSum(to, t, |t.l7|, Requests) + CountedSum(to, ConnectFeed(t, m.covered), |t.connects|)
  {
    EdgesConserved(to, t, m, Requests);
  }

  /** The same for errors: failed application requests, gRPC failures and uncovered failed connects. */
  lemma ErrorsConserved(to: Targets, t: Traffic, m: ServiceMap)
    requires Complete(t) && Maps(to, t, m)
    ensures SumOver(m.edges.Keys, MeasureOf(m.edges, Errors)) ==
            ApplicationSum(to, t, |t.l7|, Errors) + CountedSum(to, GrpcFeed(t), |t.grpcFailed|)
            + CountedSum(to, FailedConnectFeed(t, m.covered), |t.failedConnects|)
  {
    EdgesConserved(to, t, m, Errors);
  }
}
