/** The call graph in terms of the samples alone: which edges there are, what they add up to, and what
the rows carry. */
module VmServiceMapSamples {
  import opened Collections
  import opened GoStrings
  import opened VmDestinations
  import opened VmServiceMap
  import opened VmServiceMapTheorems

  // ----- Which sources and destinations count -----

  /** A unit or container, not a cgroup scope or slice. */
  ghost predicate IsService(id: string) {
    id != "" && !(|id| >= 6 && (id[|id| - 6..] == ".scope" || id[|id| - 6..] == ".slice"))
  }

  /** The source alone owns the destination address, and its own container is the one listening there. */
  ghost predicate CallsItself(net: Net, s: Series, p: Pair) {
    && p.instance != "" && net.parse(p.destination).Some?
    && SoleOwner(s.ips, net.parse(p.destination).value.host, p.instance)
    && Destination(net, s, p.instance, net.parse(p.destination).value, p.container)
  }

  ghost predicate Eligible(net: Net, s: Series, p: Pair) {
    IsService(p.container) && !CallsItself(net, s, p)
  }

  lemma ServiceMeaning(id: string)
    ensures IsServiceContainer(id) <==> IsService(id)
  {
    assert "/init.scope"[5..] == ".scope";
  }

  /** touch gives a sample an edge exactly when its source is a service that does not call itself. */
  lemma DrawsMeaning(net: Net, r: Resolver, s: Series, services: seq<Service>, idx: map<ContainerKey, Service>, x: Sample)
    requires BuiltFrom(net, r, s, services, idx)
    ensures Draws(ResolvedBy(net, r), x) <==> Eligible(net, s, PairOf(x))
  {
    var out, parsed := ResolveIn(net, r, x.destination), net.parse(x.destination);
    ServiceMeaning(x.container);
    ResolveMeaning(net, r, s, services, idx, x.destination);
    if IsService(x.container) {
      assert out.container == x.container <==> out.owner != "" && Destination(net, s, out.owner, parsed.value, x.container);
      if x.instance != "" {
        assert out.owner == x.instance <==> parsed.Some? && SoleOwner(s.ips, parsed.value.host, x.instance);
      }
    }
  }

  // ----- Samples of an edge -----

  /** The sample carries the labels of the edge. */
  ghost predicate IsOf(x: Sample, k: EdgeKey) {
    && x.instance == k.pair.instance && x.container == k.pair.container && x.destination == k.pair.destination
    && x.kind == k.kind && x.name == k.name
  }

  ghost predicate Takes(x: Sample, k: EdgeKey, positive: bool) {
    IsOf(x, k) && (positive ==> x.value > 0.0)
  }

  ghost predicate Appears(samples: seq<Sample>, k: EdgeKey, positive: bool) {
    exists n :: 0 <= n < |samples| && Takes(samples[n], k, positive)
  }

  ghost function SumOf(samples: seq<Sample>, k: EdgeKey, positive: bool): real {
    if samples == [] then 0.0
    else
      var last := samples[|samples| - 1];
      SumOf(samples[..|samples| - 1], k, positive) + if Takes(last, k, positive) then last.value else 0.0
  }

  /** Some positive application request came from the source to the destination. */
  ghost predicate SeenAsApplication(t: Traffic, p: Pair) {
    exists i, n :: 0 <= i < |t.l7| && 0 <= n < |t.l7[i].requests| && FromTo(t.l7[i].requests[n], p)
  }

  ghost predicate FromTo(x: Sample, p: Pair) {
    x.value > 0.0 && x.instance == p.instance && x.container == p.container && x.destination == p.destination
  }

  /** The sources and destinations that draw edges, as far as the edge loops can tell. */
  ghost predicate Draw(to: Targets, ok: Pair -> bool) {
    forall x :: Draws(to, x) <==> ok(PairOf(x))
  }

  lemma HitsMeaning(to: Targets, ok: Pair -> bool, f: Feed, x: Sample, k: EdgeKey)
    requires Draw(to, ok) && f.protocol == k.protocol && k.pair !in f.blocked
    ensures Hits(to, f, x, k) <==> ok(k.pair) && Takes(x, k, f.positive)
  {
    assert Draws(to, x) <==> ok(PairOf(x));
  }

  lemma TouchesMeaning(to: Targets, ok: Pair -> bool, f: Feed, k: EdgeKey)
    requires Draw(to, ok)
    ensures Touches(to, f, |f.samples|, k) <==>
            f.protocol == k.protocol && k.pair !in f.blocked && ok(k.pair) && Appears(f.samples, k, f.positive)
  {
    if f.protocol == k.protocol && k.pair !in f.blocked {
      forall n | 0 <= n < |f.samples|
        ensures Hits(to, f, f.samples[n], k) <==> ok(k.pair) && Takes(f.samples[n], k, f.positive)
      {
        HitsMeaning(to, ok, f, f.samples[n], k);
      }
    }
  }

  lemma {:induction false} TotalMeaning(to: Targets, ok: Pair -> bool, f: Feed, n: nat, k: EdgeKey)
    requires Draw(to, ok) && n <= |f.samples| && f.protocol == k.protocol && k.pair !in f.blocked && ok(k.pair)
    ensures Total(to, f, n, k) == SumOf(f.samples[..n], k, f.positive)
  {
    if n > 0 {
      TotalMeaning(to, ok, f, n - 1, k);
      HitsMeaning(to, ok, f, f.samples[n - 1], k);
      assert f.samples[..n][..n - 1] == f.samples[..n - 1];
    }
  }

  lemma FeedMeaning(to: Targets, ok: Pair -> bool, f: Feed, k: EdgeKey)
    requires Draw(to, ok) && f.protocol == k.protocol && k.pair !in f.blocked && ok(k.pair)
    ensures FeedTotal(to, f, k) == SumOf(f.samples, k, f.positive)
  {
    TotalMeaning(to, ok, f, |f.samples|, k);
    assert f.samples[..|f.samples|] == f.samples;
  }

  lemma {:induction false} DurationsMeaning(samples: seq<Sample>, n: nat, k: EdgeKey)
    requires n <= |samples|
    ensures IdentitySum(samples, n, k.(protocol := "")) == SumOf(samples[..n], k, false)
  {
    if n > 0 {
      DurationsMeaning(samples, n - 1, k);
      assert samples[..n][..n - 1] == samples[..n - 1];
    }
  }

  /** The last sample of the edge decides its latency: the durations of the edge over its value, in
      milliseconds; without one there is none. */
  ghost predicate HasLatency(counts: seq<Sample>, durations: seq<Sample>, k: EdgeKey, latencyMs: real) {
    && (!Appears(counts, k, true) ==> latencyMs == 0.0)
    && (forall n :: 0 <= n < |counts| && Takes(counts[n], k, true) && (forall j :: n < j < |counts| ==> !Takes(counts[j], k, true)) ==>
          latencyMs == SumOf(durations, k, false) / counts[n].value * 1000.0)
  }

  lemma LatencyMeaning(to: Targets, ok: Pair -> bool, f: Feed, durations: seq<Sample>, k: EdgeKey)
    requires Draw(to, ok) && f.protocol == k.protocol && k.pair !in f.blocked && ok(k.pair) && f.positive
    ensures HasLatency(f.samples, durations, k, SeriesLatency(to, f, durations, k))
  {
    forall n | 0 <= n < |f.samples| ensures Hits(to, f, f.samples[n], k) <==> Takes(f.samples[n], k, true) {
      HitsMeaning(to, ok, f, f.samples[n], k);
    }
    DurationsMeaning(durations, |durations|, k);
    assert durations[..|durations|] == durations;
    var last := LastHit(to, f, |f.samples|, k);
    if last.None? {
      assert !Appears(f.samples, k, true);
    }
  }

  // ----- The edges -----

  /** Some sample of an application protocol, or a gRPC failure, carries the labels of the edge. */
  ghost predicate ApplicationEdge(t: Traffic, k: EdgeKey)
    requires Complete(t)
  {
    || (exists i :: 0 <= i < |t.l7| && k.protocol == L7_PROTOCOLS[i] && InProtocol(t.l7[i], k))
    || (k.protocol == "http" && Appears(t.grpcFailed, k, false))
  }

  ghost predicate InProtocol(c: Counters, k: EdgeKey) {
    Appears(c.requests, k, true) || Appears(c.failed, k, false) || Appears(c.durationCount, k, true)
  }

  /** Some connect carries the labels of the edge, and no application request was seen. */
  ghost predicate TcpEdge(t: Traffic, k: EdgeKey) {
    k.protocol == "tcp" && !SeenAsApplication(t, k.pair) && (Appears(t.connects, k, true) || Appears(t.failedConnects, k, true))
  }

  lemma CoveredMeaning(to: Targets, ok: Pair -> bool, t: Traffic, m: ServiceMap, p: Pair)
    requires Draw(to, ok) && Complete(t) && Maps(to, t, m)
    ensures p in m.covered <==> ok(p) && SeenAsApplication(t, p)
  {
    if p in m.covered {
      var i :| 0 <= i < |t.l7| && CoveredIn(to, t, i, p);
      var n :| 0 <= n < |t.l7[i].requests| && Counted(to, RequestFeed(t, i), t.l7[i].requests[n]) && PairOf(t.l7[i].requests[n]) == p;
      assert FromTo(t.l7[i].requests[n], p);
    }
    if ok(p) && SeenAsApplication(t, p) {
      var i, n :| 0 <= i < |t.l7| && 0 <= n < |t.l7[i].requests| && FromTo(t.l7[i].requests[n], p);
      assert PairOf(t.l7[i].requests[n]) == p;
      assert Counted(to, RequestFeed(t, i), t.l7[i].requests[n]);
      assert CoveredIn(to, t, i, p);
    }
  }

  lemma {:induction false} L7Reached(to: Targets, ok: Pair -> bool, t: Traffic, n: nat, k: EdgeKey)
    requires Draw(to, ok) && Complete(t) && n <= |t.l7|
    ensures Reached(to, L7Passes(t, n), k) <==>
            ok(k.pair) && exists i :: 0 <= i < n && k.protocol == L7_PROTOCOLS[i] && InProtocol(t.l7[i], k)
  {
    if n > 0 {
      L7Reached(to, ok, t, n - 1, k);
      ReachedConcat(to, L7Passes(t, n - 1), ProtocolPasses(t, n - 1), k);
      assert Reached(to, ProtocolPasses(t, n - 1), k) <==> ok(k.pair) && k.protocol == L7_PROTOCOLS[n - 1] && InProtocol(t.l7[n - 1], k) by {
        ProtocolReached(to, ok, t, n - 1, k);
      }
    }
  }

  lemma ReachedConcat(to: Targets, a: seq<Pass>, b: seq<Pass>, k: EdgeKey)
    ensures Reached(to, a + b, k) <==> Reached(to, a, k) || Reached(to, b, k)
  {
    var all := a + b;
    if i :| 0 <= i < |a| && Touches(to, a[i].feed, |a[i].feed.samples|, k) { assert all[i] == a[i]; }
    if i :| 0 <= i < |b| && Touches(to, b[i].feed, |b[i].feed.samples|, k) { assert all[|a| + i] == b[i]; }
    if i :| 0 <= i < |all| && Touches(to, all[i].feed, |all[i].feed.samples|, k) {
      assert if i < |a| then all[i] == a[i] else all[i] == b[i - |a|];
    }
  }

  lemma ReachedThree(to: Targets, a: Pass, b: Pass, c: Pass, k: EdgeKey)
    ensures Reached(to, [a, b, c], k) <==>
            || Touches(to, a.feed, |a.feed.samples|, k) || Touches(to, b.feed, |b.feed.samples|, k)
            || Touches(to, c.feed, |c.feed.samples|, k)
  {
    var all := [a, b, c];
    assert all[0] == a && all[1] == b && all[2] == c;
  }

  lemma ProtocolReached(to: Targets, ok: Pair -> bool, t: Traffic, i: nat, k: EdgeKey)
    requires Draw(to, ok) && Complete(t) && i < |t.l7|
    ensures Reached(to, ProtocolPasses(t, i), k) <==> ok(k.pair) && k.protocol == L7_PROTOCOLS[i] && InProtocol(t.l7[i], k)
  {
    var p := ProtocolPasses(t, i);
    assert p == [p[0], p[1], p[2]];
    ReachedThree(to, p[0], p[1], p[2], k);
    TouchesMeaning(to, ok, p[0].feed, k);
    TouchesMeaning(to, ok, p[1].feed, k);
    TouchesMeaning(to, ok, p[2].feed, k);
  }

  lemma TcpReached(to: Targets, ok: Pair -> bool, t: Traffic, covered: set<Pair>, k: EdgeKey)
    requires Draw(to, ok)
    ensures Reached(to, TcpPasses(t, covered), k) <==>
            ok(k.pair) && (|| (k.protocol == "http" && Appears(t.grpcFailed, k, false))
                           || (k.protocol == "tcp" && k.pair !in covered
                               && (Appears(t.connects, k, true) || Appears(t.failedConnects, k, true))))
  {
    var p := TcpPasses(t, covered);
    assert p == [p[0], p[1], p[2]];
    ReachedThree(to, p[0], p[1], p[2], k);
    TouchesMeaning(to, ok, p[0].feed, k);
    TouchesMeaning(to, ok, p[1].feed, k);
    TouchesMeaning(to, ok, p[2].feed, k);
  }

  lemma EdgesFor(to: Targets, ok: Pair -> bool, t: Traffic, m: ServiceMap, k: EdgeKey)
    requires Draw(to, ok) && Complete(t) && Maps(to, t, m)
    ensures k in m.edges <==> ok(k.pair) && (ApplicationEdge(t, k) || TcpEdge(t, k))
  {
    assert k in m.edges <==> Reached(to, Passes(t, m.covered), k);
    ReachedConcat(to, L7Passes(t, |t.l7|), TcpPasses(t, m.covered), k);
    L7Reached(to, ok, t, |t.l7|, k);
    TcpReached(to, ok, t, m.covered, k);
    CoveredMeaning(to, ok, t, m, k.pair);
  }

  lemma DrawMeaning(net: Net, r: Resolver, s: Series, services: seq<Service>, idx: map<ContainerKey, Service>) returns (ok: Pair -> bool)
    requires BuiltFrom(net, r, s, services, idx)
    ensures forall p :: ok(p) <==> Eligible(net, s, p)
    ensures Draw(ResolvedBy(net, r), ok)
  {
    ok := p => Eligible(net, s, p);
    forall x ensures Draws(ResolvedBy(net, r), x) <==> ok(PairOf(x)) {
      DrawsMeaning(net, r, s, services, idx, x);
    }
  }

  /** An edge is drawn exactly for the labels of some counted sample: its source is a service that does
      not call itself there, and the sample is a positive request, a failure or a positive duration
      count of its protocol, a gRPC failure for http, or, between a source and a destination without
      application requests, a positive connect or failed connect for tcp. */
  lemma EdgesOfSamples(net: Net, r: Resolver, s: Series, services: seq<Service>, idx: map<ContainerKey, Service>,
                       t: Traffic, m: ServiceMap, k: EdgeKey)
    requires BuiltFrom(net, r, s, services, idx) && Complete(t) && Maps(ResolvedBy(net, r), t, m)
    ensures k in m.edges <==> Eligible(net, s, k.pair) && (ApplicationEdge(t, k) || TcpEdge(t, k))
  {
    var ok := DrawMeaning(net, r, s, services, idx);
    EdgesFor(ResolvedBy(net, r), ok, t, m, k);
  }

  /** A positive application request gets an edge exactly when its container is a service and not both
      of these hold: its instance alone owns the destination address, and its container is the one
      listening there. */
  lemma RequestGetsEdge(net: Net, r: Resolver, s: Series, services: seq<Service>, idx: map<ContainerKey, Service>,
                        t: Traffic, m: ServiceMap, i: nat, n: nat)
    requires BuiltFrom(net, r, s, services, idx) && Complete(t) && Maps(ResolvedBy(net, r), t, m)
    requires i < |t.l7| && n < |t.l7[i].requests| && t.l7[i].requests[n].value > 0.0
    ensures var x := t.l7[i].requests[n];
            var p := Pair(x.instance, x.container, x.destination);
            EdgeKey(p, x.kind, x.name, L7_PROTOCOLS[i]) in m.edges <==> IsService(x.container) && !CallsItself(net, s, p)
  {
    var x := t.l7[i].requests[n];
    var k := EdgeKey(Pair(x.instance, x.container, x.destination), x.kind, x.name, L7_PROTOCOLS[i]);
    EdgesOfSamples(net, r, s, services, idx, t, m, k);
    assert Takes(t.l7[i].requests[n], k, true);
    assert Appears(t.l7[i].requests, k, true);
    assert InProtocol(t.l7[i], k);
    ProtocolsAreNotTcp(i);
  }

  /** An application edge adds up the samples of its protocol that carry its labels. */
  lemma ApplicationTotals(net: Net, r: Resolver, s: Series, services: seq<Service>, idx: map<ContainerKey, Service>,
                          t: Traffic, m: ServiceMap, i: nat, k: EdgeKey)
    requires BuiltFrom(net, r, s, services, idx) && Complete(t) && Maps(ResolvedBy(net, r), t, m)
    requires i < |t.l7| && k in m.edges && k.protocol == L7_PROTOCOLS[i]
    ensures m.edges[k].requests == SumOf(t.l7[i].requests, k, true)
    ensures m.edges[k].errors == SumOf(t.l7[i].failed, k, false) + if k.protocol == "http" then SumOf(t.grpcFailed, k, false) else 0.0
    ensures HasLatency(t.l7[i].durationCount, t.l7[i].durationSum, k, m.edges[k].latencyMs)
    ensures m.edges[k].target == ResolveIn(net, r, k.pair.destination)
  {
    var to := ResolvedBy(net, r);
    var ok := DrawMeaning(net, r, s, services, idx);
    EdgesFor(to, ok, t, m, k);
    ApplicationEdgeRequests(to, t, m, i, k);
    ApplicationEdgeErrors(to, t, m, i, k);
    ApplicationEdgeLatency(to, t, m, i, k);
    FeedMeaning(to, ok, RequestFeed(t, i), k);
    FeedMeaning(to, ok, FailedFeed(t, i), k);
    if k.protocol == "http" { FeedMeaning(to, ok, GrpcFeed(t), k); } else { OtherProtocol(to, GrpcFeed(t), k); }
    LatencyMeaning(to, ok, DurationFeed(t, i), t.l7[i].durationSum, k);
    assert BuiltEdge(to, Passes(t, m.covered), k, m.edges[k]);
  }

  /** A tcp edge adds up the positive connects and failed connects that carry its labels. */
  lemma TcpTotals(net: Net, r: Resolver, s: Series, services: seq<Service>, idx: map<ContainerKey, Service>,
                  t: Traffic, m: ServiceMap, k: EdgeKey)
    requires BuiltFrom(net, r, s, services, idx) && Complete(t) && Maps(ResolvedBy(net, r), t, m)
    requires k in m.edges && k.protocol == "tcp"
    ensures m.edges[k].requests == SumOf(t.connects, k, true)
    ensures m.edges[k].errors == SumOf(t.failedConnects, k, true)
    ensures HasLatency(t.connects, t.connectTime, k, m.edges[k].latencyMs)
    ensures m.edges[k].target == ResolveIn(net, r, k.pair.destination)
  {
    var to := ResolvedBy(net, r);
    var ok := DrawMeaning(net, r, s, services, idx);
    EdgesFor(to, ok, t, m, k);
    TcpEdgeUncovered(to, t, m, k);
    TcpEdgeRequests(to, t, m, k);
    TcpEdgeErrors(to, t, m, k);
    TcpEdgeLatency(to, t, m, k);
    FeedMeaning(to, ok, ConnectFeed(t, m.covered), k);
    FeedMeaning(to, ok, FailedConnectFeed(t, m.covered), k);
    LatencyMeaning(to, ok, ConnectFeed(t, m.covered), t.connectTime, k);
    assert BuiltEdge(to, Passes(t, m.covered), k, m.edges[k]);
  }

  // ----- The rows -----

  /** r is a nearest whole number to v, the one further from zero when there are two. */
  ghost predicate Nearest(v: real, r: real) {
    && r == r.Floor as real
    && (v >= 0.0 ==> v - 0.5 < r <= v + 0.5) && (v < 0.0 ==> v - 0.5 <= r < v + 0.5)
  }

  /** The count as shown: nothing for none, else a nearest whole number but at least one. */
  ghost predicate ShownCount(v: real, r: real) {
    && (v <= 0.0 ==> r == 0.0)
    && (v > 0.0 ==> r >= 1.0 && (Nearest(v, r) || (r == 1.0 && v < 0.5)))
  }

  lemma FloorWhole(n: int)
    ensures (n as real).Floor == n
  {
  }

  lemma RoundNearest(v: real)
    ensures Nearest(v, Round(v))
  {
    var w := if v >= 0.0 then v else -v;
    var n := (w + 0.5).Floor;
    FloorWhole(n);
    FloorWhole(-n);
    assert Round(v) == if v >= 0.0 then n as real else (-n) as real;
  }

  lemma WholeCountShown(v: real)
    ensures ShownCount(v, WholeCount(v))
  {
    RoundNearest(v);
  }

  lemma RowShape(placed: Edges, rows: seq<Row>, k: EdgeKey)
    requires Emitted(placed, placed.Keys, rows)
    ensures (exists row :: row in rows && row.key == k) <==> k in placed && (placed[k].requests > 0.0 || placed[k].errors > 0.0)
    ensures forall row :: row in rows && row.key == k ==> k in placed && row.edge == Rounded(placed[k])
  {
    if k in placed {
      var row := Row(k, Rounded(placed[k]));
      assert row in rows <==> Shown(row.edge);
    }
  }

  lemma RoundedShown(e: Edge)
    ensures var r := Rounded(e);
            && ShownCount(e.requests, r.requests) && ShownCount(e.errors, r.errors)
            && Nearest(e.bytesSent, r.bytesSent) && Nearest(e.bytesReceived, r.bytesReceived)
            && r.latencyMs == e.latencyMs && r.target == e.target
  {
    WholeCountShown(e.requests);
    WholeCountShown(e.errors);
    RoundNearest(e.bytesSent);
    RoundNearest(e.bytesReceived);
  }

  lemma BytesOnly(t: Traffic, m: ServiceMap, k: EdgeKey)
    requires HasBytes(t, m.edges, m.best, m.placed)
    ensures k in m.placed <==> k in m.edges
    ensures k in m.edges ==> m.placed[k].(bytesSent := m.edges[k].bytesSent, bytesReceived := m.edges[k].bytesReceived) == m.edges[k]
  {
  }

  /** What a row shows of its edge. */
  ghost predicate Shows(row: Row, e: Edge) {
    && ShownCount(e.requests, row.edge.requests) && ShownCount(e.errors, row.edge.errors)
    && row.edge.latencyMs == e.latencyMs && row.edge.target == e.target
  }

  /** An edge is sent exactly when it has a request or an error, in one row that carries its rounded
      counts, its latency and its destination. */
  lemma RowOfEdge(to: Targets, t: Traffic, m: ServiceMap, k: EdgeKey)
    requires Complete(t) && Maps(to, t, m)
    ensures (exists row :: row in m.rows && row.key == k) <==> k in m.edges && (m.edges[k].requests > 0.0 || m.edges[k].errors > 0.0)
    ensures forall row :: row in m.rows && row.key == k ==> k in m.edges && Shows(row, m.edges[k])
    ensures Distinct(m.rows)
  {
    RowShape(m.placed, m.rows, k);
    BytesOnly(t, m, k);
    if k in m.edges { RoundedShown(m.placed[k]); }
  }

  /** The rows come with the most requests first, then by the name of the source service, then by
      destination. */
  lemma RowsInOrder(to: Targets, t: Traffic, m: ServiceMap, i: nat, j: nat)
    requires Complete(t) && Maps(to, t, m) && i < j < |m.rows|
    ensures var a, b := m.rows[i], m.rows[j];
            var x, y := ServiceName(a.key.pair.container), ServiceName(b.key.pair.container);
            && a.edge.requests >= b.edge.requests
            && (a.edge.requests == b.edge.requests ==> x == y || Less(x, y))
            && (a.edge.requests == b.edge.requests && x == y ==>
                  a.key.pair.destination == b.key.pair.destination || Less(a.key.pair.destination, b.key.pair.destination))
  {
    var a, b := m.rows[i], m.rows[j];
    LessTotal(ServiceName(a.key.pair.container), ServiceName(b.key.pair.container));
    LessTotal(a.key.pair.destination, b.key.pair.destination);
    assert !Precedes(b, a);
  }
}
