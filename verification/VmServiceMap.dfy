/** Building the call graph: samples become edges, tcp duplicates are suppressed, byte counters are
placed once per pair, and the heaviest edges are kept.

The edge loops only need to know where a destination resolves to, so they take that as a function. */
module VmServiceMap {
  import opened Collections
  import opened GoStrings
  import opened VmDestinations

  const MAX_EDGES := 5000

  const L7_PROTOCOLS: seq<string> := [
    "http", "postgres", "mysql", "redis", "memcached", "mongo",
    "kafka", "cassandra", "clickhouse", "zookeeper", "foundationdb", "dubbo"]

  /** The four series of one application protocol. */
  datatype Counters = Counters(requests: seq<Sample>, failed: seq<Sample>, durationSum: seq<Sample>, durationCount: seq<Sample>)

  datatype Traffic = Traffic(
    l7: seq<Counters>,            // in the order of L7_PROTOCOLS
    grpcFailed: seq<Sample>,
    connects: seq<Sample>, failedConnects: seq<Sample>, connectTime: seq<Sample>,
    bytesSent: seq<Sample>, bytesReceived: seq<Sample>)

  datatype Pair = Pair(instance: string, container: string, destination: string)

  datatype EdgeKey = EdgeKey(pair: Pair, kind: string, name: string, protocol: string)

  datatype Edge = Edge(target: Resolved, requests: real, errors: real, latencyMs: real, bytesSent: real, bytesReceived: real)

  type Edges = map<EdgeKey, Edge>

  function PairOf(s: Sample): (p: Pair) {
    Pair(s.instance, s.container, s.destination)
  }

  function EdgeKeyOf(s: Sample, protocol: string): (k: EdgeKey) {
    EdgeKey(PairOf(s), s.kind, s.name, protocol)
  }

  /** Where each destination resolves to. */
  type Targets = string -> Resolved

  /** touch gives a sample an edge unless its source is no service or calls itself. */
  predicate Draws(to: Targets, s: Sample) {
    IsServiceContainer(s.container) && !Skips(to(s.destination), KeyOf(s))
  }

  function NewEdge(to: Targets, k: EdgeKey): (e: Edge) {
    Edge(to(k.pair.destination), 0.0, 0.0, 0.0, 0.0, 0.0)
  }

  // ----- One pass over one series -----

  /** A series read for one protocol: only positive values when `positive`, and no pair of `blocked`. */
  datatype Feed = Feed(samples: seq<Sample>, protocol: string, positive: bool, blocked: set<Pair>)

  /** What a pass does to the edge of a sample. The sums are the durations of the series, by identity. */
  datatype Effect = AddRequests | AddErrors | SetLatency(sums: map<EdgeKey, real>) | AddConnects(times: map<EdgeKey, real>)

  predicate Counted(to: Targets, f: Feed, s: Sample) {
    (f.positive ==> s.value > 0.0) && PairOf(s) !in f.blocked && Draws(to, s)
  }

  predicate Hits(to: Targets, f: Feed, s: Sample, k: EdgeKey) {
    Counted(to, f, s) && EdgeKeyOf(s, f.protocol) == k
  }

  function At(sums: map<EdgeKey, real>, s: Sample): (r: real) {
    if EdgeKeyOf(s, "") in sums then sums[EdgeKeyOf(s, "")] else 0.0
  }

  function Affect(e: Edge, effect: Effect, s: Sample): (r: Edge)
    requires effect.SetLatency? || effect.AddConnects? ==> s.value > 0.0
  {
    match effect
    case AddRequests => e.(requests := e.requests + s.value)
    case AddErrors => e.(errors := e.errors + s.value)
    case SetLatency(sums) => e.(latencyMs := At(sums, s) / s.value * 1000.0)
    case AddConnects(times) => e.(requests := e.requests + s.value, latencyMs := At(times, s) / s.value * 1000.0)
  }

  predicate Divides(f: Feed, effect: Effect) {
    effect.SetLatency? || effect.AddConnects? ==> f.positive
  }

  /** Edge e under key k after the first n samples of the feed. */
  function Folded(to: Targets, f: Feed, effect: Effect, n: nat, k: EdgeKey, e: Edge): (r: Edge)
    requires n <= |f.samples| && Divides(f, effect)
  {
    if n == 0 then e
    else
      var r := Folded(to, f, effect, n - 1, k, e);
      if Hits(to, f, f.samples[n - 1], k) then Affect(r, effect, f.samples[n - 1]) else r
  }

  ghost predicate Touches(to: Targets, f: Feed, n: nat, k: EdgeKey)
    requires n <= |f.samples|
  {
    exists i :: 0 <= i < n && Hits(to, f, f.samples[i], k)
  }

  function Before(to: Targets, edges: Edges, k: EdgeKey): (e: Edge) {
    if k in edges then edges[k] else NewEdge(to, k)
  }

  ghost predicate Absorbed(to: Targets, edges: Edges, f: Feed, effect: Effect, n: nat, after: Edges)
    requires n <= |f.samples| && Divides(f, effect)
  {
    && (forall k :: k in after <==> k in edges || Touches(to, f, n, k))
    && (forall k :: k in after ==> after[k] == Folded(to, f, effect, n, k, Before(to, edges, k)))
  }

  lemma AbsorbOne(to: Targets, edges: Edges, f: Feed, effect: Effect, n: nat, was: Edges)
    requires n < |f.samples| && Divides(f, effect) && Absorbed(to, edges, f, effect, n, was)
    ensures var s := f.samples[n];
            var k := EdgeKeyOf(s, f.protocol);
            Absorbed(to, edges, f, effect, n + 1,
                     if Counted(to, f, s) then was[k := Affect(Before(to, was, k), effect, s)] else was)
  {
    var s, key := f.samples[n], EdgeKeyOf(f.samples[n], f.protocol);
    var after := if Counted(to, f, s) then was[key := Affect(Before(to, was, key), effect, s)] else was;
    forall k ensures k in after <==> k in edges || Touches(to, f, n + 1, k) {
      TouchesMore(to, f, n, k);
    }
    forall k | k in after ensures after[k] == Folded(to, f, effect, n + 1, k, Before(to, edges, k)) {
      AbsorbAt(to, edges, f, effect, n, was, k);
    }
  }

  /** The edge under one key after one more sample. */
  lemma AbsorbAt(to: Targets, edges: Edges, f: Feed, effect: Effect, n: nat, was: Edges, k: EdgeKey)
    requires n < |f.samples| && Divides(f, effect) && Absorbed(to, edges, f, effect, n, was)
    ensures k !in was ==> Folded(to, f, effect, n, k, Before(to, edges, k)) == Before(to, was, k)
    ensures Hits(to, f, f.samples[n], k) ==>
              Folded(to, f, effect, n + 1, k, Before(to, edges, k)) == Affect(Before(to, was, k), effect, f.samples[n])
    ensures !Hits(to, f, f.samples[n], k) && k in was ==>
              Folded(to, f, effect, n + 1, k, Before(to, edges, k)) == was[k]
  {
    if k !in was { UntouchedUnchanged(to, f, effect, n, k, Before(to, edges, k)); }
  }

  lemma TouchesMore(to: Targets, f: Feed, n: nat, k: EdgeKey)
    requires n < |f.samples|
    ensures Touches(to, f, n + 1, k) <==> Touches(to, f, n, k) || Hits(to, f, f.samples[n], k)
  {
  }

  lemma UntouchedUnchanged(to: Targets, f: Feed, effect: Effect, n: nat, k: EdgeKey, e: Edge)
    requires n <= |f.samples| && Divides(f, effect)
    ensures !Touches(to, f, n, k) ==> Folded(to, f, effect, n, k, e) == e
  {
    if n > 0 {
      UntouchedUnchanged(to, f, effect, n - 1, k, e);
      assert Touches(to, f, n - 1, k) ==> Touches(to, f, n, k);
      assert Hits(to, f, f.samples[n - 1], k) ==> Touches(to, f, n, k);
    }
  }

  /** A loop over one series: every counted sample is applied to its edge, creating it if need be;
      `pairs` are the pairs of those samples. */
  method Absorb(to: Targets, edges: Edges, f: Feed, effect: Effect) returns (after: Edges, pairs: set<Pair>)
    requires Divides(f, effect)
    ensures Absorbed(to, edges, f, effect, |f.samples|, after)
    ensures forall p :: p in pairs <==> exists i :: 0 <= i < |f.samples| && Counted(to, f, f.samples[i]) && PairOf(f.samples[i]) == p
  {
    after, pairs := edges, {};
    for n := 0 to |f.samples|
      invariant Absorbed(to, edges, f, effect, n, after)
      invariant forall p :: p in pairs <==> exists i :: 0 <= i < n && Counted(to, f, f.samples[i]) && PairOf(f.samples[i]) == p
    {
      var s := f.samples[n];
      AbsorbOne(to, edges, f, effect, n, after);
      if f.positive && s.value <= 0.0 {
        continue;
      }
      if PairOf(s) in f.blocked {
        continue;
      }
      if Draws(to, s) {
        var k := EdgeKeyOf(s, f.protocol);
        var e := if k in after then after[k] else NewEdge(to, k);
        after := after[k := Affect(e, effect, s)];
        pairs := pairs + {PairOf(s)};
      }
    }
  }

  /** The values of the samples that hit key k. */
  function Total(to: Targets, f: Feed, n: nat, k: EdgeKey): (r: real)
    requires n <= |f.samples|
  {
    if n == 0 then 0.0
    else Total(to, f, n - 1, k) + if Hits(to, f, f.samples[n - 1], k) then f.samples[n - 1].value else 0.0
  }

  predicate CountsRequests(effect: Effect) {
    effect.AddRequests? || effect.AddConnects?
  }

  lemma {:induction false} FoldedTotals(to: Targets, f: Feed, effect: Effect, n: nat, k: EdgeKey, e: Edge)
    requires n <= |f.samples| && Divides(f, effect)
    ensures var r := Folded(to, f, effect, n, k, e);
            && r.requests == e.requests + (if CountsRequests(effect) then Total(to, f, n, k) else 0.0)
            && r.errors == e.errors + (if effect.AddErrors? then Total(to, f, n, k) else 0.0)
            && r.target == e.target && r.bytesSent == e.bytesSent && r.bytesReceived == e.bytesReceived
  {
    if n > 0 {
      FoldedTotals(to, f, effect, n - 1, k, e);
    }
  }

  // ----- Latency -----

  predicate SetsLatency(effect: Effect) {
    effect.SetLatency? || effect.AddConnects?
  }

  /** The last sample that hits key k. */
  function LastHit(to: Targets, f: Feed, n: nat, k: EdgeKey): (r: Option<nat>)
    requires n <= |f.samples|
    ensures r.Some? ==> r.value < n && Hits(to, f, f.samples[r.value], k)
    ensures r.Some? ==> forall i :: r.value < i < n ==> !Hits(to, f, f.samples[i], k)
    ensures r.None? ==> !Touches(to, f, n, k)
  {
    if n == 0 then None
    else if Hits(to, f, f.samples[n - 1], k) then Some(n - 1)
    else LastHit(to, f, n - 1, k)
  }

  /** The mean duration a sample gives its edge: summed durations over its count, in milliseconds. */
  function SampleLatency(effect: Effect, s: Sample): (r: real)
    requires SetsLatency(effect) && s.value > 0.0
  {
    At(if effect.SetLatency? then effect.sums else effect.times, s) / s.value * 1000.0
  }

  lemma {:induction false} FoldedLatency(to: Targets, f: Feed, effect: Effect, n: nat, k: EdgeKey, e: Edge)
    requires n <= |f.samples| && Divides(f, effect)
    ensures var last := LastHit(to, f, n, k);
            Folded(to, f, effect, n, k, e).latencyMs ==
            if SetsLatency(effect) && last.Some? then SampleLatency(effect, f.samples[last.value]) else e.latencyMs
  {
    if n > 0 {
      FoldedLatency(to, f, effect, n - 1, k, e);
    }
  }

  // ----- All passes -----

  datatype Pass = Pass(feed: Feed, effect: Effect)

  /** The latency of key k after a pass: the last counted sample of its series decides. */
  function PassLatency(to: Targets, pass: Pass, k: EdgeKey, was: real): (r: real) {
    var last := LastHit(to, pass.feed, |pass.feed.samples|, k);
    if SetsLatency(pass.effect) && last.Some? && pass.feed.samples[last.value].value > 0.0
    then SampleLatency(pass.effect, pass.feed.samples[last.value]) else was
  }

  function Latency(to: Targets, passes: seq<Pass>, k: EdgeKey): (r: real) {
    if passes == [] then 0.0
    else PassLatency(to, passes[|passes| - 1], k, Latency(to, passes[..|passes| - 1], k))
  }

  function RequestTotal(to: Targets, passes: seq<Pass>, k: EdgeKey): (r: real) {
    if passes == [] then 0.0
    else
      var last := passes[|passes| - 1];
      RequestTotal(to, passes[..|passes| - 1], k)
      + if CountsRequests(last.effect) then Total(to, last.feed, |last.feed.samples|, k) else 0.0
  }

  function ErrorTotal(to: Targets, passes: seq<Pass>, k: EdgeKey): (r: real) {
    if passes == [] then 0.0
    else
      var last := passes[|passes| - 1];
      ErrorTotal(to, passes[..|passes| - 1], k)
      + if last.effect.AddErrors? then Total(to, last.feed, |last.feed.samples|, k) else 0.0
  }

  ghost predicate Reached(to: Targets, passes: seq<Pass>, k: EdgeKey) {
    exists i :: 0 <= i < |passes| && Touches(to, passes[i].feed, |passes[i].feed.samples|, k)
  }

  /** The edges are those some pass reaches, with the totals of all passes and no bytes yet. */
  ghost predicate Built(to: Targets, passes: seq<Pass>, edges: Edges) {
    && (forall k :: k in edges <==> Reached(to, passes, k))
    && (forall k :: k in edges ==> BuiltEdge(to, passes, k, edges[k]))
  }

  ghost predicate BuiltEdge(to: Targets, passes: seq<Pass>, k: EdgeKey, e: Edge) {
    && e.requests == RequestTotal(to, passes, k) && e.errors == ErrorTotal(to, passes, k)
    && e.latencyMs == Latency(to, passes, k)
    && e.target == to(k.pair.destination) && e.bytesSent == 0.0 && e.bytesReceived == 0.0
  }

  lemma {:induction false} UnreachedLatency(to: Targets, passes: seq<Pass>, k: EdgeKey)
    requires !Reached(to, passes, k)
    ensures Latency(to, passes, k) == 0.0
  {
    if passes != [] {
      var init, last := passes[..|passes| - 1], passes[|passes| - 1];
      forall i | 0 <= i < |init| ensures !Touches(to, init[i].feed, |init[i].feed.samples|, k) {
        assert init[i] == passes[i];
      }
      UnreachedLatency(to, init, k);
      assert !Touches(to, last.feed, |last.feed.samples|, k);
    }
  }

  lemma LatencyAfter(to: Targets, passes: seq<Pass>, pass: Pass, k: EdgeKey)
    ensures Latency(to, passes + [pass], k) == PassLatency(to, pass, k, Latency(to, passes, k))
  {
    assert (passes + [pass])[..|passes|] == passes;
  }

  lemma {:induction false} UnreachedTotals(to: Targets, passes: seq<Pass>, k: EdgeKey)
    requires !Reached(to, passes, k)
    ensures RequestTotal(to, passes, k) == 0.0 && ErrorTotal(to, passes, k) == 0.0
  {
    if passes != [] {
      var init, last := passes[..|passes| - 1], passes[|passes| - 1];
      forall i | 0 <= i < |init| ensures !Touches(to, init[i].feed, |init[i].feed.samples|, k) {
        assert init[i] == passes[i];
      }
      UnreachedTotals(to, init, k);
      assert !Touches(to, last.feed, |last.feed.samples|, k);
      UntouchedTotal(to, last.feed, |last.feed.samples|, k);
    }
  }

  lemma {:induction false} UntouchedTotal(to: Targets, f: Feed, n: nat, k: EdgeKey)
    requires n <= |f.samples| && !Touches(to, f, n, k)
    ensures Total(to, f, n, k) == 0.0
  {
    if n > 0 {
      assert !Touches(to, f, n - 1, k);
      UntouchedTotal(to, f, n - 1, k);
    }
  }

  lemma ReachedMore(to: Targets, passes: seq<Pass>, pass: Pass, k: EdgeKey)
    ensures Reached(to, passes + [pass], k) <==> Reached(to, passes, k) || Touches(to, pass.feed, |pass.feed.samples|, k)
  {
    var more := passes + [pass];
    if Reached(to, passes, k) {
      var i :| 0 <= i < |passes| && Touches(to, passes[i].feed, |passes[i].feed.samples|, k);
      assert more[i] == passes[i];
    }
    assert more[|passes|] == pass;
  }

  lemma BuiltMore(to: Targets, passes: seq<Pass>, edges: Edges, pass: Pass, after: Edges)
    requires Built(to, passes, edges) && Divides(pass.feed, pass.effect)
    requires Absorbed(to, edges, pass.feed, pass.effect, |pass.feed.samples|, after)
    ensures Built(to, passes + [pass], after)
  {
    forall k ensures k in after <==> Reached(to, passes + [pass], k) {
      ReachedMore(to, passes, pass, k);
    }
    forall k | k in after ensures BuiltEdge(to, passes + [pass], k, after[k]) {
      if k !in edges {
        UnreachedTotals(to, passes, k);
        UnreachedLatency(to, passes, k);
      }
      EdgeMore(to, passes, k, Before(to, edges, k), pass);
    }
  }

  lemma EdgeMore(to: Targets, passes: seq<Pass>, k: EdgeKey, e: Edge, pass: Pass)
    requires BuiltEdge(to, passes, k, e) && Divides(pass.feed, pass.effect)
    ensures BuiltEdge(to, passes + [pass], k, Folded(to, pass.feed, pass.effect, |pass.feed.samples|, k, e))
  {
    var n := |pass.feed.samples|;
    assert (passes + [pass])[..|passes|] == passes;
    FoldedTotals(to, pass.feed, pass.effect, n, k, e);
    FoldedLatency(to, pass.feed, pass.effect, n, k, e);
    LatencyAfter(to, passes, pass, k);
  }

  /** Durations by edge identity, protocol aside. */
  function Index(samples: seq<Sample>, n: nat): (r: map<EdgeKey, real>)
    requires n <= |samples|
  {
    if n == 0 then map[]
    else
      var r := Index(samples, n - 1);
      r[EdgeKeyOf(samples[n - 1], "") := At(r, samples[n - 1]) + samples[n - 1].value]
  }

  /** The values of all samples with the identity. */
  function IdentitySum(samples: seq<Sample>, n: nat, id: EdgeKey): (r: real)
    requires n <= |samples|
  {
    if n == 0 then 0.0
    else IdentitySum(samples, n - 1, id) + if EdgeKeyOf(samples[n - 1], "") == id then samples[n - 1].value else 0.0
  }

  lemma {:induction false} IndexSums(samples: seq<Sample>, n: nat, s: Sample)
    requires n <= |samples|
    ensures At(Index(samples, n), s) == IdentitySum(samples, n, EdgeKeyOf(s, ""))
  {
    if n > 0 {
      IndexSums(samples, n - 1, s);
      IndexSums(samples, n - 1, samples[n - 1]);
    }
  }

  /** indexByEdge: for every identity the sum of all samples that carry it. */
  method IndexByEdge(samples: seq<Sample>) returns (sums: map<EdgeKey, real>)
    ensures forall s :: At(sums, s) == IdentitySum(samples, |samples|, EdgeKeyOf(s, ""))
    ensures sums == Index(samples, |samples|)
  {
    forall s ensures At(Index(samples, |samples|), s) == IdentitySum(samples, |samples|, EdgeKeyOf(s, "")) {
      IndexSums(samples, |samples|, s);
    }
    sums := map[];
    for n := 0 to |samples|
      invariant sums == Index(samples, n)
    {
      var id := EdgeKeyOf(samples[n], "");
      sums := sums[id := (if id in sums then sums[id] else 0.0) + samples[n].value];
    }
  }

  function RequestFeed(t: Traffic, i: nat): (f: Feed)
    requires i < |t.l7| == |L7_PROTOCOLS|
  {
    Feed(t.l7[i].requests, L7_PROTOCOLS[i], true, {})
  }

  function DurationFeed(t: Traffic, i: nat): (f: Feed)
    requires i < |t.l7| == |L7_PROTOCOLS|
  {
    Feed(t.l7[i].durationCount, L7_PROTOCOLS[i], true, {})
  }

  function FailedFeed(t: Traffic, i: nat): (f: Feed)
    requires i < |t.l7| == |L7_PROTOCOLS|
  {
    Feed(t.l7[i].failed, L7_PROTOCOLS[i], false, {})
  }

  function ProtocolPasses(t: Traffic, i: nat): (r: seq<Pass>)
    requires i < |t.l7| == |L7_PROTOCOLS|
  {
    var durations := t.l7[i].durationSum;
    [Pass(RequestFeed(t, i), AddRequests),
     Pass(FailedFeed(t, i), AddErrors),
     Pass(DurationFeed(t, i), SetLatency(Index(durations, |durations|)))]
  }

  function L7Passes(t: Traffic, n: nat): (r: seq<Pass>)
    requires n <= |t.l7| == |L7_PROTOCOLS|
  {
    if n == 0 then [] else L7Passes(t, n - 1) + ProtocolPasses(t, n - 1)
  }

  function ConnectFeed(t: Traffic, covered: set<Pair>): (f: Feed) {
    Feed(t.connects, "tcp", true, covered)
  }

  function GrpcFeed(t: Traffic): (f: Feed) {
    Feed(t.grpcFailed, "http", false, {})
  }

  function FailedConnectFeed(t: Traffic, covered: set<Pair>): (f: Feed) {
    Feed(t.failedConnects, "tcp", true, covered)
  }

  function TcpPasses(t: Traffic, covered: set<Pair>): (r: seq<Pass>) {
    [Pass(GrpcFeed(t), AddErrors),
     Pass(ConnectFeed(t, covered), AddConnects(Index(t.connectTime, |t.connectTime|))),
     Pass(FailedConnectFeed(t, covered), AddErrors)]
  }

  function Passes(t: Traffic, covered: set<Pair>): (r: seq<Pass>)
    requires |t.l7| == |L7_PROTOCOLS|
  {
    L7Passes(t, |t.l7|) + TcpPasses(t, covered)
  }

  /** Some request of protocol i was counted for the pair. */
  ghost predicate CoveredIn(to: Targets, t: Traffic, i: nat, p: Pair)
    requires i < |t.l7| == |L7_PROTOCOLS|
  {
    var samples := t.l7[i].requests;
    exists j :: 0 <= j < |samples| && Counted(to, RequestFeed(t, i), samples[j]) && PairOf(samples[j]) == p
  }

  /** Some application request was counted for the pair. */
  ghost predicate CoveredBy(to: Targets, t: Traffic, n: nat, p: Pair)
    requires n <= |t.l7| == |L7_PROTOCOLS|
  {
    exists i :: 0 <= i < n && CoveredIn(to, t, i, p)
  }

  method AddProtocol(to: Targets, t: Traffic, i: nat, was: Edges) returns (edges: Edges, pairs: set<Pair>)
    requires i < |t.l7| == |L7_PROTOCOLS| && Built(to, L7Passes(t, i), was)
    ensures Built(to, L7Passes(t, i + 1), edges)
    ensures forall p :: p in pairs <==> CoveredIn(to, t, i, p)
  {
    var c, protocol := t.l7[i], L7_PROTOCOLS[i];
    ghost var passes, step := L7Passes(t, i), ProtocolPasses(t, i);
    var e1, found := Absorb(to, was, Feed(c.requests, protocol, true, {}), AddRequests);
    BuiltMore(to, passes, was, step[0], e1);
    var e2, _ := Absorb(to, e1, Feed(c.failed, protocol, false, {}), AddErrors);
    BuiltMore(to, passes + [step[0]], e1, step[1], e2);
    var sums := IndexByEdge(c.durationSum);
    var e3, _ := Absorb(to, e2, Feed(c.durationCount, protocol, true, {}), SetLatency(sums));
    edges, pairs := e3, found;
    BuiltMore(to, passes + [step[0]] + [step[1]], e2, step[2], edges);
    assert passes + [step[0]] + [step[1]] + [step[2]] == passes + step;
  }

  method BuildEdges(to: Targets, t: Traffic) returns (edges: Edges, covered: set<Pair>)
    requires |t.l7| == |L7_PROTOCOLS|
    ensures Built(to, Passes(t, covered), edges)
    ensures forall p :: p in covered <==> CoveredBy(to, t, |t.l7|, p)
  {
    edges, covered := map[], {};
    for i := 0 to |t.l7|
      invariant Built(to, L7Passes(t, i), edges)
      invariant forall p :: p in covered <==> CoveredBy(to, t, i, p)
    {
      var pairs;
      edges, pairs := AddProtocol(to, t, i, edges);
      covered := covered + pairs;
    }
    ghost var passes, step := L7Passes(t, |t.l7|), TcpPasses(t, covered);
    var e1, _ := Absorb(to, edges, Feed(t.grpcFailed, "http", false, {}), AddErrors);
    BuiltMore(to, passes, edges, step[0], e1);
    var times := IndexByEdge(t.connectTime);
    var e2, _ := Absorb(to, e1, Feed(t.connects, "tcp", true, covered), AddConnects(times));
    BuiltMore(to, passes + [step[0]], e1, step[1], e2);
    var e3, _ := Absorb(to, e2, Feed(t.failedConnects, "tcp", true, covered), AddErrors);
    edges := e3;
    BuiltMore(to, passes + [step[0]] + [step[1]], e2, step[2], edges);
    assert passes + [step[0]] + [step[1]] + [step[2]] == Passes(t, covered);
  }

  // ----- Bytes -----

  function PairSum(samples: seq<Sample>, n: nat, p: Pair): (r: real)
    requires n <= |samples|
  {
    if n == 0 then 0.0 else PairSum(samples, n - 1, p) + if PairOf(samples[n - 1]) == p then samples[n - 1].value else 0.0
  }

  function Amount(m: map<Pair, real>, p: Pair): (r: real) {
    if p in m then m[p] else 0.0
  }

  method SumByContainerPair(samples: seq<Sample>) returns (sums: map<Pair, real>)
    ensures forall p :: Amount(sums, p) == PairSum(samples, |samples|, p)
  {
    sums := map[];
    for n := 0 to |samples|
      invariant forall p :: Amount(sums, p) == PairSum(samples, n, p)
    {
      var p := PairOf(samples[n]);
      sums := sums[p := (if p in sums then sums[p] else 0.0) + samples[n].value];
    }
  }

  /** best picks, for every pair that has an edge among `keys`, one with the most requests. */
  ghost predicate Best(edges: Edges, keys: set<EdgeKey>, best: map<Pair, EdgeKey>) {
    && keys <= edges.Keys
    && (forall p :: p in best ==> best[p] in keys && best[p].pair == p)
    && (forall k :: k in keys ==> k.pair in best && edges[k].requests <= edges[best[k.pair]].requests)
  }

  function WithBytes(e: Edge, sent: real, received: real): (r: Edge) {
    e.(bytesSent := sent, bytesReceived := received)
  }

  ghost predicate Placed(edges: Edges, best: map<Pair, EdgeKey>, done: set<Pair>, sent: map<Pair, real>, received: map<Pair, real>, placed: Edges) {
    && placed.Keys == edges.Keys
    && forall k :: k in placed ==>
         placed[k] == if k.pair in done && k.pair in best && best[k.pair] == k
                      then WithBytes(edges[k], Amount(sent, k.pair), Amount(received, k.pair)) else edges[k]
  }

  method PlaceBytes(edges: Edges, sent: map<Pair, real>, received: map<Pair, real>) returns (placed: Edges, best: map<Pair, EdgeKey>)
    ensures Best(edges, edges.Keys, best) && Placed(edges, best, best.Keys, sent, received, placed)
  {
    best := map[];
    var keys := edges.Keys;
    while keys != {}
      invariant keys <= edges.Keys && Best(edges, edges.Keys - keys, best)
    {
      var k :| k in keys;
      keys := keys - {k};
      if k.pair !in best || edges[k].requests > edges[best[k.pair]].requests {
        best := best[k.pair := k];
      }
    }
    assert edges.Keys - {} == edges.Keys;
    placed := edges;
    var pairs := best.Keys;
    while pairs != {}
      invariant pairs <= best.Keys && Placed(edges, best, best.Keys - pairs, sent, received, placed)
    {
      var p :| p in pairs;
      pairs := pairs - {p};
      placed := placed[best[p] := WithBytes(placed[best[p]], Amount(sent, p), Amount(received, p))];
    }
    assert best.Keys - {} == best.Keys;
  }

  // ----- Rounding and emission -----

  /** math.Round: half away from zero. */
  function Round(v: real): (r: real) {
    if v >= 0.0 then (v + 0.5).Floor as real else -((-v + 0.5).Floor as real)
  }

  function WholeCount(v: real): (r: real)
    ensures (r > 0.0) == (v > 0.0) && (v > 0.0 ==> r >= 1.0) && (r == 0.0 || r == Round(v) || (r == 1.0 && v < 1.0))
  {
    if v <= 0.0 then 0.0 else if Round(v) >= 1.0 then Round(v) else 1.0
  }

  function Rounded(e: Edge): (r: Edge) {
    e.(requests := WholeCount(e.requests), errors := WholeCount(e.errors),
       bytesSent := Round(e.bytesSent), bytesReceived := Round(e.bytesReceived))
  }

  predicate Shown(e: Edge) {
    e.requests > 0.0 || e.errors > 0.0
  }

  datatype Row = Row(key: EdgeKey, edge: Edge)

  /** One row for every edge among `keys` that has a request or an error left after rounding. */
  ghost predicate Emitted(edges: Edges, keys: set<EdgeKey>, rows: seq<Row>) {
    && Distinct(rows) && keys <= edges.Keys
    && forall row :: row in rows <==> row.key in keys && row.edge == Rounded(edges[row.key]) && Shown(row.edge)
  }

  method Emit(edges: Edges) returns (rows: seq<Row>)
    ensures Emitted(edges, edges.Keys, rows)
  {
    rows := [];
    var keys := edges.Keys;
    while keys != {}
      invariant keys <= edges.Keys && Emitted(edges, edges.Keys - keys, rows)
    {
      var k :| k in keys;
      keys := keys - {k};
      var e := Rounded(edges[k]);
      if e.requests > 0.0 || e.errors > 0.0 {
        DistinctMore(rows, Row(k, e));
        rows := rows + [Row(k, e)];
      }
    }
    assert edges.Keys - {} == edges.Keys;
  }

  // ----- Order and cut -----

  /** The comparison of sort.Slice: requests down, then source service, then destination. */
  predicate Precedes(a: Row, b: Row) {
    if a.edge.requests != b.edge.requests then a.edge.requests > b.edge.requests
    else if ServiceName(a.key.pair.container) != ServiceName(b.key.pair.container) then
      Less(ServiceName(a.key.pair.container), ServiceName(b.key.pair.container))
    else Less(a.key.pair.destination, b.key.pair.destination)
  }

  ghost predicate InOrder(rows: seq<Row>) {
    forall i, j :: 0 <= i < j < |rows| ==> !Precedes(rows[j], rows[i])
  }

  lemma NotLessTransitive(a: string, b: string, c: string)
    requires !Less(b, a) && !Less(c, b)
    ensures !Less(c, a)
  {
    LessTotal(a, b);
    LessTotal(b, c);
    if Less(c, a) {
      if a != b { LessTransitive(c, a, b); }
      if Less(b, c) { LessTransitive(b, c, b); LessIrreflexive(b); }
    }
  }

  lemma PrecedesTransitive(a: Row, b: Row, c: Row)
    requires !Precedes(b, a) && !Precedes(c, b)
    ensures !Precedes(c, a)
  {
    var x, y, z := ServiceName(a.key.pair.container), ServiceName(b.key.pair.container), ServiceName(c.key.pair.container);
    if a.edge.requests == b.edge.requests == c.edge.requests {
      LessTotal(x, y);
      LessTotal(y, z);
      LessIrreflexive(x);
      if x == y == z {
        NotLessTransitive(a.key.pair.destination, b.key.pair.destination, c.key.pair.destination);
      } else if Less(x, y) && Less(y, z) {
        LessTransitive(x, y, z);
        if Less(z, x) { LessTransitive(x, z, x); }
      } else if x != z && Less(z, x) {
        NotLessTransitive(x, y, z);
      }
    }
  }

  lemma PrecedesAsymmetric(a: Row, b: Row)
    ensures !Precedes(a, b) || !Precedes(b, a)
  {
    if Precedes(a, b) && Precedes(b, a) {
      var x, y := ServiceName(a.key.pair.container), ServiceName(b.key.pair.container);
      if x != y {
        LessTransitive(x, y, x);
        LessIrreflexive(x);
      } else {
        LessTransitive(a.key.pair.destination, b.key.pair.destination, a.key.pair.destination);
        LessIrreflexive(a.key.pair.destination);
      }
    }
  }

  function InsertRow(row: Row, rows: seq<Row>): (r: seq<Row>)
    requires InOrder(rows)
    ensures InOrder(r) && multiset(r) == multiset(rows) + multiset{row}
  {
    if rows == [] then [row]
    else if !Precedes(rows[0], row) then
      RowFirst(row, rows); [row] + rows
    else
      var rest := InsertRow(row, rows[1..]);
      RowLater(row, rows, rest); [rows[0]] + rest
  }

  lemma RowFirst(row: Row, rows: seq<Row>)
    requires rows != [] && InOrder(rows) && !Precedes(rows[0], row)
    ensures InOrder([row] + rows)
  {
    forall j | 0 <= j < |rows| ensures !Precedes(rows[j], row) {
      if j > 0 { PrecedesTransitive(row, rows[0], rows[j]); }
    }
  }

  lemma RowLater(row: Row, rows: seq<Row>, rest: seq<Row>)
    requires rows != [] && InOrder(rows) && Precedes(rows[0], row)
    requires InOrder(rest) && multiset(rest) == multiset(rows[1..]) + multiset{row}
    ensures InOrder([rows[0]] + rest) && multiset([rows[0]] + rest) == multiset(rows) + multiset{row}
  {
    forall j | 0 <= j < |rest| ensures !Precedes(rest[j], rows[0]) {
      assert rest[j] in multiset(rest);
      assert rest[j] == row || rest[j] in rows[1..];
      PrecedesAsymmetric(rows[0], row);
    }
    assert rows == [rows[0]] + rows[1..];
  }

  /** sort.Slice, up to the order of rows that compare equal. */
  function SortRows(rows: seq<Row>): (r: seq<Row>)
    ensures InOrder(r) && multiset(r) == multiset(rows)
  {
    if rows == [] then []
    else
      assert rows == [rows[0]] + rows[1..];
      InsertRow(rows[0], SortRows(rows[1..]))
  }

  lemma SortKeepsRows(edges: Edges, rows: seq<Row>)
    requires Emitted(edges, edges.Keys, rows)
    ensures Emitted(edges, edges.Keys, SortRows(rows))
  {
    DistinctPermuted(rows, SortRows(rows));
    forall row ensures row in rows <==> row in SortRows(rows) {
      assert row in multiset(rows) <==> row in multiset(SortRows(rows));
    }
  }

  /** Every stage of one build. */
  datatype ServiceMap = ServiceMap(edges: Edges, covered: set<Pair>, best: map<Pair, EdgeKey>, placed: Edges, rows: seq<Row>)

  /** The best edge of each pair carries the byte totals of the pair, the others none. */
  ghost predicate HasBytes(t: Traffic, edges: Edges, best: map<Pair, EdgeKey>, placed: Edges) {
    && placed.Keys == edges.Keys
    && forall k :: k in placed ==>
         placed[k] == if k.pair in best && best[k.pair] == k
                      then WithBytes(edges[k], PairSum(t.bytesSent, |t.bytesSent|, k.pair), PairSum(t.bytesReceived, |t.bytesReceived|, k.pair))
                      else edges[k]
  }

  ghost predicate Maps(to: Targets, t: Traffic, m: ServiceMap)
    requires |t.l7| == |L7_PROTOCOLS|
  {
    && Built(to, Passes(t, m.covered), m.edges)
    && (forall p :: p in m.covered <==> CoveredBy(to, t, |t.l7|, p))
    && Best(m.edges, m.edges.Keys, m.best) && HasBytes(t, m.edges, m.best, m.placed)
    && InOrder(m.rows) && Emitted(m.placed, m.placed.Keys, m.rows)
  }

  method AddBytes(t: Traffic, edges: Edges) returns (placed: Edges, best: map<Pair, EdgeKey>)
    ensures Best(edges, edges.Keys, best) && HasBytes(t, edges, best, placed)
  {
    var sent := SumByContainerPair(t.bytesSent);
    var received := SumByContainerPair(t.bytesReceived);
    placed, best := PlaceBytes(edges, sent, received);
  }

  method MapTraffic(to: Targets, t: Traffic) returns (m: ServiceMap)
    requires |t.l7| == |L7_PROTOCOLS|
    ensures Maps(to, t, m)
  {
    var edges, covered := BuildEdges(to, t);
    var placed, best := AddBytes(t, edges);
    var rows := Emit(placed);
    SortKeepsRows(placed, rows);
    m := ServiceMap(edges, covered, best, placed, SortRows(rows));
  }

  function ResolvedBy(net: Net, r: Resolver): (to: Targets) {
    d => ResolveIn(net, r, d)
  }

  /** No row left out has more requests than one that is sent. */
  ghost predicate Heaviest(sent: seq<Row>, all: seq<Row>) {
    forall a, b :: a in sent && b in all && b !in sent ==> a.edge.requests >= b.edge.requests
  }

  lemma PrefixIsHeaviest(all: seq<Row>, n: nat)
    requires InOrder(all) && n <= |all|
    ensures Heaviest(all[..n], all)
  {
    assert all == all[..n] + all[n..];
    forall a, b | a in all[..n] && b in all[n..] ensures a.edge.requests >= b.edge.requests {
      var i :| 0 <= i < n && all[i] == a;
      var j :| n <= j < |all| && all[j] == b;
      assert !Precedes(all[j], all[i]);
    }
  }

  /** buildServiceMap after the queries have answered; the rows it sends, and what they were built from. */
  method BuildServiceMap(net: Net, series: Series, t: Traffic)
    returns (rows: seq<Row>, truncated: bool, r: Resolver, services: seq<Service>, idx: map<ContainerKey, Service>, m: ServiceMap)
    requires |t.l7| == |L7_PROTOCOLS|
    ensures BuiltFrom(net, r, series, services, idx)
    ensures Maps(ResolvedBy(net, r), t, m)
    ensures truncated <==> |m.rows| > MAX_EDGES
    ensures rows == if truncated then m.rows[..MAX_EDGES] else m.rows
    ensures Heaviest(rows, m.rows)
  {
    r, services, idx := BuildResolver(net, series);
    m := MapTraffic(ResolvedBy(net, r), t);
    rows, truncated := m.rows, false;
    if |rows| > MAX_EDGES {
      PrefixIsHeaviest(rows, MAX_EDGES);
      rows, truncated := rows[..MAX_EDGES], true;
    }
  }
}
