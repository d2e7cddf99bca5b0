/** What the order in which the store returns samples can change of the call graph. */
module VmServiceMapOrder {
  import opened Collections
  import opened VmDestinations
  import opened VmServiceMap
  import opened VmServiceMapTheorems

  // ----- Sums do not depend on the order -----

  ghost function Sum(s: seq<Sample>, g: Sample -> real): real {
    if s == [] then 0.0 else Sum(s[..|s| - 1], g) + g(s[|s| - 1])
  }

  lemma {:induction false} SumWithout(s: seq<Sample>, j: nat, g: Sample -> real)
    requires j < |s|
    ensures Sum(s, g) == Sum(s[..j] + s[j + 1..], g) + g(s[j])
  {
    var init, last := s[..|s| - 1], s[|s| - 1];
    if j == |init| {
      assert s[..j] + s[j + 1..] == init;
    } else {
      var rest := s[..j] + s[j + 1..];
      SumWithout(init, j, g);
      assert rest[..|rest| - 1] == init[..j] + init[j + 1..] && rest[|rest| - 1] == last;
    }
  }

  lemma {:induction false} SumPermuted(a: seq<Sample>, b: seq<Sample>, g: Sample -> real)
    requires multiset(a) == multiset(b)
    ensures Sum(a, g) == Sum(b, g)
  {
    if a == [] {
      assert |multiset(b)| == 0;
    } else {
      var init, last := a[..|a| - 1], a[|a| - 1];
      assert last in multiset(b);
      var j :| 0 <= j < |b| && b[j] == last;
      WithoutLast(a, b, j);
      SumPermuted(init, b[..j] + b[j + 1..], g);
      SumWithout(b, j, g);
    }
  }

  /** What a sample adds to the total of key k. */
  ghost function Contribution(to: Targets, f: Feed, k: EdgeKey): Sample -> real {
    var empty := f.(samples := []);
    s => if Hits(to, empty, s, k) then s.value else 0.0
  }

  lemma {:induction false} TotalIsSum(to: Targets, f: Feed, n: nat, k: EdgeKey)
    requires n <= |f.samples|
    ensures Total(to, f, n, k) == Sum(f.samples[..n], Contribution(to, f, k))
  {
    if n > 0 {
      TotalIsSum(to, f, n - 1, k);
      assert f.samples[..n][..n - 1] == f.samples[..n - 1];
    }
  }

  /** The same series in another order. */
  ghost predicate Reordered(f: Feed, f': Feed) {
    f' == f.(samples := f'.samples) && multiset(f.samples) == multiset(f'.samples)
  }

  lemma TotalReordered(to: Targets, f: Feed, f': Feed, k: EdgeKey)
    requires Reordered(f, f')
    ensures FeedTotal(to, f, k) == FeedTotal(to, f', k)
  {
    TotalIsSum(to, f, |f.samples|, k);
    TotalIsSum(to, f', |f'.samples|, k);
    assert f.samples[..|f.samples|] == f.samples && f'.samples[..|f'.samples|] == f'.samples;
    assert f.(samples := []) == f'.(samples := []);
    SumPermuted(f.samples, f'.samples, Contribution(to, f, k));
  }

  lemma SameMembers(a: seq<Sample>, b: seq<Sample>, i: nat) returns (j: nat)
    requires multiset(a) == multiset(b) && i < |a|
    ensures j < |b| && b[j] == a[i]
  {
    assert a[i] in multiset(b);
    j :| 0 <= j < |b| && b[j] == a[i];
  }

  lemma TouchesReordered(to: Targets, f: Feed, f': Feed, k: EdgeKey)
    requires Reordered(f, f') && Touches(to, f, |f.samples|, k)
    ensures Touches(to, f', |f'.samples|, k)
  {
    var i :| 0 <= i < |f.samples| && Hits(to, f, f.samples[i], k);
    var j := SameMembers(f.samples, f'.samples, i);
    assert Hits(to, f', f'.samples[j], k);
  }

  // ----- Passes over reordered series -----

  ghost predicate Alike(p: Pass, p': Pass) {
    && Reordered(p.feed, p'.feed)
    && (CountsRequests(p.effect) <==> CountsRequests(p'.effect)) && (p.effect.AddErrors? <==> p'.effect.AddErrors?)
  }

  ghost predicate AllAlike(ps: seq<Pass>, ps': seq<Pass>) {
    |ps| == |ps'| && forall i :: 0 <= i < |ps| ==> Alike(ps[i], ps'[i])
  }

  lemma {:induction false} TotalsAlike(to: Targets, ps: seq<Pass>, ps': seq<Pass>, k: EdgeKey)
    requires AllAlike(ps, ps')
    ensures RequestTotal(to, ps, k) == RequestTotal(to, ps', k) && ErrorTotal(to, ps, k) == ErrorTotal(to, ps', k)
  {
    if ps != [] {
      var n := |ps| - 1;
      TotalsAlike(to, ps[..n], ps'[..n], k);
      assert Alike(ps[n], ps'[n]);
      TotalReordered(to, ps[n].feed, ps'[n].feed, k);
    }
  }

  lemma ReachedAlike(to: Targets, ps: seq<Pass>, ps': seq<Pass>, k: EdgeKey)
    requires AllAlike(ps, ps') && Reached(to, ps, k)
    ensures Reached(to, ps', k)
  {
    var i :| 0 <= i < |ps| && Touches(to, ps[i].feed, |ps[i].feed.samples|, k);
    assert Alike(ps[i], ps'[i]);
    TouchesReordered(to, ps[i].feed, ps'[i].feed, k);
  }

  ghost predicate ShuffledCounters(c: Counters, c': Counters) {
    && multiset(c.requests) == multiset(c'.requests) && multiset(c.failed) == multiset(c'.failed)
    && multiset(c.durationSum) == multiset(c'.durationSum) && multiset(c.durationCount) == multiset(c'.durationCount)
  }

  /** Every series holds the same samples, in any order. */
  ghost predicate Shuffled(t: Traffic, t': Traffic) {
    && |t.l7| == |t'.l7| && (forall i :: 0 <= i < |t.l7| ==> ShuffledCounters(t.l7[i], t'.l7[i]))
    && multiset(t.grpcFailed) == multiset(t'.grpcFailed)
    && multiset(t.connects) == multiset(t'.connects) && multiset(t.failedConnects) == multiset(t'.failedConnects)
    && multiset(t.connectTime) == multiset(t'.connectTime)
    && multiset(t.bytesSent) == multiset(t'.bytesSent) && multiset(t.bytesReceived) == multiset(t'.bytesReceived)
  }

  lemma ProtocolAlike(t: Traffic, t': Traffic, i: nat)
    requires Complete(t) && Complete(t') && Shuffled(t, t') && i < |t.l7|
    ensures AllAlike(ProtocolPasses(t, i), ProtocolPasses(t', i))
  {
    assert ShuffledCounters(t.l7[i], t'.l7[i]);
  }

  lemma AlikeConcat(a: seq<Pass>, a': seq<Pass>, b: seq<Pass>, b': seq<Pass>)
    requires AllAlike(a, a') && AllAlike(b, b')
    ensures AllAlike(a + b, a' + b')
  {
    forall i | 0 <= i < |a + b| ensures Alike((a + b)[i], (a' + b')[i]) {
      if i < |a| {
        assert Alike(a[i], a'[i]);
      } else {
        assert Alike(b[i - |a|], b'[i - |a|]);
      }
    }
  }

  lemma {:induction false} L7Alike(t: Traffic, t': Traffic, n: nat)
    requires Complete(t) && Complete(t') && Shuffled(t, t') && n <= |t.l7|
    ensures AllAlike(L7Passes(t, n), L7Passes(t', n))
  {
    if n > 0 {
      L7Alike(t, t', n - 1);
      ProtocolAlike(t, t', n - 1);
      AlikeConcat(L7Passes(t, n - 1), L7Passes(t', n - 1), ProtocolPasses(t, n - 1), ProtocolPasses(t', n - 1));
    }
  }

  lemma PassesAlike(t: Traffic, t': Traffic, covered: set<Pair>)
    requires Complete(t) && Complete(t') && Shuffled(t, t')
    ensures AllAlike(Passes(t, covered), Passes(t', covered))
  {
    L7Alike(t, t', |t.l7|);
    assert AllAlike(TcpPasses(t, covered), TcpPasses(t', covered));
    AlikeConcat(L7Passes(t, |t.l7|), L7Passes(t', |t'.l7|), TcpPasses(t, covered), TcpPasses(t', covered));
  }

  lemma CoveredAlike(to: Targets, t: Traffic, t': Traffic, p: Pair)
    requires Complete(t) && Complete(t') && Shuffled(t, t') && CoveredBy(to, t, |t.l7|, p)
    ensures CoveredBy(to, t', |t'.l7|, p)
  {
    var i :| 0 <= i < |t.l7| && CoveredIn(to, t, i, p);
    assert ShuffledCounters(t.l7[i], t'.l7[i]);
    var a, b := t.l7[i].requests, t'.l7[i].requests;
    var j :| 0 <= j < |a| && Counted(to, RequestFeed(t, i), a[j]) && PairOf(a[j]) == p;
    var j' := SameMembers(a, b, j);
    assert Counted(to, RequestFeed(t', i), b[j']);
    assert CoveredIn(to, t', i, p);
  }

  lemma ShuffledBack(t: Traffic, t': Traffic)
    requires Shuffled(t, t')
    ensures Shuffled(t', t)
  {
    forall i | 0 <= i < |t.l7| ensures ShuffledCounters(t'.l7[i], t.l7[i]) {
      assert ShuffledCounters(t.l7[i], t'.l7[i]);
    }
  }

  lemma SameCovered(to: Targets, t: Traffic, t': Traffic, m: ServiceMap, m': ServiceMap)
    requires Complete(t) && Complete(t') && Shuffled(t, t') && Maps(to, t, m) && Maps(to, t', m')
    ensures m.covered == m'.covered
  {
    ShuffledBack(t, t');
    forall p ensures p in m.covered <==> p in m'.covered {
      if p in m.covered { CoveredAlike(to, t, t', p); }
      if p in m'.covered { CoveredAlike(to, t', t, p); }
    }
  }

  lemma AlikeBack(ps: seq<Pass>, ps': seq<Pass>)
    requires AllAlike(ps, ps')
    ensures AllAlike(ps', ps)
  {
    forall i | 0 <= i < |ps| ensures Alike(ps'[i], ps[i]) {
      assert Alike(ps[i], ps'[i]);
    }
  }

  lemma EdgesAlike(to: Targets, ps: seq<Pass>, ps': seq<Pass>, edges: Edges, edges': Edges)
    requires AllAlike(ps, ps') && Built(to, ps, edges) && Built(to, ps', edges')
    ensures edges.Keys == edges'.Keys
    ensures forall k :: k in edges && k in edges' ==>
              edges[k].requests == edges'[k].requests && edges[k].errors == edges'[k].errors && edges[k].target == edges'[k].target
  {
    AlikeBack(ps, ps');
    forall k ensures k in edges <==> k in edges' {
      if k in edges { ReachedAlike(to, ps, ps', k); }
      if k in edges' { ReachedAlike(to, ps', ps, k); }
    }
    forall k | k in edges && k in edges'
      ensures edges[k].requests == edges'[k].requests && edges[k].errors == edges'[k].errors && edges[k].target == edges'[k].target
    {
      assert BuiltEdge(to, ps, k, edges[k]) && BuiltEdge(to, ps', k, edges'[k]);
      TotalsAlike(to, ps, ps', k);
    }
  }

  lemma {:induction false} PairSumIsSum(samples: seq<Sample>, n: nat, p: Pair)
    requires n <= |samples|
    ensures PairSum(samples, n, p) == Sum(samples[..n], s => if PairOf(s) == p then s.value else 0.0)
  {
    if n > 0 {
      PairSumIsSum(samples, n - 1, p);
      assert samples[..n][..n - 1] == samples[..n - 1];
    }
  }

  lemma PairSumPermuted(a: seq<Sample>, b: seq<Sample>, p: Pair)
    requires multiset(a) == multiset(b)
    ensures PairSum(a, |a|, p) == PairSum(b, |b|, p)
  {
    PairSumIsSum(a, |a|, p);
    PairSumIsSum(b, |b|, p);
    assert a[..|a|] == a && b[..|b|] == b;
    SumPermuted(a, b, s => if PairOf(s) == p then s.value else 0.0);
  }

  /** The order of the samples changes neither which edges there are nor their requests, errors and
      destinations, nor the byte totals of a pair. */
  lemma OrderDoesNotMatter(to: Targets, t: Traffic, t': Traffic, m: ServiceMap, m': ServiceMap)
    requires Complete(t) && Complete(t') && Shuffled(t, t') && Maps(to, t, m) && Maps(to, t', m')
    ensures m.edges.Keys == m'.edges.Keys && m.covered == m'.covered
    ensures forall k :: k in m.edges && k in m'.edges ==>
              && m.edges[k].requests == m'.edges[k].requests && m.edges[k].errors == m'.edges[k].errors
              && m.edges[k].target == m'.edges[k].target
    ensures forall p :: PairSum(t.bytesSent, |t.bytesSent|, p) == PairSum(t'.bytesSent, |t'.bytesSent|, p)
                     && PairSum(t.bytesReceived, |t.bytesReceived|, p) == PairSum(t'.bytesReceived, |t'.bytesReceived|, p)
  {
    SameCovered(to, t, t', m, m');
    PassesAlike(t, t', m.covered);
    EdgesAlike(to, Passes(t, m.covered), Passes(t', m.covered), m.edges, m'.edges);
    forall p ensures PairSum(t.bytesSent, |t.bytesSent|, p) == PairSum(t'.bytesSent, |t'.bytesSent|, p)
                  && PairSum(t.bytesReceived, |t.bytesReceived|, p) == PairSum(t'.bytesReceived, |t'.bytesReceived|, p)
    {
      PairSumPermuted(t.bytesSent, t'.bytesSent, p);
      PairSumPermuted(t.bytesReceived, t'.bytesReceived, p);
    }
  }

  // ----- Latency -----

  lemma {:induction false} IdentitySumIsSum(samples: seq<Sample>, n: nat, id: EdgeKey)
    requires n <= |samples|
    ensures IdentitySum(samples, n, id) == Sum(samples[..n], s => if EdgeKeyOf(s, "") == id then s.value else 0.0)
  {
    if n > 0 {
      IdentitySumIsSum(samples, n - 1, id);
      assert samples[..n][..n - 1] == samples[..n - 1];
    }
  }

  /** The summed durations of an identity do not depend on the order. */
  lemma IdentitySumPermuted(a: seq<Sample>, b: seq<Sample>, id: EdgeKey)
    requires multiset(a) == multiset(b)
    ensures IdentitySum(a, |a|, id) == IdentitySum(b, |b|, id)
  {
    IdentitySumIsSum(a, |a|, id);
    IdentitySumIsSum(b, |b|, id);
    assert a[..|a|] == a && b[..|b|] == b;
    SumPermuted(a, b, s => if EdgeKeyOf(s, "") == id then s.value else 0.0);
  }

  /** All counted samples of the key carry the same value. */
  ghost predicate OneValue(to: Targets, f: Feed, k: EdgeKey) {
    forall i, j :: 0 <= i < |f.samples| && 0 <= j < |f.samples| && Hits(to, f, f.samples[i], k) && Hits(to, f, f.samples[j], k) ==>
      f.samples[i].value == f.samples[j].value
  }

  lemma OneValueStays(to: Targets, f: Feed, f': Feed, durations: seq<Sample>, k: EdgeKey)
    requires Reordered(f, f') && f.positive && f'.positive && OneValue(to, f, k)
    ensures SeriesLatency(to, f', durations, k) == SeriesLatency(to, f, durations, k)
  {
    var last, last' := LastHit(to, f, |f.samples|, k), LastHit(to, f', |f'.samples|, k);
    if last'.Some? {
      var i := SameMembers(f'.samples, f.samples, last'.value);
      assert Hits(to, f, f.samples[i], k);
    }
    if last.Some? {
      var j := SameMembers(f.samples, f'.samples, last.value);
      assert Hits(to, f', f'.samples[j], k);
    }
  }

  lemma ProductsDiffer(x: real, v: real, w: real)
    requires x != 0.0 && v != w
    ensures x * v != x * w
  {
    assert x * v - x * w == x * (v - w);
  }

  lemma QuotientsDiffer(s: real, v: real, w: real)
    requires s != 0.0 && v > 0.0 && w > 0.0 && v != w
    ensures s / v * 1000.0 != s / w * 1000.0
  {
    var x, y := s / v, s / w;
    assert x * v == s && y * w == s;
    ProductsDiffer(x, v, w);
  }

  /** The sample moved to the end of its series. */
  ghost function MovedLast(f: Feed, h: nat): (r: Feed)
    requires h < |f.samples|
  {
    f.(samples := f.samples[..h] + f.samples[h + 1..] + [f.samples[h]])
  }

  lemma MovingLast(to: Targets, f: Feed, h: nat, k: EdgeKey)
    requires h < |f.samples| && Hits(to, f, f.samples[h], k)
    ensures Reordered(f, MovedLast(f, h))
    ensures LastHit(to, MovedLast(f, h), |f.samples|, k) == Some(|f.samples| - 1)
  {
    var p := MovedLast(f, h).samples;
    assert f.samples == f.samples[..h] + [f.samples[h]] + f.samples[h + 1..];
    assert p[|p| - 1] == f.samples[h];
    assert Hits(to, MovedLast(f, h), p[|p| - 1], k);
  }

  lemma OrderShows(to: Targets, f: Feed, durations: seq<Sample>, k: EdgeKey, h: nat)
    requires f.positive && h < |f.samples| && Hits(to, f, f.samples[h], k)
    requires var last := LastHit(to, f, |f.samples|, k);
             last.Some? && f.samples[last.value].value != f.samples[h].value
    requires IdentitySum(durations, |durations|, k.(protocol := "")) != 0.0
    ensures SeriesLatency(to, MovedLast(f, h), durations, k) != SeriesLatency(to, f, durations, k)
  {
    var last := LastHit(to, f, |f.samples|, k).value;
    MovingLast(to, f, h, k);
    QuotientsDiffer(IdentitySum(durations, |durations|, k.(protocol := "")), f.samples[h].value, f.samples[last].value);
  }

  /** The latency of a key is the same in every order of its series exactly when no duration was
      recorded for it or all its counted samples carry the same value. */
  lemma LatencyOrder(to: Targets, f: Feed, durations: seq<Sample>, k: EdgeKey)
    requires f.positive
    ensures (forall f' :: Reordered(f, f') ==> SeriesLatency(to, f', durations, k) == SeriesLatency(to, f, durations, k)) <==>
            IdentitySum(durations, |durations|, k.(protocol := "")) == 0.0 || OneValue(to, f, k)
  {
    if IdentitySum(durations, |durations|, k.(protocol := "")) == 0.0 {
      forall f' | Reordered(f, f') ensures SeriesLatency(to, f', durations, k) == SeriesLatency(to, f, durations, k) {
        NoDuration(to, f, durations, k);
        NoDuration(to, f', durations, k);
      }
    } else if OneValue(to, f, k) {
      forall f' | Reordered(f, f') ensures SeriesLatency(to, f', durations, k) == SeriesLatency(to, f, durations, k) {
        OneValueStays(to, f, f', durations, k);
      }
    } else {
      var f' := TwoValuesShow(to, f, durations, k);
    }
  }

  lemma NoDuration(to: Targets, f: Feed, durations: seq<Sample>, k: EdgeKey)
    requires f.positive && IdentitySum(durations, |durations|, k.(protocol := "")) == 0.0
    ensures SeriesLatency(to, f, durations, k) == 0.0
  {
    var last := LastHit(to, f, |f.samples|, k);
    if last.Some? { NothingOver(f.samples[last.value].value); }
  }

  lemma NothingOver(v: real)
    requires v > 0.0
    ensures 0.0 / v * 1000.0 == 0.0
  {
    var x := 0.0 / v;
    assert x * v == 0.0;
  }

  lemma TwoValuesShow(to: Targets, f: Feed, durations: seq<Sample>, k: EdgeKey) returns (f': Feed)
    requires f.positive && !OneValue(to, f, k) && IdentitySum(durations, |durations|, k.(protocol := "")) != 0.0
    ensures Reordered(f, f') && SeriesLatency(to, f', durations, k) != SeriesLatency(to, f, durations, k)
  {
    var i, j :| 0 <= i < |f.samples| && 0 <= j < |f.samples| && Hits(to, f, f.samples[i], k) && Hits(to, f, f.samples[j], k)
                && f.samples[i].value != f.samples[j].value;
    assert Touches(to, f, |f.samples|, k);
    var last := LastHit(to, f, |f.samples|, k).value;
    var h := if f.samples[i].value != f.samples[last].value then i else j;
    OrderShows(to, f, durations, k, h);
    MovingLast(to, f, h, k);
    f' := MovedLast(f, h);
  }
}
