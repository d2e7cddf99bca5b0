/** Every run of pool operations. */
module SshPoolRuns {
  import opened Collections
  import opened SshPool

  /** The address a client was last returned for, and when. */
  datatype Use = Use(to: string, at: Time)

  /** `uses` and `closed` are history: the last use of every client ever dialled, and the clients
      closed, in order. */
  datatype System = System(s: State, clock: Time, uses: map<Client, Use>, closed: seq<Client>)

  datatype Step =
    | Advance(to: Time)
    | Get(addr: string, alive: bool, dialled: Option<Client>, victim: string)
    | Cleanup(order: seq<string>)
    | DoClose(order: seq<string>)
    | DoConfigure(size: int, lifetime: Time, ok: bool, order: seq<string>)

  /** Get reaches its dial, and the dial succeeds. */
  ghost predicate Dials(x: System, step: Step)
    requires step.Get?
  {
    !(step.addr in x.s.pool && step.alive) && x.s.ready && step.dialled.Some?
  }

  ghost predicate Enabled(x: System, step: Step) {
    match step
    case Advance(to) => x.clock <= to
    case Get(addr, alive, dialled, victim) =>
      && addr != ""
      && (MustEvict(x.s, addr) ==> victim in x.s.pool - {addr})
      && (MustEvict(x.s, addr) && !(addr in x.s.pool && alive) ==> Oldest(x.s.pool - {addr}, victim))
      && (Dials(x, step) ==> dialled.value !in x.uses)   // each dial makes a new client
    case Cleanup(order) => Enumerates(order, Expired(x.s, x.clock))
    case DoClose(order) => Enumerates(order, x.s.pool.Keys)
    case DoConfigure(_, _, _, order) => Enumerates(order, x.s.pool.Keys)
  }

  ghost function Apply(x: System, step: Step): System
    requires Enabled(x, step)
  {
    match step
    case Advance(to) => x.(clock := to)
    case Get(addr, alive, dialled, victim) =>
      var r := GetIn(x.s, addr, alive, dialled, victim, x.clock);
      x.(s := x.s.(pool := r.pool), closed := x.closed + r.closed,
         uses := if r.client.Some? then x.uses[r.client.value := Use(addr, x.clock)] else x.uses)
    case Cleanup(order) =>
      x.(s := x.s.(pool := x.s.pool - Expired(x.s, x.clock)), closed := x.closed + ClientsInOrder(x.s.pool, order))
    case DoClose(order) =>
      x.(s := x.s.(pool := map[], ready := false), closed := x.closed + ClientsInOrder(x.s.pool, order))
    case DoConfigure(size, lifetime, ok, order) =>
      x.(s := State(map[], ok, size, lifetime), closed := x.closed + ClientsInOrder(x.s.pool, order))
  }

  ghost predicate Init(x: System) {
    x == System(State(map[], false, 0, 0), x.clock, map[], [])
  }

  ghost predicate Runs(x: System, steps: seq<Step>)
    decreases |steps|
  {
    steps == [] || (Enabled(x, steps[0]) && Runs(Apply(x, steps[0]), steps[1..]))
  }

  ghost function After(x: System, steps: seq<Step>): System
    requires Runs(x, steps)
    decreases |steps|
  {
    if steps == [] then x else After(Apply(x, steps[0]), steps[1..])
  }

  // ----- Invariants -----

  ghost predicate PoolOk(x: System) {
    |x.s.pool| <= Limit(x.s) && "" !in x.s.pool && (!x.s.ready ==> x.s.pool == map[])
  }

  /** Every client ever dialled is pooled under one address or was closed once. */
  ghost predicate ClientsOk(pool: Pool, used: set<Client>, closed: seq<Client>) {
    && (forall a, b :: a in pool && b in pool && a != b ==> pool[a].client != pool[b].client)
    && (forall a :: a in pool ==> pool[a].client in used && pool[a].client !in closed)
    && Distinct(closed) && (forall c :: c in closed ==> c in used)
    && (forall c :: c in used && c !in closed ==> Pooled(pool, c))
  }

  ghost predicate Pooled(pool: Pool, c: Client) {
    exists a :: a in pool && pool[a].client == c
  }

  lemma SizeWithout(pool: Pool, addr: string)
    ensures |pool - {addr}| == if addr in pool then |pool| - 1 else |pool|
  {
    if addr in pool {
      assert (pool - {addr}).Keys == pool.Keys - {addr};
      assert |(pool - {addr}).Keys| == |pool.Keys| - 1;
    } else {
      assert pool - {addr} == pool;
    }
  }

  lemma SizeWith(pool: Pool, addr: string, e: Entry)
    ensures |pool[addr := e]| == if addr in pool then |pool| else |pool| + 1
  {
    var keys := pool[addr := e].Keys;
    assert keys == pool.Keys + {addr};
    assert addr !in pool ==> |keys| == |pool.Keys| + 1;
    assert addr in pool ==> keys == pool.Keys;
    assert |pool[addr := e]| == |keys| && |pool| == |pool.Keys|;
  }

  lemma SizeShrinks(pool: Pool, keys: set<string>)
    requires keys <= pool.Keys
    ensures |pool - keys| <= |pool|
  {
    assert (pool - keys).Keys == pool.Keys - keys;
    assert |pool - keys| == |pool.Keys - keys| && |pool| == |pool.Keys|;
  }

  lemma GetKeepsPool(x: System, step: Step)
    requires PoolOk(x) && step.Get? && Enabled(x, step)
    ensures PoolOk(Apply(x, step))
  {
    var addr := step.addr;
    var rest := x.s.pool - {addr};
    SizeWithout(x.s.pool, addr);
    if addr in x.s.pool && step.alive {
      SizeWith(x.s.pool, addr, x.s.pool[addr].(lastUsed := x.clock));
    } else {
      var left := if MustEvict(x.s, addr) then rest - {step.victim} else rest;
      SizeWithout(rest, step.victim);
      assert rest == map[] ==> |rest| == 0;
      if Dials(x, step) { SizeWith(left, addr, Entry(step.dialled.value, x.clock)); }
    }
  }

  lemma StepKeepsPool(x: System, step: Step)
    requires PoolOk(x) && Enabled(x, step)
    ensures PoolOk(Apply(x, step))
  {
    if step.Get? {
      GetKeepsPool(x, step);
    } else if step.Cleanup? {
      SizeShrinks(x.s.pool, Expired(x.s, x.clock));
    }
  }

  /** Closing what leaves the pool. */
  lemma DropKeepsClients(pool: Pool, used: set<Client>, closed: seq<Client>, keys: set<string>, order: seq<string>)
    requires ClientsOk(pool, used, closed) && keys <= pool.Keys && Enumerates(order, keys)
    ensures ClientsOk(pool - keys, used, closed + ClientsInOrder(pool, order))
  {
    var gone := ClientsInOrder(pool, order);
    assert forall i :: 0 <= i < |order| ==> order[i] in order;
    DistinctConcat(closed, gone);
    forall a | a in keys ensures pool[a].client in gone {
      var i :| 0 <= i < |order| && order[i] == a;
      assert gone[i] == pool[a].client;
    }
    forall c | c in used && c !in closed + gone ensures Pooled(pool - keys, c) {
      var a :| a in pool && pool[a].client == c;
      assert a !in keys && (pool - keys)[a].client == c;
    }
  }

  lemma DialKeepsClients(pool: Pool, used: set<Client>, closed: seq<Client>, addr: string, c: Client, now: Time)
    requires ClientsOk(pool, used, closed) && c !in used && addr !in pool
    ensures ClientsOk(pool[addr := Entry(c, now)], used + {c}, closed)
  {
    var more := pool[addr := Entry(c, now)];
    forall d | d in used + {c} && d !in closed ensures Pooled(more, d) {
      if d == c {
        assert more[addr].client == c;
      } else {
        var a :| a in pool && pool[a].client == d;
        assert more[a].client == d;
      }
    }
  }

  lemma TouchKeepsClients(pool: Pool, used: set<Client>, closed: seq<Client>, addr: string, now: Time)
    requires ClientsOk(pool, used, closed) && addr in pool
    ensures ClientsOk(pool[addr := pool[addr].(lastUsed := now)], used, closed)
  {
    var more := pool[addr := pool[addr].(lastUsed := now)];
    forall d | d in used && d !in closed ensures Pooled(more, d) {
      var a :| a in pool && pool[a].client == d;
      assert more[a].client == d;
    }
  }

  lemma DropOne(pool: Pool, used: set<Client>, closed: seq<Client>, addr: string)
    requires ClientsOk(pool, used, closed) && addr in pool
    ensures ClientsOk(pool - {addr}, used, closed + [pool[addr].client])
  {
    DropKeepsClients(pool, used, closed, {addr}, [addr]);
    assert ClientsInOrder(pool, [addr]) == [pool[addr].client];
  }

  lemma DropMaybe(pool: Pool, used: set<Client>, closed: seq<Client>, addr: string)
    requires ClientsOk(pool, used, closed)
    ensures ClientsOk(pool - {addr}, used, closed + if addr in pool then [pool[addr].client] else [])
  {
    if addr in pool {
      DropOne(pool, used, closed, addr);
    } else {
      assert pool - {addr} == pool && closed + [] == closed;
    }
  }

  /** The pool and the closed clients when Get is about to dial. */
  lemma MakingRoom(pool: Pool, used: set<Client>, closed: seq<Client>, addr: string, evict: bool, victim: string)
    requires ClientsOk(pool, used, closed) && (evict ==> victim in pool - {addr})
    ensures var rest := pool - {addr};
            var gone := (if addr in pool then [pool[addr].client] else []) + (if evict then [rest[victim].client] else []);
            ClientsOk(if evict then rest - {victim} else rest, used, closed + gone)
  {
    var rest := pool - {addr};
    var dead := if addr in pool then [pool[addr].client] else [];
    DropMaybe(pool, used, closed, addr);
    if evict {
      DropOne(rest, used, closed + dead, victim);
      assert closed + dead + [rest[victim].client] == closed + (dead + [rest[victim].client]);
    } else {
      assert dead + [] == dead;
    }
  }

  /** A client is new in the history exactly when it was dialled. */
  lemma GetUses(x: System, step: Step)
    requires ClientsOk(x.s.pool, x.uses.Keys, x.closed) && step.Get? && Enabled(x, step)
    ensures Apply(x, step).uses.Keys == x.uses.Keys + if Dials(x, step) then {step.dialled.value} else {}
  {
    if step.addr in x.s.pool && step.alive { assert x.s.pool[step.addr].client in x.uses.Keys; }
  }

  lemma GetTouches(x: System, step: Step)
    requires ClientsOk(x.s.pool, x.uses.Keys, x.closed) && step.Get? && Enabled(x, step) && step.addr in x.s.pool && step.alive
    ensures var y := Apply(x, step); ClientsOk(y.s.pool, x.uses.Keys, y.closed)
  {
    TouchKeepsClients(x.s.pool, x.uses.Keys, x.closed, step.addr, x.clock);
    assert Apply(x, step).closed == x.closed;
  }

  lemma GetReplaces(x: System, step: Step)
    requires ClientsOk(x.s.pool, x.uses.Keys, x.closed) && step.Get? && Enabled(x, step) && !(step.addr in x.s.pool && step.alive)
    ensures var y := Apply(x, step);
            ClientsOk(y.s.pool, x.uses.Keys + if Dials(x, step) then {step.dialled.value} else {}, y.closed)
  {
    var addr, y, used := step.addr, Apply(x, step), x.uses.Keys;
    var evict := MustEvict(x.s, addr);
    MakingRoom(x.s.pool, used, x.closed, addr, evict, step.victim);
    if Dials(x, step) {
      var rest := x.s.pool - {addr};
      DialKeepsClients(if evict then rest - {step.victim} else rest, used, y.closed, addr, step.dialled.value, x.clock);
    } else {
      assert used + {} == used;
    }
  }

  lemma GetKeepsClients(x: System, step: Step)
    requires ClientsOk(x.s.pool, x.uses.Keys, x.closed) && step.Get? && Enabled(x, step)
    ensures var y := Apply(x, step); ClientsOk(y.s.pool, y.uses.Keys, y.closed)
  {
    GetUses(x, step);
    if step.addr in x.s.pool && step.alive {
      GetTouches(x, step);
    } else {
      GetReplaces(x, step);
    }
  }

  lemma StepKeepsClients(x: System, step: Step)
    requires ClientsOk(x.s.pool, x.uses.Keys, x.closed) && Enabled(x, step)
    ensures var y := Apply(x, step); ClientsOk(y.s.pool, y.uses.Keys, y.closed)
  {
    match step {
      case Advance(_) =>
      case Get(_, _, _, _) => GetKeepsClients(x, step);
      case Cleanup(order) => DropKeepsClients(x.s.pool, x.uses.Keys, x.closed, Expired(x.s, x.clock), order);
      case DoClose(order) =>
        DropKeepsClients(x.s.pool, x.uses.Keys, x.closed, x.s.pool.Keys, order);
        assert x.s.pool - x.s.pool.Keys == map[];
      case DoConfigure(_, _, _, order) =>
        DropKeepsClients(x.s.pool, x.uses.Keys, x.closed, x.s.pool.Keys, order);
        assert x.s.pool - x.s.pool.Keys == map[];
    }
  }

  /** A pooled connection was last returned for its address at its last-used time. */
  ghost predicate UsesOk(x: System) {
    forall a :: a in x.s.pool ==> x.s.pool[a].client in x.uses && x.uses[x.s.pool[a].client] == Use(a, x.s.pool[a].lastUsed)
  }

  lemma ReuseKeepsUses(x: System, step: Step)
    requires UsesOk(x) && ClientsOk(x.s.pool, x.uses.Keys, x.closed)
    requires step.Get? && Enabled(x, step) && step.addr in x.s.pool && step.alive
    ensures UsesOk(Apply(x, step))
  {
  }

  lemma MissPool(x: System, step: Step, a: string)
    requires step.Get? && Enabled(x, step) && !(step.addr in x.s.pool && step.alive) && a in Apply(x, step).s.pool
    ensures var e := Apply(x, step).s.pool[a];
            || (a in x.s.pool && e == x.s.pool[a])
            || (a == step.addr && Dials(x, step) && e == Entry(step.dialled.value, x.clock))
  {
  }

  lemma MissKeepsUses(x: System, step: Step)
    requires UsesOk(x) && step.Get? && Enabled(x, step) && !(step.addr in x.s.pool && step.alive)
    ensures UsesOk(Apply(x, step))
  {
    var z := Apply(x, step);
    forall a | a in z.s.pool
      ensures z.s.pool[a].client in z.uses && z.uses[z.s.pool[a].client] == Use(a, z.s.pool[a].lastUsed)
    {
      MissPool(x, step, a);
      MissReturns(x, step);
    }
  }

  lemma StepKeepsUses(x: System, step: Step)
    requires UsesOk(x) && ClientsOk(x.s.pool, x.uses.Keys, x.closed) && Enabled(x, step)
    ensures UsesOk(Apply(x, step))
  {
    if step.Get? && step.addr in x.s.pool && step.alive {
      ReuseKeepsUses(x, step);
    } else if step.Get? {
      MissKeepsUses(x, step);
    }
  }

  ghost predicate Inv(x: System) {
    PoolOk(x) && ClientsOk(x.s.pool, x.uses.Keys, x.closed) && UsesOk(x)
  }

  // ----- Theorems over whole runs -----

  lemma {:induction false} RunKeeps(x: System, steps: seq<Step>)
    requires Inv(x) && Runs(x, steps)
    ensures Inv(After(x, steps))
    decreases |steps|
  {
    if steps != [] {
      StepKeepsPool(x, steps[0]);
      StepKeepsClients(x, steps[0]);
      StepKeepsUses(x, steps[0]);
      RunKeeps(Apply(x, steps[0]), steps[1..]);
    }
  }

  /** The pool never exceeds its limit, and a closed or unconfigured pool holds nothing. */
  lemma PoolStaysWithinLimit(x: System, steps: seq<Step>)
    requires Init(x) && Runs(x, steps)
    ensures var y := After(x, steps); |y.s.pool| <= Limit(y.s) && (!y.s.ready ==> y.s.pool == map[])
  {
    RunKeeps(x, steps);
  }

  /** Every client ever dialled is pooled under exactly one address, or was closed exactly once. */
  lemma EveryClientPooledOrClosed(x: System, steps: seq<Step>, c: Client)
    requires Init(x) && Runs(x, steps) && c in After(x, steps).uses
    ensures var y := After(x, steps);
            && Distinct(y.closed)
            && (c in y.closed <==> !Pooled(y.s.pool, c))
            && (forall a, b :: a in y.s.pool && b in y.s.pool && y.s.pool[a].client == c && y.s.pool[b].client == c ==> a == b)
  {
    RunKeeps(x, steps);
  }

  lemma GetLeaves(y: System, step: Step, a: string)
    requires step.Get? && Enabled(y, step) && a in y.s.pool && PoolOk(y) && ClientsOk(y.s.pool, y.uses.Keys, y.closed)
    ensures var z, e := Apply(y, step), y.s.pool[a];
            e.client in z.closed ==>
              || (step.addr == a && !step.alive)
              || (step.victim == a && Oldest(y.s.pool - {step.addr}, a) && |y.s.pool - {step.addr}| >= MaxSize(y.s))
  {
    var r := GetIn(y.s, step.addr, step.alive, step.dialled, step.victim, y.clock);
    var e := y.s.pool[a];
    if e.client in r.closed {
      assert !(step.addr in y.s.pool && step.alive);
      if a != step.addr {
        assert MustEvict(y.s, step.addr) && (y.s.pool - {step.addr})[step.victim].client == e.client;
      }
    }
  }

  lemma CleanupLeaves(y: System, order: seq<string>, a: string)
    requires Enabled(y, Cleanup(order)) && a in y.s.pool && ClientsOk(y.s.pool, y.uses.Keys, y.closed)
    ensures ClientAt(y, a) in Apply(y, Cleanup(order)).closed ==> y.s.pool[a].lastUsed < y.clock - Ttl(y.s)
  {
    var gone := ClientsInOrder(y.s.pool, order);
    if ClientAt(y, a) in gone {
      var i :| 0 <= i < |gone| && gone[i] == ClientAt(y, a);
      assert order[i] in order;
    }
  }

  lemma StaysPooled(y: System, step: Step, a: string)
    requires Enabled(y, step) && a in y.s.pool && PoolOk(y) && ClientsOk(y.s.pool, y.uses.Keys, y.closed)
    ensures var z := Apply(y, step);
            ClientAt(y, a) in z.closed || (a in z.s.pool && ClientAt(z, a) == ClientAt(y, a))
  {
    StepKeepsClients(y, step);
    var z, c := Apply(y, step), ClientAt(y, a);
    assert c in z.uses;
    if c !in z.closed {
      var b :| b in z.s.pool && z.s.pool[b].client == c;
      SamePlace(y, step, a, b);
    }
  }

  lemma SamePlace(y: System, step: Step, a: string, b: string)
    requires Enabled(y, step) && a in y.s.pool && PoolOk(y) && ClientsOk(y.s.pool, y.uses.Keys, y.closed)
    requires b in Apply(y, step).s.pool && Apply(y, step).s.pool[b].client == ClientAt(y, a)
    ensures a == b
  {
  }

  /** A pooled connection leaves the pool only dead, as the longest idle of a full pool, expired, or
      with the whole pool. */
  lemma LeavesForAReason(x: System, steps: seq<Step>, step: Step, a: string)
    requires Init(x) && Runs(x, steps) && Enabled(After(x, steps), step) && a in After(x, steps).s.pool
    ensures var y := After(x, steps);
            var z, e := Apply(y, step), y.s.pool[a];
            && (e.client !in z.closed ==> a in z.s.pool && z.s.pool[a].client == e.client)
            && (e.client in z.closed ==>
                  || (step.Get? && step.addr == a && !step.alive)
                  || (step.Get? && step.victim == a && Oldest(y.s.pool - {step.addr}, a) && |y.s.pool - {step.addr}| >= MaxSize(y.s))
                  || (step.Cleanup? && e.lastUsed < y.clock - Ttl(y.s))
                  || step.DoClose? || step.DoConfigure?)
  {
    var y := After(x, steps);
    RunKeeps(x, steps);
    StaysPooled(y, step, a);
    match step
    case Get(_, _, _, _) => GetLeaves(y, step, a);
    case Cleanup(order) => CleanupLeaves(y, order, a);
    case _ =>
  }

  ghost function ClientAt(y: System, a: string): Client
    requires a in y.s.pool
  {
    y.s.pool[a].client
  }

  // ----- What each operation does, on the clients and their uses -----

  /** The client was dialled and is not closed. */
  ghost predicate Open(x: System, c: Client) {
    c in x.uses && c !in x.closed
  }

  ghost predicate OpenTo(x: System, c: Client, addr: string) {
    Open(x, c) && x.uses[c].to == addr
  }

  ghost function OpenElsewhere(x: System, addr: string): set<Client> {
    set c | c in x.uses && Open(x, c) && x.uses[c].to != addr
  }

  ghost predicate LongestUnused(x: System, cs: set<Client>, v: Client) {
    v in cs && forall c :: c in cs && c in x.uses && v in x.uses ==> x.uses[v].at <= x.uses[c].at
  }

  /** What Get returns. */
  ghost function Returned(x: System, step: Step): Option<Client>
    requires step.Get? && Enabled(x, step)
  {
    GetIn(x.s, step.addr, step.alive, step.dialled, step.victim, x.clock).client
  }

  lemma OpenIsPooled(x: System, c: Client)
    requires Inv(x)
    ensures Open(x, c) <==> c in x.uses && x.uses[c].to in x.s.pool && x.s.pool[x.uses[c].to] == Entry(c, x.uses[c].at)
  {
    if Open(x, c) {
      assert Pooled(x.s.pool, c);
    }
  }

  /** In every run the pool holds exactly the open clients, each under the address it was last returned
      for with the time of that use. */
  lemma PoolIsTheOpenClients(x: System, steps: seq<Step>, a: string, e: Entry)
    requires Init(x) && Runs(x, steps)
    ensures var y := After(x, steps);
            a in y.s.pool && y.s.pool[a] == e <==> Open(y, e.client) && y.uses[e.client] == Use(a, e.lastUsed)
  {
    RunKeeps(x, steps);
    OpenIsPooled(After(x, steps), e.client);
  }

  lemma {:induction false} PoolSize(pool: Pool)
    requires forall a, b :: a in pool && b in pool && a != b ==> pool[a].client != pool[b].client
    ensures |set a | a in pool :: pool[a].client| == |pool|
    decreases |pool|
  {
    var clients := set a | a in pool :: pool[a].client;
    if pool == map[] {
      assert clients == {};
    } else {
      var a :| a in pool;
      var rest := pool - {a};
      SizeWithout(pool, a);
      PoolSize(rest);
      assert forall b :: b in rest ==> rest[b].client == pool[b].client && b in pool;
      assert clients == (set b | b in rest :: rest[b].client) + {pool[a].client};
    }
  }

  lemma ElsewhereSize(x: System, addr: string)
    requires Inv(x)
    ensures |OpenElsewhere(x, addr)| == |x.s.pool - {addr}|
    ensures forall c :: c in OpenElsewhere(x, addr) <==> Pooled(x.s.pool - {addr}, c)
  {
    var rest := x.s.pool - {addr};
    forall c ensures c in OpenElsewhere(x, addr) <==> Pooled(rest, c) {
      OpenIsPooled(x, c);
      if c in OpenElsewhere(x, addr) { assert rest[x.uses[c].to].client == c; }
    }
    PoolSize(rest);
    assert OpenElsewhere(x, addr) == set a | a in rest :: rest[a].client;
  }

  lemma VictimLongestUnused(x: System, addr: string, victim: string)
    requires Inv(x) && Oldest(x.s.pool - {addr}, victim)
    ensures LongestUnused(x, OpenElsewhere(x, addr), x.s.pool[victim].client)
  {
    ElsewhereSize(x, addr);
    var rest := x.s.pool - {addr};
    assert rest[victim].client == x.s.pool[victim].client;
    forall c | c in OpenElsewhere(x, addr) ensures x.uses[x.s.pool[victim].client].at <= x.uses[c].at {
      OpenIsPooled(x, c);
      assert x.uses[c].to in rest;
    }
  }

  /** dead holds the open client to addr, if any. */
  ghost predicate AreDead(y: System, addr: string, dead: seq<Client>) {
    forall c :: c in dead <==> OpenTo(y, c, addr)
  }

  /** evicted holds the longest unused of the open clients to other addresses, if these fill the pool. */
  ghost predicate MakesRoom(y: System, addr: string, evicted: seq<Client>) {
    var others := OpenElsewhere(y, addr);
    if |others| >= MaxSize(y.s) && others != {} then |evicted| == 1 && LongestUnused(y, others, evicted[0]) else evicted == []
  }

  /** From y to z, the open client to addr is closed, then a longest unused other if need be. */
  ghost predicate ClosesForRoom(y: System, z: System, addr: string) {
    exists dead: seq<Client>, evicted: seq<Client> ::
      AreDead(y, addr, dead) && MakesRoom(y, addr, evicted) && z.closed == y.closed + dead + evicted
  }

  lemma GetReuses(y: System, step: Step, c: Client)
    requires Inv(y) && step.Get? && Enabled(y, step) && step.alive && OpenTo(y, c, step.addr)
    ensures var z := Apply(y, step);
            Returned(y, step) == Some(c) && z.closed == y.closed && z.uses == y.uses[c := Use(step.addr, y.clock)]
  {
    OpenIsPooled(y, c);
  }

  lemma PooledIsDead(y: System, addr: string)
    requires Inv(y)
    ensures AreDead(y, addr, if addr in y.s.pool then [y.s.pool[addr].client] else [])
  {
    var dead := if addr in y.s.pool then [y.s.pool[addr].client] else [];
    forall c ensures c in dead <==> OpenTo(y, c, addr) {
      OpenIsPooled(y, c);
    }
  }

  lemma VictimMakesRoom(y: System, addr: string, victim: string)
    requires Inv(y) && (MustEvict(y.s, addr) ==> Oldest(y.s.pool - {addr}, victim))
    ensures MakesRoom(y, addr, if MustEvict(y.s, addr) then [y.s.pool[victim].client] else [])
  {
    var rest := y.s.pool - {addr};
    ElsewhereSize(y, addr);
    if MustEvict(y.s, addr) {
      VictimLongestUnused(y, addr, victim);
    }
    if rest != map[] {
      var a :| a in rest;
      assert Pooled(rest, rest[a].client);
    }
  }

  lemma MissCloses(y: System, step: Step)
    requires step.Get? && Enabled(y, step) && !(step.alive && step.addr in y.s.pool)
    ensures var dead := if step.addr in y.s.pool then [y.s.pool[step.addr].client] else [];
            var evicted := if MustEvict(y.s, step.addr) then [y.s.pool[step.victim].client] else [];
            Apply(y, step).closed == y.closed + dead + evicted
  {
  }

  lemma MissReturns(y: System, step: Step)
    requires step.Get? && Enabled(y, step) && !(step.alive && step.addr in y.s.pool)
    ensures Returned(y, step) == (if y.s.ready then step.dialled else None)
    ensures Apply(y, step).uses == if y.s.ready && step.dialled.Some? then y.uses[step.dialled.value := Use(step.addr, y.clock)] else y.uses
  {
  }

  lemma MissMakesRoom(y: System, z: System, addr: string, victim: string)
    requires Inv(y) && (MustEvict(y.s, addr) ==> Oldest(y.s.pool - {addr}, victim))
    requires var dead := if addr in y.s.pool then [y.s.pool[addr].client] else [];
             var evicted := if MustEvict(y.s, addr) then [y.s.pool[victim].client] else [];
             z.closed == y.closed + dead + evicted
    ensures ClosesForRoom(y, z, addr)
  {
    var dead := if addr in y.s.pool then [y.s.pool[addr].client] else [];
    var evicted := if MustEvict(y.s, addr) then [y.s.pool[victim].client] else [];
    assert AreDead(y, addr, dead) by { PooledIsDead(y, addr); }
    assert MakesRoom(y, addr, evicted) by { VictimMakesRoom(y, addr, victim); }
  }

  lemma OpenToPooled(y: System, addr: string)
    requires Inv(y)
    ensures addr in y.s.pool <==> exists c :: OpenTo(y, c, addr)
  {
    if addr in y.s.pool {
      OpenIsPooled(y, y.s.pool[addr].client);
      assert OpenTo(y, y.s.pool[addr].client, addr);
    }
    if c :| OpenTo(y, c, addr) {
      OpenIsPooled(y, c);
    }
  }

  /** In every run, getting a connection to an address returns the open client to it if that is alive and
      closes nothing. Otherwise it closes that client, closes the longest unused of the others when they
      fill the pool, and returns the dialled client, or none without a configuration or a dial. */
  lemma GetExactly(x: System, steps: seq<Step>, step: Step)
    requires Init(x) && Runs(x, steps) && step.Get? && Enabled(After(x, steps), step)
    ensures var y, z := After(x, steps), Apply(After(x, steps), step);
            && (forall c :: step.alive && OpenTo(y, c, step.addr) ==>
                  Returned(y, step) == Some(c) && z.closed == y.closed && z.uses == y.uses[c := Use(step.addr, y.clock)])
            && (!(step.alive && exists c :: OpenTo(y, c, step.addr)) ==>
                  && ClosesForRoom(y, z, step.addr)
                  && Returned(y, step) == (if y.s.ready then step.dialled else None)
                  && z.uses == if y.s.ready && step.dialled.Some? then y.uses[step.dialled.value := Use(step.addr, y.clock)] else y.uses)
  {
    var y := After(x, steps);
    RunKeeps(x, steps);
    OpenToPooled(y, step.addr);
    if step.alive && step.addr in y.s.pool {
      forall c | OpenTo(y, c, step.addr)
        ensures var z := Apply(y, step);
                Returned(y, step) == Some(c) && z.closed == y.closed && z.uses == y.uses[c := Use(step.addr, y.clock)]
      {
        GetReuses(y, step, c);
      }
    } else {
      MissCloses(y, step);
      MissReturns(y, step);
      MissMakesRoom(y, Apply(y, step), step.addr, step.victim);
    }
  }

  lemma Dropped(y: System, keys: set<string>, order: seq<string>, c: Client)
    requires Inv(y) && keys <= y.s.pool.Keys && Enumerates(order, keys)
    ensures c in ClientsInOrder(y.s.pool, order) <==> Open(y, c) && y.uses[c].to in keys
  {
    OpenIsPooled(y, c);
    var gone := ClientsInOrder(y.s.pool, order);
    if c in gone {
      var i :| 0 <= i < |gone| && gone[i] == c;
      assert order[i] in order;
    }
    if Open(y, c) && y.uses[c].to in keys {
      var i :| 0 <= i < |order| && order[i] == y.uses[c].to;
      assert gone[i] == c;
    }
  }

  /** In every run, the cleanup closes exactly the open clients unused for longer than the TTL, and
      closing or configuring the proxy closes exactly the open clients. */
  lemma ClosesExactly(x: System, steps: seq<Step>, step: Step, c: Client)
    requires Init(x) && Runs(x, steps) && !step.Get? && Enabled(After(x, steps), step)
    ensures var y, z := After(x, steps), Apply(After(x, steps), step);
            && z.uses == y.uses
            && (c in z.closed <==>
                  || c in y.closed
                  || (step.Cleanup? && Open(y, c) && y.uses[c].at < y.clock - Ttl(y.s))
                  || ((step.DoClose? || step.DoConfigure?) && Open(y, c)))
  {
    var y := After(x, steps);
    RunKeeps(x, steps);
    OpenIsPooled(y, c);
    match step
    case Cleanup(order) => Dropped(y, Expired(y.s, y.clock), order, c);
    case DoClose(order) => Dropped(y, y.s.pool.Keys, order, c);
    case DoConfigure(_, _, _, order) => Dropped(y, y.s.pool.Keys, order, c);
    case _ =>
  }
}
