/** Every interleaving of requests, the idle sweeper and Close over one MCP proxy.

A request walks through handleWithSession; between its critical sections any other request, a
sweep or a Close may run, and the clock may advance. The network answers nondeterministically. */
module McpRuns {
  import opened Collections
  import opened McpSessions

  /** Where one request stands in handleWithSession. `retry` marks the pass after a 404. */
  datatype Call =
    | Entering(key: string, retry: bool)                             // before ensureSession
    | Handshaking(key: string, retry: bool, since: Time)             // initialize is on the wire
    | Unopened(key: string, retry: bool, sessionless: bool, failed: bool)
    | Holding(key: string, retry: bool, since: Time, id: string)     // initialize returned an id
    | Ready(key: string, retry: bool, sid: string, at: Time)         // about to post, "" = no session
    | Gone(key: string, sid: string)                                 // the server answered 404
    | Finished

  /** The whole system. The fields after `calls` are history: nothing reads them back. */
  datatype System = System(
    g: Guarded,
    clock: Time,
    calls: map<nat, Call>,
    openedFor: map<string, string>,      // id -> key of the request that opened it
    handed: seq<string>,              // ids handed out for termination, in order
    forgotten: set<string>,           // ids deleted by dropSession
    orphaned: set<string>,            // ids overwritten in the table without termination
    refused: set<string>,             // ids the server answered 404 to
    posts: seq<(string, string)>,     // (key, id) of every message sent inside a session
    drained: bool)                    // some Close has emptied the table

  datatype InitReply = InitError | InitReply(status: int, id: string)
  datatype PostReply = PostError | PostReply(status: int)

  datatype Step =
    | Advance(to: Time)
    | Arrive(c: nat, key: string)
    | LookUp(c: nat)
    | Answer(c: nat, init: InitReply)
    | Conclude(c: nat)
    | Store(c: nat)
    | Post(c: nat, post: PostReply)
    | Drop(c: nat)
    | Sweep(order: seq<string>)
    | CloseMark
    | CloseTake(order: seq<string>)

  const STATUS_NOT_FOUND := 404

  ghost predicate Init(s: System) {
    && s == System(Guarded(map[], s.g.sessionlessUntil, false), s.clock, map[], map[], [], {}, {}, {}, [], false)
    && s.g.sessionlessUntil <= s.clock
  }

  /** The server never assigns the same session id twice. */
  ghost predicate FreshReply(s: System, init: InitReply) {
    init.InitReply? && init.status < 400 && init.id != "" ==> init.id !in s.openedFor
  }

  ghost predicate Enabled(s: System, step: Step) {
    match step
    case Advance(to) => s.clock <= to
    case Arrive(c, _) => c !in s.calls
    case LookUp(c) => c in s.calls && s.calls[c].Entering?
    case Answer(c, init) => c in s.calls && s.calls[c].Handshaking? && FreshReply(s, init)
    case Conclude(c) => c in s.calls && s.calls[c].Unopened?
    case Store(c) => c in s.calls && s.calls[c].Holding?
    case Post(c, _) => c in s.calls && s.calls[c].Ready?
    case Drop(c) => c in s.calls && s.calls[c].Gone?
    case Sweep(order) => Enumerates(order, Matching(s.g.sessions, x => IdleAt(x, s.clock)))
    case CloseMark => true
    case CloseTake(order) => s.g.closed && Enumerates(order, s.g.sessions.Keys)
  }

  ghost function Apply(s: System, step: Step): System
    requires Enabled(s, step)
  {
    match step
    case Advance(to) => s.(clock := to)
    case Arrive(c, key) => s.(calls := s.calls[c := Entering(key, false)])
    case LookUp(c) => ApplyLookUp(s, c)
    case Answer(c, init) => ApplyAnswer(s, c, init)
    case Conclude(c) => ApplyConclude(s, c)
    case Store(c) => ApplyStore(s, c)
    case Post(c, post) => ApplyPost(s, c, post)
    case Drop(c) => ApplyDrop(s, c)
    case Sweep(order) =>
      s.(g := TakeSection(s.g, x => IdleAt(x, s.clock)), handed := s.handed + IdsInOrder(s.g.sessions, order))
    case CloseMark => s.(g := s.g.(closed := true))
    case CloseTake(order) =>
      s.(g := TakeSection(s.g, _ => true), handed := s.handed + IdsInOrder(s.g.sessions, order), drained := true)
  }

  ghost function ApplyLookUp(s: System, c: nat): System
    requires Enabled(s, LookUp(c))
  {
    var Entering(key, retry) := s.calls[c];
    var (g, r) := LookupSection(s.g, key, s.clock);
    match r
    case ProxyClosed => s.(calls := s.calls[c := Finished])
    case NoSessions => s.(calls := s.calls[c := Ready(key, retry, "", s.clock)])
    case Found(id) => s.(g := g, calls := s.calls[c := Ready(key, retry, id, s.clock)])
    case Expired(stale) =>
      s.(g := g, calls := s.calls[c := Handshaking(key, retry, s.clock)], handed := s.handed + [stale])
    case Missing => s.(calls := s.calls[c := Handshaking(key, retry, s.clock)])
  }

  ghost function ApplyAnswer(s: System, c: nat, init: InitReply): System
    requires Enabled(s, Answer(c, init))
  {
    var Handshaking(key, retry, since) := s.calls[c];
    if init.InitError? then s.(calls := s.calls[c := Unopened(key, retry, false, true)])
    else if init.status >= 400 then s.(calls := s.calls[c := Unopened(key, retry, init.status < 500, true)])
    else if init.id == "" then s.(calls := s.calls[c := Unopened(key, retry, true, false)])
    else s.(calls := s.calls[c := Holding(key, retry, since, init.id)],
            openedFor := s.openedFor[init.id := key],
            posts := s.posts + [(key, init.id)])  // the initialized notification
  }

  ghost function ApplyConclude(s: System, c: nat): System
    requires Enabled(s, Conclude(c))
  {
    var Unopened(key, retry, sessionless, failed) := s.calls[c];
    // A failed handshake is tolerated on the first pass only.
    var next := if retry && failed then Finished else Ready(key, retry, "", s.clock);
    s.(g := if sessionless then SessionlessSection(s.g, s.clock) else s.g, calls := s.calls[c := next])
  }

  ghost function ApplyStore(s: System, c: nat): System
    requires Enabled(s, Store(c))
  {
    var Holding(key, retry, _, id) := s.calls[c];
    var (g, r) := StoreSection(s.g, key, id, s.clock);
    match r
    case TooLate => s.(calls := s.calls[c := Finished], handed := s.handed + [id])
    case LostRace(winner) =>
      s.(g := g, calls := s.calls[c := Ready(key, retry, winner, s.clock)], handed := s.handed + [id])
    case Kept =>
      s.(g := g, calls := s.calls[c := Ready(key, retry, id, s.clock)],
         orphaned := if key in s.g.sessions then s.orphaned + {s.g.sessions[key].id} else s.orphaned)
  }

  ghost function ApplyPost(s: System, c: nat, post: PostReply): System
    requires Enabled(s, Post(c, post))
  {
    var Ready(key, retry, sid, _) := s.calls[c];
    var gone := post.PostReply? && sid != "" && post.status == STATUS_NOT_FOUND;
    s.(calls := s.calls[c := if gone && !retry then Gone(key, sid) else Finished],
       posts := if sid == "" then s.posts else s.posts + [(key, sid)],
       refused := if gone then s.refused + {sid} else s.refused)
  }

  ghost function ApplyDrop(s: System, c: nat): System
    requires Enabled(s, Drop(c))
  {
    var Gone(key, sid) := s.calls[c];
    s.(g := DropSection(s.g, key, sid), calls := s.calls[c := Entering(key, true)],
       forgotten := if key in s.g.sessions && s.g.sessions[key].id == sid then s.forgotten + {sid} else s.forgotten)
  }

  ghost predicate Runs(s: System, steps: seq<Step>)
    decreases |steps|
  {
    steps == [] || (Enabled(s, steps[0]) && Runs(Apply(s, steps[0]), steps[1..]))
  }

  ghost function After(s: System, steps: seq<Step>): System
    requires Runs(s, steps)
    decreases |steps|
  {
    if steps == [] then s else After(Apply(s, steps[0]), steps[1..])
  }

  // ----- What a step may change -----

  /** The relation between any two successive states. An entry of the table changes its id only
      after a 404, on a closed proxy, or when it has been idle for the whole TTL. */
  ghost predicate Evolves(s: System, t: System) {
    && s.clock <= t.clock
    && (s.g.closed ==> t.g.closed && t.g.sessions.Keys <= s.g.sessions.Keys)
    && (forall id :: id in s.openedFor ==> id in t.openedFor && t.openedFor[id] == s.openedFor[id])
    && s.refused <= t.refused && s.forgotten <= t.forgotten
    && s.handed <= t.handed && s.orphaned <= t.orphaned
    && (forall k :: k in t.g.sessions ==> Newer(s, k, t.g.sessions[k]))
    && (forall k :: k in s.g.sessions ==> Outlives(t, k, s.g.sessions[k]))
  }

  /** Entry e under key k is the old entry, used since, or was written after state s. */
  ghost predicate Newer(s: System, k: string, e: Session) {
    || s.clock <= e.lastUsed
    || (k in s.g.sessions && s.g.sessions[k].lastUsed <= e.lastUsed)
  }

  ghost predicate Outlives(t: System, k: string, e: Session) {
    || (k in t.g.sessions && t.g.sessions[k].id == e.id && e.lastUsed <= t.g.sessions[k].lastUsed)
    || e.id in t.forgotten
    || t.g.closed
    || IdleAt(e, t.clock)
  }

  // ----- Invariants -----

  ghost predicate Owns(s: System, key: string, id: string) {
    id != "" && id in s.openedFor && s.openedFor[id] == key
  }

  ghost predicate Fenced(s: System, key: string, since: Time) {
    since <= s.clock && (key in s.g.sessions ==> since <= s.g.sessions[key].lastUsed)
  }

  /** Session sid, returned to a request for key at time `at`, is still in the table unless a 404
      removed it, the proxy closed, or the whole idle TTL has passed since. */
  ghost predicate Usable(s: System, key: string, sid: string, at: Time) {
    at <= s.clock && Outlives(s, key, Session(sid, at))
  }

  /** What holds of a request at each point. */
  ghost predicate CallOk(s: System, call: Call) {
    match call
    case Handshaking(key, _, since) => Fenced(s, key, since)
    case Holding(key, _, since, id) => Fenced(s, key, since) && Owns(s, key, id)
    case Ready(key, _, sid, at) => sid != "" ==> Owns(s, key, sid) && Usable(s, key, sid, at)
    case Gone(key, sid) => Owns(s, key, sid) && sid in s.refused
    case _ => true
  }

  ghost predicate CallsOk(s: System) {
    forall c :: c in s.calls ==> CallOk(s, s.calls[c])
  }

  ghost predicate TableOk(s: System) {
    && (forall k :: k in s.g.sessions ==> Owns(s, k, s.g.sessions[k].id) && s.g.sessions[k].lastUsed <= s.clock)
    && (s.drained ==> s.g.closed && s.g.sessions.Keys == {})
  }

  ghost predicate HistoryOk(s: System) {
    && (forall i :: 0 <= i < |s.posts| ==> Owns(s, s.posts[i].0, s.posts[i].1))
    && s.forgotten <= s.refused
  }

  ghost predicate Inv(s: System) {
    TableOk(s) && CallsOk(s) && HistoryOk(s)
  }

  lemma EvolvesKeepsCall(s: System, t: System, call: Call)
    requires Evolves(s, t) && TableOk(s) && CallOk(s, call)
    ensures CallOk(t, call)
  {
    match call
    case Ready(key, _, sid, at) =>
      if sid != "" && key in s.g.sessions && s.g.sessions[key].id == sid {
        assert Outlives(t, key, s.g.sessions[key]);
      }
    case Holding(key, _, _, _) =>
      if key in t.g.sessions { assert Newer(s, key, t.g.sessions[key]); }
    case Handshaking(key, _, _) =>
      if key in t.g.sessions { assert Newer(s, key, t.g.sessions[key]); }
    case _ =>
  }

  lemma EvolvesKeepsCalls(s: System, t: System, c: nat)
    requires Evolves(s, t) && TableOk(s) && CallsOk(s)
    requires c in t.calls && CallOk(t, t.calls[c])
    requires forall d :: d in t.calls && d != c ==> d in s.calls && t.calls[d] == s.calls[d]
    ensures CallsOk(t)
  {
    forall d | d in t.calls ensures CallOk(t, t.calls[d]) {
      if d != c { EvolvesKeepsCall(s, t, s.calls[d]); }
    }
  }

  lemma EvolvesKeepsAllCalls(s: System, t: System)
    requires Evolves(s, t) && TableOk(s) && CallsOk(s) && t.calls == s.calls
    ensures CallsOk(t)
  {
    forall d | d in t.calls ensures CallOk(t, t.calls[d]) {
      EvolvesKeepsCall(s, t, s.calls[d]);
    }
  }

  lemma LookUpEvolves(s: System, c: nat)
    requires TableOk(s) && Enabled(s, LookUp(c))
    ensures Evolves(s, Apply(s, LookUp(c)))
  {
  }

  lemma StoreEvolves(s: System, c: nat)
    requires TableOk(s) && Enabled(s, Store(c))
    ensures Evolves(s, Apply(s, Store(c)))
  {
  }

  lemma DropEvolves(s: System, c: nat)
    requires TableOk(s) && Enabled(s, Drop(c))
    ensures Evolves(s, Apply(s, Drop(c)))
  {
  }

  lemma SweepEvolves(s: System, order: seq<string>)
    requires TableOk(s) && Enabled(s, Sweep(order))
    ensures Evolves(s, Apply(s, Sweep(order)))
  {
  }

  lemma CloseTakeEvolves(s: System, order: seq<string>)
    requires TableOk(s) && Enabled(s, CloseTake(order))
    ensures Evolves(s, Apply(s, CloseTake(order)))
  {
  }

  lemma StepEvolves(s: System, step: Step)
    requires TableOk(s) && Enabled(s, step)
    ensures Evolves(s, Apply(s, step))
  {
    match step
    case LookUp(c) => LookUpEvolves(s, c);
    case Store(c) => StoreEvolves(s, c);
    case Drop(c) => DropEvolves(s, c);
    case Sweep(order) => SweepEvolves(s, order);
    case CloseTake(order) => CloseTakeEvolves(s, order);
    case _ =>
  }

  lemma StoreKeepsTable(s: System, c: nat)
    requires TableOk(s) && Enabled(s, Store(c)) && CallOk(s, s.calls[c])
    ensures TableOk(Apply(s, Store(c)))
  {
  }

  lemma LookUpKeepsTable(s: System, c: nat)
    requires TableOk(s) && Enabled(s, LookUp(c))
    ensures TableOk(Apply(s, LookUp(c)))
  {
  }

  lemma StepKeepsTable(s: System, step: Step)
    requires Inv(s) && Enabled(s, step)
    ensures TableOk(Apply(s, step))
  {
    match step
    case LookUp(c) => LookUpKeepsTable(s, c);
    case Store(c) => StoreKeepsTable(s, c);
    case _ =>
  }

  lemma StepKeepsHistory(s: System, step: Step)
    requires Inv(s) && Enabled(s, step)
    ensures HistoryOk(Apply(s, step))
  {
    StepEvolves(s, step);
    if step.Post? || step.Drop? { assert CallOk(s, s.calls[step.c]); }
  }

  lemma StoreKeepsActor(s: System, c: nat)
    requires Inv(s) && Enabled(s, Store(c))
    ensures CallOk(Apply(s, Store(c)), Apply(s, Store(c)).calls[c])
  {
    assert CallOk(s, s.calls[c]);
  }

  lemma LookUpKeepsActor(s: System, c: nat)
    requires Inv(s) && Enabled(s, LookUp(c))
    ensures CallOk(Apply(s, LookUp(c)), Apply(s, LookUp(c)).calls[c])
  {
    assert CallOk(s, s.calls[c]);
  }

  lemma StepKeepsActor(s: System, step: Step)
    requires Inv(s) && Enabled(s, step)
    requires !step.Advance? && !step.Sweep? && !step.CloseMark? && !step.CloseTake?
    ensures CallOk(Apply(s, step), Apply(s, step).calls[step.c])
  {
    if step.Store? {
      StoreKeepsActor(s, step.c);
    } else if step.LookUp? {
      LookUpKeepsActor(s, step.c);
    } else if step.c in s.calls {
      assert CallOk(s, s.calls[step.c]);
    }
  }

  lemma StepKeepsInv(s: System, step: Step)
    requires Inv(s) && Enabled(s, step)
    ensures Inv(Apply(s, step))
  {
    StepKeepsTable(s, step);
    StepKeepsHistory(s, step);
    StepKeepsCalls(s, step);
  }

  lemma StepKeepsCalls(s: System, step: Step)
    requires Inv(s) && Enabled(s, step)
    ensures CallsOk(Apply(s, step))
  {
    var t := Apply(s, step);
    StepEvolves(s, step);
    if step.Advance? || step.Sweep? || step.CloseMark? || step.CloseTake? {
      EvolvesKeepsAllCalls(s, t);
    } else {
      StepKeepsActor(s, step);
      OthersUntouched(s, step);
      EvolvesKeepsCalls(s, t, step.c);
    }
  }

  lemma OthersUntouched(s: System, step: Step)
    requires Enabled(s, step)
    requires !step.Advance? && !step.Sweep? && !step.CloseMark? && !step.CloseTake?
    ensures var t := Apply(s, step);
            step.c in t.calls && forall d :: d in t.calls && d != step.c ==> d in s.calls && t.calls[d] == s.calls[d]
  {
  }

  // ----- The place of every opened id -----

  datatype Place = HeldBy(c: nat) | StoredUnder(key: string) | HandedOut | Forgotten | Orphaned

  /** The id is where `place` says. */
  ghost predicate Occupies(s: System, id: string, place: Place) {
    match place
    case HeldBy(c) => c in s.calls && s.calls[c].Holding? && s.calls[c].id == id
    case StoredUnder(k) => k in s.g.sessions && s.g.sessions[k].id == id
    case HandedOut => id in s.handed
    case Forgotten => id in s.forgotten
    case Orphaned => id in s.orphaned
  }

  ghost predicate AllOccupy(s: System, at: map<string, Place>) {
    at.Keys == s.openedFor.Keys && forall id :: id in at ==> Occupies(s, id, at[id])
  }

  ghost predicate Is(at: map<string, Place>, id: string, place: Place) {
    id in at && at[id] == place
  }

  /** No id is anywhere else. */
  ghost predicate NoneElsewhere(s: System, at: map<string, Place>) {
    && (forall c :: c in s.calls && s.calls[c].Holding? ==> Is(at, s.calls[c].id, HeldBy(c)))
    && (forall k :: k in s.g.sessions ==> Is(at, s.g.sessions[k].id, StoredUnder(k)))
    && (forall id :: id in s.handed ==> Is(at, id, HandedOut))
    && (forall id :: id in s.forgotten ==> Is(at, id, Forgotten))
    && (forall id :: id in s.orphaned ==> Is(at, id, Orphaned))
  }

  ghost predicate Settled(s: System, at: map<string, Place>) {
    AllOccupy(s, at) && NoneElsewhere(s, at) && Distinct(s.handed)
  }

  /** A request that holds no id moves on. */
  lemma SettledCall(s: System, c: nat, call: Call, at: map<string, Place>)
    requires Settled(s, at) && (c in s.calls ==> !s.calls[c].Holding?) && !call.Holding?
    ensures Settled(s.(calls := s.calls[c := call]), at)
  {
    var t := s.(calls := s.calls[c := call]);
    forall id | id in at ensures Occupies(t, id, at[id]) {
      assert Occupies(s, id, at[id]);
    }
  }

  lemma SettledTouch(s: System, key: string, now: Time, at: map<string, Place>)
    requires Settled(s, at) && key in s.g.sessions
    ensures Settled(s.(g := s.g.(sessions := s.g.sessions[key := s.g.sessions[key].(lastUsed := now)])), at)
  {
    var t := s.(g := s.g.(sessions := s.g.sessions[key := s.g.sessions[key].(lastUsed := now)]));
    forall id | id in at ensures Occupies(t, id, at[id]) {
      assert Occupies(s, id, at[id]);
    }
  }

  lemma SettledOpen(s: System, c: nat, call: Call, id: string, at: map<string, Place>)
    requires Settled(s, at) && c in s.calls && !s.calls[c].Holding?
    requires call.Holding? && call.id == id && id !in s.openedFor
    ensures Settled(s.(calls := s.calls[c := call], openedFor := s.openedFor[id := call.key]), at[id := HeldBy(c)])
  {
    var t, at' := s.(calls := s.calls[c := call], openedFor := s.openedFor[id := call.key]), at[id := HeldBy(c)];
    assert id !in at;
    assert AllOccupy(t, at') by {
      forall x | x in at' ensures Occupies(t, x, at'[x]) {
        if x != id { assert Occupies(s, x, at[x]); }
      }
    }
    assert NoneElsewhere(t, at') by {
      forall x, place | Is(at, x, place) ensures Is(at', x, place) {}
      forall d | d in t.calls && t.calls[d].Holding? ensures Is(at', t.calls[d].id, HeldBy(d)) {
        if d != c { assert Is(at, s.calls[d].id, HeldBy(d)); }
      }
    }
  }

  lemma SettledForget(s: System, key: string, at: map<string, Place>)
    requires Settled(s, at) && key in s.g.sessions
    ensures var id := s.g.sessions[key].id;
            Settled(s.(g := s.g.(sessions := s.g.sessions - {key}), forgotten := s.forgotten + {id}), at[id := Forgotten])
  {
    var id := s.g.sessions[key].id;
    var t := s.(g := s.g.(sessions := s.g.sessions - {key}), forgotten := s.forgotten + {id});
    forall x | x in at && x != id ensures Occupies(t, x, at[x]) {
      assert Occupies(s, x, at[x]);
    }
  }

  lemma SettledOrphan(s: System, key: string, at: map<string, Place>)
    requires Settled(s, at) && key in s.g.sessions
    ensures var id := s.g.sessions[key].id;
            Settled(s.(g := s.g.(sessions := s.g.sessions - {key}), orphaned := s.orphaned + {id}), at[id := Orphaned])
  {
    var id := s.g.sessions[key].id;
    var t := s.(g := s.g.(sessions := s.g.sessions - {key}), orphaned := s.orphaned + {id});
    forall x | x in at && x != id ensures Occupies(t, x, at[x]) {
      assert Occupies(s, x, at[x]);
    }
  }

  lemma SettledKeep(s: System, c: nat, call: Call, key: string, now: Time, at: map<string, Place>)
    requires Settled(s, at) && c in s.calls && s.calls[c].Holding? && !call.Holding? && key !in s.g.sessions
    ensures var id := s.calls[c].id;
            Settled(s.(calls := s.calls[c := call], g := s.g.(sessions := s.g.sessions[key := Session(id, now)])),
                    at[id := StoredUnder(key)])
  {
    var id := s.calls[c].id;
    var t := s.(calls := s.calls[c := call], g := s.g.(sessions := s.g.sessions[key := Session(id, now)]));
    var at' := at[id := StoredUnder(key)];
    assert Is(at, id, HeldBy(c));
    assert AllOccupy(t, at') by {
      forall x | x in at' ensures Occupies(t, x, at'[x]) {
        if x != id { assert Occupies(s, x, at[x]); }
      }
    }
    forall d | d in t.calls && t.calls[d].Holding? ensures Is(at', t.calls[d].id, HeldBy(d)) {
      assert Is(at, s.calls[d].id, HeldBy(d));
    }
    forall k | k in t.g.sessions ensures Is(at', t.g.sessions[k].id, StoredUnder(k)) {
      if k != key { assert Is(at, s.g.sessions[k].id, StoredUnder(k)); }
    }
  }

  lemma SettledGiveUp(s: System, c: nat, call: Call, at: map<string, Place>)
    requires Settled(s, at) && c in s.calls && s.calls[c].Holding? && !call.Holding?
    ensures var id := s.calls[c].id;
            Settled(s.(calls := s.calls[c := call], handed := s.handed + [id]), at[id := HandedOut])
  {
    var id := s.calls[c].id;
    var t := s.(calls := s.calls[c := call], handed := s.handed + [id]);
    DistinctConcat(s.handed, [id]);
    forall x | x in at && x != id ensures Occupies(t, x, at[x]) {
      assert Occupies(s, x, at[x]);
    }
  }

  lemma TakenId(m: map<string, Session>, order: seq<string>, key: string)
    requires (forall k :: k in order ==> k in m) && key in order
    ensures m[key].id in IdsInOrder(m, order)
  {
    var i :| 0 <= i < |order| && order[i] == key;
    assert IdsInOrder(m, order)[i] == m[key].id;
  }

  lemma TakenOnce(s: System, order: seq<string>, at: map<string, Place>)
    requires NoneElsewhere(s, at) && Distinct(order) && (forall k :: k in order ==> k in s.g.sessions)
    ensures Distinct(IdsInOrder(s.g.sessions, order))
    ensures forall id :: id in IdsInOrder(s.g.sessions, order) ==> id in at && at[id].StoredUnder?
  {
    var ids := IdsInOrder(s.g.sessions, order);
    forall i | 0 <= i < |ids| ensures Is(at, ids[i], StoredUnder(order[i])) {
      assert order[i] in order;
    }
  }

  lemma SettledTake(s: System, t: System, keys: set<string>, order: seq<string>, at: map<string, Place>)
    returns (at': map<string, Place>)
    requires Settled(s, at) && keys <= s.g.sessions.Keys && Enumerates(order, keys)
    requires t.g.sessions == s.g.sessions - keys && t.handed == s.handed + IdsInOrder(s.g.sessions, order)
    requires t.calls == s.calls && t.openedFor == s.openedFor
    requires t.forgotten == s.forgotten && t.orphaned == s.orphaned
    ensures Settled(t, at')
  {
    var ids := IdsInOrder(s.g.sessions, order);
    at' := map id | id in at :: if id in ids then HandedOut else at[id];
    TakenOnce(s, order, at);
    DistinctConcat(s.handed, ids);
    forall id | id in at' ensures Occupies(t, id, at'[id]) {
      assert Occupies(s, id, at[id]);
      if at[id].StoredUnder? && at[id].key in keys { TakenId(s.g.sessions, order, at[id].key); }
    }
    forall k | k in t.g.sessions ensures Is(at', t.g.sessions[k].id, StoredUnder(k)) {
      assert Is(at, s.g.sessions[k].id, StoredUnder(k)) && k !in order;
    }
  }

  lemma SettledOverwrite(s: System, c: nat, call: Call, key: string, now: Time, at: map<string, Place>)
    requires Settled(s, at) && c in s.calls && s.calls[c].Holding? && !call.Holding? && key in s.g.sessions
    ensures var id, lost := s.calls[c].id, s.g.sessions[key].id;
            Settled(s.(calls := s.calls[c := call], g := s.g.(sessions := s.g.sessions[key := Session(id, now)]),
                       orphaned := s.orphaned + {lost}),
                    at[lost := Orphaned][id := StoredUnder(key)])
  {
    var id, lost := s.calls[c].id, s.g.sessions[key].id;
    SettledOrphan(s, key, at);
    var u := s.(g := s.g.(sessions := s.g.sessions - {key}), orphaned := s.orphaned + {lost});
    SettledKeep(u, c, call, key, now, at[lost := Orphaned]);
    assert (s.g.sessions - {key})[key := Session(id, now)] == s.g.sessions[key := Session(id, now)];
  }

  lemma SettledStore(s: System, c: nat, at: map<string, Place>) returns (at': map<string, Place>)
    requires Settled(s, at) && Enabled(s, Store(c))
    ensures Settled(Apply(s, Store(c)), at')
  {
    var Holding(key, retry, _, id) := s.calls[c];
    var r := StoreSection(s.g, key, id, s.clock).1;
    if r.TooLate? {
      SettledGiveUp(s, c, Finished, at);
      at' := at[id := HandedOut];
    } else if r.LostRace? {
      SettledTouch(s, key, s.clock, at);
      var u := s.(g := s.g.(sessions := s.g.sessions[key := s.g.sessions[key].(lastUsed := s.clock)]));
      SettledGiveUp(u, c, Ready(key, retry, r.winner, s.clock), at);
      at' := at[id := HandedOut];
    } else if key in s.g.sessions {
      SettledOverwrite(s, c, Ready(key, retry, id, s.clock), key, s.clock, at);
      at' := at[s.g.sessions[key].id := Orphaned][id := StoredUnder(key)];
    } else {
      SettledKeep(s, c, Ready(key, retry, id, s.clock), key, s.clock, at);
      at' := at[id := StoredUnder(key)];
    }
  }

  lemma SettledLookUp(s: System, c: nat, at: map<string, Place>) returns (at': map<string, Place>)
    requires Settled(s, at) && Enabled(s, LookUp(c))
    ensures Settled(Apply(s, LookUp(c)), at')
  {
    var t := Apply(s, LookUp(c));
    var key := s.calls[c].key;
    var r := LookupSection(s.g, key, s.clock).1;
    at' := at;
    var u := s;
    if r.Found? {
      SettledTouch(s, key, s.clock, at);
      u := s.(g := s.g.(sessions := s.g.sessions[key := s.g.sessions[key].(lastUsed := s.clock)]));
    } else if r.Expired? {
      assert IdsInOrder(s.g.sessions, [key]) == [r.stale];
      u := s.(g := s.g.(sessions := s.g.sessions - {key}), handed := s.handed + [r.stale]);
      at' := SettledTake(s, u, {key}, [key], at);
    }
    SettledCall(u, c, t.calls[c], at');
  }

  lemma SettledAnswer(s: System, c: nat, init: InitReply, at: map<string, Place>) returns (at': map<string, Place>)
    requires Settled(s, at) && Enabled(s, Answer(c, init))
    ensures Settled(Apply(s, Answer(c, init)), at')
  {
    var t := Apply(s, Answer(c, init));
    if t.calls[c].Holding? {
      SettledOpen(s, c, t.calls[c], init.id, at);
      at' := at[init.id := HeldBy(c)];
      SameIds(s.(calls := t.calls, openedFor := t.openedFor), t, at');
    } else {
      SettledCall(s, c, t.calls[c], at);
      at' := at;
    }
  }

  lemma SettledDrop(s: System, c: nat, at: map<string, Place>) returns (at': map<string, Place>)
    requires Settled(s, at) && Enabled(s, Drop(c))
    ensures Settled(Apply(s, Drop(c)), at')
  {
    var t := Apply(s, Drop(c));
    var Gone(key, sid) := s.calls[c];
    at' := at;
    if key in s.g.sessions && s.g.sessions[key].id == sid {
      SettledForget(s, key, at);
      at' := at[sid := Forgotten];
    }
    SettledCall(t.(calls := s.calls), c, t.calls[c], at');
  }

  /** Each step leaves every id in exactly one place. */
  lemma StepSettles(s: System, step: Step, at: map<string, Place>) returns (at': map<string, Place>)
    requires Inv(s) && Settled(s, at) && Enabled(s, step)
    ensures Settled(Apply(s, step), at')
  {
    var t := Apply(s, step);
    at' := at;
    match step {
      case Arrive(c, _) => SettledCall(s, c, t.calls[c], at);
      case Conclude(c) => SettledCall(s, c, t.calls[c], at); SameIds(s.(calls := t.calls), t, at);
      case Post(c, _) => SettledCall(s, c, t.calls[c], at); SameIds(s.(calls := t.calls), t, at);
      case Answer(c, init) => at' := SettledAnswer(s, c, init, at);
      case LookUp(c) => at' := SettledLookUp(s, c, at);
      case Store(c) => at' := SettledStore(s, c, at);
      case Drop(c) => at' := SettledDrop(s, c, at);
      case Sweep(order) => at' := SettledTake(s, t, Matching(s.g.sessions, x => IdleAt(x, s.clock)), order, at);
      case CloseTake(order) =>
        assert Matching(s.g.sessions, _ => true) == s.g.sessions.Keys;
        at' := SettledTake(s, t, s.g.sessions.Keys, order, at);
      case _ => SameIds(s, t, at);
    }
  }

  lemma SameIds(s: System, t: System, at: map<string, Place>)
    requires Settled(s, at) && t.calls == s.calls && t.g.sessions == s.g.sessions && t.openedFor == s.openedFor
    requires t.handed == s.handed && t.forgotten == s.forgotten && t.orphaned == s.orphaned
    ensures Settled(t, at)
  {
    forall id | id in at ensures Occupies(t, id, at[id]) {
      assert Occupies(s, id, at[id]);
    }
  }

  // ----- Theorems over whole runs -----

  lemma RunKeeps(s: System, steps: seq<Step>, at: map<string, Place>) returns (at': map<string, Place>)
    requires Inv(s) && Settled(s, at) && Runs(s, steps)
    ensures Inv(After(s, steps)) && Settled(After(s, steps), at')
    decreases |steps|
  {
    if steps == [] {
      at' := at;
    } else {
      StepKeepsInv(s, steps[0]);
      at' := StepSettles(s, steps[0], at);
      at' := RunKeeps(Apply(s, steps[0]), steps[1..], at');
    }
  }

  lemma Reachable(s: System, steps: seq<Step>) returns (at: map<string, Place>)
    requires Init(s) && Runs(s, steps)
    ensures Inv(After(s, steps)) && Settled(After(s, steps), at)
  {
    assert Settled(s, map[]);
    at := RunKeeps(s, steps, map[]);
  }

  ghost function Holders(s: System, id: string): set<nat> {
    set c | c in s.calls && s.calls[c].Holding? && s.calls[c].id == id
  }

  ghost function Keepers(s: System, id: string): set<string> {
    set k | k in s.g.sessions && s.g.sessions[k].id == id
  }

  ghost function Times(b: bool): nat {
    if b then 1 else 0
  }

  ghost function Occurrences(ids: seq<string>, id: string): nat {
    |set i | 0 <= i < |ids| && ids[i] == id|
  }

  lemma Singleton<T>(xs: set<T>, x: T)
    requires x in xs && forall y :: y in xs ==> y == x
    ensures |xs| == 1
  {
    assert xs == {x};
  }

  /** Every id that initialize ever returned is in exactly one place: held by one request, stored
      under one key, handed out once for termination, dropped after a 404, or overwritten. */
  lemma ExactlyOnePlace(s: System, steps: seq<Step>, id: string)
    requires Init(s) && Runs(s, steps) && id in After(s, steps).openedFor
    ensures var t := After(s, steps);
            |Holders(t, id)| + |Keepers(t, id)| + Occurrences(t.handed, id)
              + Times(id in t.forgotten) + Times(id in t.orphaned) == 1
  {
    var t := After(s, steps);
    var at := Reachable(s, steps);
    assert Occupies(t, id, at[id]);
    var hits := set i | 0 <= i < |t.handed| && t.handed[i] == id;
    if at[id].HeldBy? { Singleton(Holders(t, id), at[id].c); } else { assert Holders(t, id) == {}; }
    if at[id].StoredUnder? { Singleton(Keepers(t, id), at[id].key); } else { assert Keepers(t, id) == {}; }
    if at[id].HandedOut? {
      var i :| 0 <= i < |t.handed| && t.handed[i] == id;
      Singleton(hits, i);
    } else {
      assert forall i :: i in hits ==> t.handed[i] in t.handed;
      assert hits == {};
    }
  }

  /** The one store that loses an id: the table still has an idle entry under the key. */
  ghost predicate Overwrites(s: System, step: Step)
    requires Enabled(s, step)
  {
    && step.Store? && !s.g.closed
    && s.calls[step.c].key in s.g.sessions
    && IdleAt(s.g.sessions[s.calls[step.c].key], s.clock)
  }

  ghost predicate NeverOverwrites(s: System, steps: seq<Step>)
    requires Runs(s, steps)
    decreases |steps|
  {
    steps == [] || (!Overwrites(s, steps[0]) && NeverOverwrites(Apply(s, steps[0]), steps[1..]))
  }

  /** Every handshake of the run that returned an id took less than the idle TTL. */
  ghost predicate Prompt(s: System, steps: seq<Step>)
    requires Runs(s, steps)
    decreases |steps|
  {
    steps != [] ==>
      && (steps[0].Store? ==> s.clock - s.calls[steps[0].c].since < SESSION_IDLE_TTL)
      && Prompt(Apply(s, steps[0]), steps[1..])
  }

  lemma OrphansStay(s: System, steps: seq<Step>)
    requires Inv(s) && Runs(s, steps)
    ensures s.orphaned <= After(s, steps).orphaned
    decreases |steps|
  {
    if steps != [] {
      StepKeepsInv(s, steps[0]);
      OrphansStay(Apply(s, steps[0]), steps[1..]);
    }
  }

  lemma OrphansFrom(s: System, steps: seq<Step>)
    requires Inv(s) && Runs(s, steps) && s.orphaned == {}
    ensures After(s, steps).orphaned == {} <==> NeverOverwrites(s, steps)
    decreases |steps|
  {
    if steps != [] {
      var t := Apply(s, steps[0]);
      StepKeepsInv(s, steps[0]);
      if Overwrites(s, steps[0]) {
        assert s.g.sessions[s.calls[steps[0].c].key].id in t.orphaned;
        OrphansStay(t, steps[1..]);
      } else {
        OrphansFrom(t, steps[1..]);
      }
    }
  }

  /** The id is held by a request, stored, handed out for termination, or forgotten after a 404. */
  ghost predicate AccountedFor(t: System, id: string) {
    |Holders(t, id)| + |Keepers(t, id)| + Occurrences(t.handed, id) + Times(id in t.forgotten) == 1
  }

  lemma OrphansWereOpened(s: System, steps: seq<Step>)
    requires Init(s) && Runs(s, steps)
    ensures After(s, steps).orphaned <= After(s, steps).openedFor.Keys
  {
    var at := Reachable(s, steps);
    forall id | id in After(s, steps).orphaned ensures id in After(s, steps).openedFor {
      assert Is(at, id, Orphaned);
    }
  }

  /** Every id ever opened is accounted for exactly in the runs that never store over an idle entry. */
  lemma LostExactlyByOverwriting(s: System, steps: seq<Step>)
    requires Init(s) && Runs(s, steps)
    ensures var t := After(s, steps);
            (forall id :: id in t.openedFor ==> AccountedFor(t, id)) <==> NeverOverwrites(s, steps)
  {
    var t := After(s, steps);
    OrphansFrom(s, steps);
    OrphansWereOpened(s, steps);
    forall id | id in t.openedFor ensures AccountedFor(t, id) <==> id !in t.orphaned {
      ExactlyOnePlace(s, steps, id);
    }
    if id :| id in t.orphaned { assert !AccountedFor(t, id); }
  }

  lemma PromptFrom(s: System, steps: seq<Step>)
    requires Inv(s) && Runs(s, steps) && Prompt(s, steps)
    ensures NeverOverwrites(s, steps)
    decreases |steps|
  {
    if steps != [] {
      StepKeepsInv(s, steps[0]);
      PromptFrom(Apply(s, steps[0]), steps[1..]);
      assert steps[0].Store? ==> CallOk(s, s.calls[steps[0].c]);
    }
  }

  /** When handshakes are shorter than the idle TTL no id is ever lost, whatever the interleaving. */
  lemma PromptHandshakesLoseNothing(s: System, steps: seq<Step>)
    requires Init(s) && Runs(s, steps) && Prompt(s, steps)
    ensures var t := After(s, steps);
            t.orphaned == {} && forall id :: id in t.openedFor ==> AccountedFor(t, id)
  {
    PromptFrom(s, steps);
    OrphansFrom(s, steps);
    LostExactlyByOverwriting(s, steps);
  }

  /** A handshake that outlasts the idle TTL can lose the session a faster request opened. */
  lemma SlowHandshakeLosesSession()
    ensures exists s, steps :: Init(s) && Runs(s, steps) && After(s, steps).orphaned == {"a"} && !Prompt(s, steps)
  {
    var s := System(Guarded(map[], 0, false), 0, map[], map[], [], {}, {}, {}, [], false);
    var s1 := s.(calls := map[0 := Entering("k", false)]);
    var s2 := s1.(calls := s1.calls[1 := Entering("k", false)]);
    var s3 := s2.(calls := s2.calls[0 := Handshaking("k", false, 0)]);
    var s4 := s3.(calls := s3.calls[1 := Handshaking("k", false, 0)]);
    var steps := OneStoresThenOtherOverwrites(s4);
    steps := Prefix(s3, LookUp(1), steps);
    steps := Prefix(s2, LookUp(0), steps);
    steps := Prefix(s1, Arrive(1, "k"), steps);
    steps := Prefix(s, Arrive(0, "k"), steps);
  }

  lemma OneStoresThenOtherOverwrites(s: System) returns (steps: seq<Step>)
    requires s.g == Guarded(map[], 0, false) && s.clock == 0 && s.orphaned == {} && s.openedFor == map[]
    requires s.calls == map[0 := Handshaking("k", false, 0), 1 := Handshaking("k", false, 0)]
    ensures Runs(s, steps) && After(s, steps).orphaned == {"a"} && !Prompt(s, steps)
  {
    var first, second := Answer(0, InitReply(200, "a")), Answer(1, InitReply(200, "b"));
    var t1 := Apply(s, first);
    var t2 := Apply(t1, Store(0));
    assert t2.g.sessions == map["k" := Session("a", 0)];
    var t3 := Apply(t2, Advance(SESSION_IDLE_TTL));
    var t4 := Apply(t3, second);
    assert t4.calls[1] == Holding("k", false, 0, "b") && !Live(t4.g.sessions["k"], t4.clock);
    var t5 := Apply(t4, Store(1));
    assert Runs(t5, []) && !Prompt(t4, [Store(1)]) by { assert [Store(1)][1..] == []; }
    steps := [Store(1)];
    assert After(t4, steps) == t5;
    steps := Prefix(t3, second, steps);
    steps := Prefix(t2, Advance(SESSION_IDLE_TTL), steps);
    steps := Prefix(t1, Store(0), steps);
    steps := Prefix(s, first, steps);
  }

  lemma Prefix(s: System, step: Step, rest: seq<Step>) returns (steps: seq<Step>)
    requires Enabled(s, step) && Runs(Apply(s, step), rest)
    ensures Runs(s, steps) && After(s, steps) == After(Apply(s, step), rest)
    ensures !Prompt(Apply(s, step), rest) ==> !Prompt(s, steps)
  {
    steps := [step] + rest;
    assert steps[1..] == rest;
  }

  /** Different keys never share an upstream session, and every message sent inside a session was
      sent for the key that session was opened for. */
  lemma KeysAreIsolated(s: System, steps: seq<Step>)
    requires Init(s) && Runs(s, steps)
    ensures var t := After(s, steps);
            && (forall j, k :: j in t.g.sessions && k in t.g.sessions && j != k ==> t.g.sessions[j].id != t.g.sessions[k].id)
            && (forall i :: 0 <= i < |t.posts| ==> t.posts[i].1 in t.openedFor && t.openedFor[t.posts[i].1] == t.posts[i].0)
  {
    var _ := Reachable(s, steps);
  }

  /** Only sessions the server itself answered 404 to are forgotten without termination. */
  lemma OnlyRefusedForgotten(s: System, steps: seq<Step>)
    requires Init(s) && Runs(s, steps)
    ensures After(s, steps).forgotten <= After(s, steps).refused
  {
    var _ := Reachable(s, steps);
  }

  /** A request that posts within the idle TTL of its lookup, on an open proxy, never uses a
      session that was handed out for termination or overwritten. */
  lemma NoUseAfterTermination(s: System, steps: seq<Step>, c: nat)
    requires Init(s) && Runs(s, steps)
    requires var t := After(s, steps);
             && c in t.calls && t.calls[c].Ready? && t.calls[c].sid != ""
             && !t.g.closed && t.clock - t.calls[c].at < SESSION_IDLE_TTL
    ensures var t := After(s, steps);
            t.calls[c].sid !in t.handed && t.calls[c].sid !in t.orphaned
  {
    var t := After(s, steps);
    var at := Reachable(s, steps);
    assert CallOk(t, t.calls[c]);
  }

  /** At the given time a request is about to post in session a, which was handed out for termination. */
  ghost predicate PostsTerminated(t: System, now: Time, closed: bool) {
    && 0 in t.calls && t.calls[0] == Ready("k", false, "a", 0) && t.handed == ["a"]
    && t.clock == now && t.g.closed == closed
  }

  /** Session a has just been opened for a request that has not posted yet. */
  ghost predicate JustOpened(t: System) {
    && t.g == Guarded(map["k" := Session("a", 0)], 0, false) && t.clock == 0
    && t.calls == map[0 := Ready("k", false, "a", 0)] && t.handed == []
  }

  lemma OpenOne(t: System, rest: seq<Step>) returns (s: System, steps: seq<Step>)
    requires JustOpened(t) && Runs(t, rest)
    requires t == System(t.g, 0, t.calls, map["a" := "k"], [], {}, {}, {}, [("k", "a")], false)
    ensures Init(s) && Runs(s, steps) && After(s, steps) == After(t, rest)
  {
    s := System(Guarded(map[], 0, false), 0, map[], map[], [], {}, {}, {}, [], false);
    var answer := Answer(0, InitReply(200, "a"));
    var s1 := Apply(s, Arrive(0, "k"));
    var s2 := Apply(s1, LookUp(0));
    assert s2.calls == map[0 := Handshaking("k", false, 0)];
    var s3 := Apply(s2, answer);
    assert s3.calls == map[0 := Holding("k", false, 0, "a")];
    assert Apply(s3, Store(0)) == t;
    steps := Prefix(s3, Store(0), rest);
    steps := Prefix(s2, answer, steps);
    steps := Prefix(s1, LookUp(0), steps);
    steps := Prefix(s, Arrive(0, "k"), steps);
  }

  ghost function OpenedState(): (t: System)
    ensures JustOpened(t)
  {
    System(Guarded(map["k" := Session("a", 0)], 0, false), 0, map[0 := Ready("k", false, "a", 0)],
           map["a" := "k"], [], {}, {}, {}, [("k", "a")], false)
  }

  /** Both conditions are needed. A sweep at the end of the TTL hands out the session of a request
      that has not posted yet, on an open proxy. */
  lemma LatePostAfterSweep()
    ensures exists s, steps :: Init(s) && Runs(s, steps) && PostsTerminated(After(s, steps), SESSION_IDLE_TTL, false)
  {
    var t := OpenedState();
    var t1 := Apply(t, Advance(SESSION_IDLE_TTL));
    assert IdleAt(t1.g.sessions["k"], t1.clock);
    assert Enumerates(["k"], Matching(t1.g.sessions, x => IdleAt(x, t1.clock)));
    var t2 := Apply(t1, Sweep(["k"]));
    assert IdsInOrder(t1.g.sessions, ["k"]) == ["a"];
    assert After(t2, []) == t2;
    var steps := Prefix(t1, Sweep(["k"]), []);
    steps := Prefix(t, Advance(SESSION_IDLE_TTL), steps);
    var s, all := OpenOne(t, steps);
  }

  /** And so does Close, at once. */
  lemma PostAfterClose()
    ensures exists s, steps :: Init(s) && Runs(s, steps) && PostsTerminated(After(s, steps), 0, true)
  {
    var t := OpenedState();
    var t1 := Apply(t, CloseMark);
    assert Enumerates(["k"], t1.g.sessions.Keys);
    var t2 := Apply(t1, CloseTake(["k"]));
    assert IdsInOrder(t1.g.sessions, ["k"]) == ["a"];
    assert After(t2, []) == t2;
    var steps := Prefix(t1, CloseTake(["k"]), []);
    steps := Prefix(t, CloseMark, steps);
    var s, all := OpenOne(t, steps);
  }

  lemma RunEvolves(s: System, steps: seq<Step>)
    requires Inv(s) && Runs(s, steps) && s.g.closed
    ensures After(s, steps).g.closed && After(s, steps).g.sessions.Keys <= s.g.sessions.Keys
    ensures Inv(After(s, steps)) && (s.drained ==> After(s, steps).drained)
    decreases |steps|
  {
    if steps != [] {
      StepEvolves(s, steps[0]);
      StepKeepsInv(s, steps[0]);
      RunEvolves(Apply(s, steps[0]), steps[1..]);
    }
  }

  /** Once Close has marked the proxy closed no key is ever stored again, and a handshake that
      finishes later hands its own id out for termination. */
  lemma ClosedStaysClosed(s: System, before: seq<Step>, after: seq<Step>)
    requires Init(s) && Runs(s, before) && Runs(After(s, before), after) && After(s, before).g.closed
    ensures var t, u := After(s, before), After(After(s, before), after);
            && u.g.closed && u.g.sessions.Keys <= t.g.sessions.Keys
            && (forall c :: c in u.calls && u.calls[c].Holding? ==>
                  Apply(u, Store(c)).handed == u.handed + [u.calls[c].id] && Apply(u, Store(c)).g == u.g)
  {
    var _ := Reachable(s, before);
    RunEvolves(After(s, before), after);
  }

  /** After Close has drained the table and the requests in flight have ended, every id ever opened
      was handed out for termination exactly once or had been refused by the server. */
  lemma NothingLeaks(s: System, steps: seq<Step>, id: string)
    requires Init(s) && Runs(s, steps) && Prompt(s, steps)
    requires var t := After(s, steps);
             && t.drained && id in t.openedFor
             && forall c :: c in t.calls ==> !t.calls[c].Holding?
    ensures var t := After(s, steps);
            Occurrences(t.handed, id) == 1 <==> !(id in t.forgotten)
    ensures var t := After(s, steps);
            Occurrences(t.handed, id) == 0 ==> id in t.refused
  {
    var t := After(s, steps);
    var _ := Reachable(s, steps);
    ExactlyOnePlace(s, steps, id);
    PromptHandshakesLoseNothing(s, steps);
    assert Holders(t, id) == {} && Keepers(t, id) == {};
  }

  /** An active conversation keeps its session: a step taken while the entry is live leaves the
      same id under the key, unless the server refused it or the proxy is closed. */
  lemma LiveSessionSurvives(s: System, steps: seq<Step>, step: Step, key: string)
    requires Init(s) && Runs(s, steps) && Enabled(After(s, steps), step)
    requires key in After(s, steps).g.sessions
    ensures var t, u := After(s, steps), Apply(After(s, steps), step);
            var e := t.g.sessions[key];
            Live(e, u.clock) && !u.g.closed && e.id !in u.refused ==>
              key in u.g.sessions && u.g.sessions[key].id == e.id && e.lastUsed <= u.g.sessions[key].lastUsed
  {
    var t := After(s, steps);
    var _ := Reachable(s, steps);
    StepEvolves(t, step);
    StepKeepsInv(t, step);
    assert Outlives(Apply(t, step), key, t.g.sessions[key]);
  }
}
