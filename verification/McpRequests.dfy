/** What each step of a request does, in every interleaving, stated on the answers the server gave and
the times at which sessions were used. */
module McpRequests {
  import opened Collections
  import opened McpSessions
  import opened McpRuns

  /** A run with its history: the last answer to each request's initialize, the answers that brought no
      session id with the time they were taken note of, and when a request was last given each id. */
  datatype Watched = Watched(s: System, replies: map<nat, InitReply>, answers: seq<(InitReply, Time)>, given: map<string, Time>)

  ghost function Follow(w: Watched, step: Step): Watched
    requires Enabled(w.s, step)
  {
    var t := Apply(w.s, step);
    match step
    case Answer(c, init) => w.(s := t, replies := w.replies[c := init])
    case Conclude(c) => w.(s := t, answers := if c in w.replies then w.answers + [(w.replies[c], t.clock)] else w.answers)
    case LookUp(c) => w.(s := t, given := Given(w.given, t, c))
    case Store(c) => w.(s := t, given := Given(w.given, t, c))
    case _ => w.(s := t)
  }

  ghost function Given(given: map<string, Time>, t: System, c: nat): map<string, Time> {
    if c in t.calls && t.calls[c].Ready? && t.calls[c].sid != "" then given[t.calls[c].sid := t.clock] else given
  }

  ghost function Watch(w: Watched, steps: seq<Step>): Watched
    requires Runs(w.s, steps)
    decreases |steps|
  {
    if steps == [] then w else Watch(Follow(w, steps[0]), steps[1..])
  }

  ghost function Unwatched(s: System): Watched {
    Watched(s, map[], [], map[])
  }

  lemma {:induction false} WatchesTheRun(w: Watched, steps: seq<Step>)
    requires Runs(w.s, steps)
    ensures Watch(w, steps).s == After(w.s, steps)
    decreases |steps|
  {
    if steps != [] {
      WatchesTheRun(Follow(w, steps[0]), steps[1..]);
    }
  }

  /** The server definitively answered initialize without a session: success without an id, or a 4xx. */
  ghost predicate WithoutSession(init: InitReply) {
    init.InitReply? && (400 <= init.status < 500 || (init.status < 400 && init.id == ""))
  }

  /** The handshake failed: no answer, or an error status. */
  ghost predicate HandshakeFailed(init: InitReply) {
    init.InitError? || init.status >= 400
  }

  /** Such an answer was taken note of within the last idle TTL. */
  ghost predicate RecentlyWithout(w: Watched) {
    exists i :: 0 <= i < |w.answers| && WithoutSession(w.answers[i].0) && w.s.clock < w.answers[i].1 + SESSION_IDLE_TTL
  }

  // ----- Invariants -----

  /** The deadline was set by an answer without a session. */
  ghost predicate DeadlineSet(w: Watched) {
    exists i :: 0 <= i < |w.answers| && WithoutSession(w.answers[i].0) && w.answers[i].1 + SESSION_IDLE_TTL == w.s.g.sessionlessUntil
  }

  /** The deadline is that of the last answer without a session. */
  ghost predicate DeadlineOk(w: Watched) {
    && (forall i :: 0 <= i < |w.answers| && WithoutSession(w.answers[i].0) ==>
          w.answers[i].1 <= w.s.clock && w.answers[i].1 + SESSION_IDLE_TTL <= w.s.g.sessionlessUntil)
    && (w.s.g.sessionlessUntil <= w.s.clock || DeadlineSet(w))
  }

  /** A request that got no session knows why. */
  ghost predicate RepliesOk(w: Watched) {
    forall c :: c in w.s.calls && w.s.calls[c].Unopened? ==>
      && c in w.replies && (w.s.calls[c].sessionless <==> WithoutSession(w.replies[c]))
      && (w.s.calls[c].failed <==> HandshakeFailed(w.replies[c]))
  }

  /** A stored session was last used when a request was last given it. */
  ghost predicate UsesOk(w: Watched) {
    forall k :: k in w.s.g.sessions ==>
      w.s.g.sessions[k].id in w.given && w.given[w.s.g.sessions[k].id] == w.s.g.sessions[k].lastUsed
  }

  ghost predicate WatchedOk(w: Watched) {
    Inv(w.s) && DeadlineOk(w) && RepliesOk(w) && UsesOk(w)
  }

  lemma DeadlineMeaning(w: Watched)
    requires DeadlineOk(w)
    ensures w.s.clock < w.s.g.sessionlessUntil <==> RecentlyWithout(w)
  {
  }

  lemma ConcludeKeepsDeadline(w: Watched, c: nat)
    requires DeadlineOk(w) && RepliesOk(w) && Enabled(w.s, Conclude(c))
    ensures DeadlineOk(Follow(w, Conclude(c)))
  {
    var v := Follow(w, Conclude(c));
    assert v.answers == w.answers + [(w.replies[c], w.s.clock)];
    if WithoutSession(w.replies[c]) {
      assert v.answers[|w.answers|] == (w.replies[c], w.s.clock);
    } else if DeadlineSet(w) {
      var i :| 0 <= i < |w.answers| && WithoutSession(w.answers[i].0) && w.answers[i].1 + SESSION_IDLE_TTL == w.s.g.sessionlessUntil;
      assert v.answers[i] == w.answers[i];
    }
  }

  lemma OtherStepsKeepDeadline(s: System, step: Step)
    requires Enabled(s, step) && !step.Conclude?
    ensures Apply(s, step).g.sessionlessUntil == s.g.sessionlessUntil && s.clock <= Apply(s, step).clock
  {
  }

  lemma StepKeepsDeadline(w: Watched, step: Step)
    requires DeadlineOk(w) && RepliesOk(w) && Enabled(w.s, step)
    ensures DeadlineOk(Follow(w, step))
  {
    if step.Conclude? {
      ConcludeKeepsDeadline(w, step.c);
    } else {
      OtherStepsKeepDeadline(w.s, step);
    }
  }

  lemma AnswerSaysWhy(s: System, c: nat, init: InitReply)
    requires Enabled(s, Answer(c, init))
    ensures var call := Apply(s, Answer(c, init)).calls[c];
            && (call.Holding? <==> init.InitReply? && init.status < 400 && init.id != "")
            && (call.Holding? ==> call == Holding(s.calls[c].key, s.calls[c].retry, s.calls[c].since, init.id))
            && (!call.Holding? ==> call == Unopened(s.calls[c].key, s.calls[c].retry, WithoutSession(init), HandshakeFailed(init)))
  {
  }

  lemma OnlyAnswersOpen(s: System, step: Step, d: nat)
    requires Enabled(s, step) && !step.Answer?
    requires d in Apply(s, step).calls && Apply(s, step).calls[d].Unopened?
    ensures d in s.calls && s.calls[d] == Apply(s, step).calls[d]
  {
  }

  lemma OtherCallsStay(s: System, c: nat, init: InitReply, d: nat)
    requires Enabled(s, Answer(c, init)) && d != c && d in Apply(s, Answer(c, init)).calls
    ensures d in s.calls && s.calls[d] == Apply(s, Answer(c, init)).calls[d]
  {
  }

  lemma StepKeepsReplies(w: Watched, step: Step)
    requires RepliesOk(w) && Enabled(w.s, step)
    ensures RepliesOk(Follow(w, step))
  {
    var v := Follow(w, step);
    forall d | d in v.s.calls && v.s.calls[d].Unopened?
      ensures d in v.replies && (v.s.calls[d].sessionless <==> WithoutSession(v.replies[d]))
              && (v.s.calls[d].failed <==> HandshakeFailed(v.replies[d]))
    {
      if !step.Answer? {
        OnlyAnswersOpen(w.s, step, d);
      } else if d == step.c {
        AnswerSaysWhy(w.s, step.c, step.init);
      } else {
        OtherCallsStay(w.s, step.c, step.init, d);
      }
    }
  }

  lemma LookUpKeepsUses(w: Watched, c: nat)
    requires Inv(w.s) && UsesOk(w) && Enabled(w.s, LookUp(c))
    ensures UsesOk(Follow(w, LookUp(c)))
  {
    var v, key := Follow(w, LookUp(c)), w.s.calls[c].key;
    forall k | k in v.s.g.sessions
      ensures v.s.g.sessions[k].id in v.given && v.given[v.s.g.sessions[k].id] == v.s.g.sessions[k].lastUsed
    {
      assert Owns(w.s, k, w.s.g.sessions[k].id);
      if key in w.s.g.sessions { assert Owns(w.s, key, w.s.g.sessions[key].id); }
    }
  }

  lemma StoreKeepsUses(w: Watched, c: nat)
    requires Inv(w.s) && UsesOk(w) && Enabled(w.s, Store(c))
    ensures UsesOk(Follow(w, Store(c)))
  {
    var v, key := Follow(w, Store(c)), w.s.calls[c].key;
    assert CallOk(w.s, w.s.calls[c]);
    forall k | k in v.s.g.sessions
      ensures v.s.g.sessions[k].id in v.given && v.given[v.s.g.sessions[k].id] == v.s.g.sessions[k].lastUsed
    {
      if k in w.s.g.sessions { assert Owns(w.s, k, w.s.g.sessions[k].id); }
      if key in w.s.g.sessions { assert Owns(w.s, key, w.s.g.sessions[key].id); }
    }
  }

  lemma OthersOnlyRemove(s: System, step: Step)
    requires Enabled(s, step) && !step.LookUp? && !step.Store?
    ensures forall k :: k in Apply(s, step).g.sessions ==> k in s.g.sessions && Apply(s, step).g.sessions[k] == s.g.sessions[k]
  {
  }

  lemma StepKeepsUses(w: Watched, step: Step)
    requires Inv(w.s) && UsesOk(w) && Enabled(w.s, step)
    ensures UsesOk(Follow(w, step))
  {
    if step.LookUp? {
      LookUpKeepsUses(w, step.c);
    } else if step.Store? {
      StoreKeepsUses(w, step.c);
    } else {
      OthersOnlyRemove(w.s, step);
    }
  }

  lemma {:induction false} WatchKeeps(w: Watched, steps: seq<Step>)
    requires WatchedOk(w) && Runs(w.s, steps)
    ensures WatchedOk(Watch(w, steps))
    decreases |steps|
  {
    if steps != [] {
      StepKeepsInv(w.s, steps[0]);
      StepKeepsDeadline(w, steps[0]);
      StepKeepsReplies(w, steps[0]);
      StepKeepsUses(w, steps[0]);
      WatchKeeps(Follow(w, steps[0]), steps[1..]);
    }
  }

  lemma WatchedRun(s: System, steps: seq<Step>)
    requires Init(s) && Runs(s, steps)
    ensures var w := Watch(Unwatched(s), steps); WatchedOk(w) && w.s == After(s, steps)
  {
    WatchKeeps(Unwatched(s), steps);
    WatchesTheRun(Unwatched(s), steps);
  }

  // ----- What a lookup does -----

  /** A session is stored for the key that a request was given less than the idle TTL ago. */
  ghost predicate HasFresh(w: Watched, key: string) {
    && key in w.s.g.sessions && w.s.g.sessions[key].id in w.given
    && w.s.clock - w.given[w.s.g.sessions[key].id] < SESSION_IDLE_TTL
  }

  /** The call's session table entry is gone and handed out for termination, if there was one. */
  ghost predicate Retired(t: System, u: System, key: string) {
    && u.g.sessions == t.g.sessions - {key}
    && u.handed == t.handed + if key in t.g.sessions then [t.g.sessions[key].id] else []
  }

  lemma LookUpFrom(w: Watched, c: nat)
    requires WatchedOk(w) && Enabled(w.s, LookUp(c))
    ensures var t, u := w.s, Apply(w.s, LookUp(c));
            var key, retry := t.calls[c].key, t.calls[c].retry;
            && (t.g.closed ==> u == t.(calls := t.calls[c := Finished]))
            && (!t.g.closed && RecentlyWithout(w) ==> u == t.(calls := t.calls[c := Ready(key, retry, "", t.clock)]))
            && (!t.g.closed && !RecentlyWithout(w) && HasFresh(w, key) ==>
                  && u.calls == t.calls[c := Ready(key, retry, t.g.sessions[key].id, t.clock)] && u.handed == t.handed
                  && u.g.sessions == t.g.sessions[key := Session(t.g.sessions[key].id, t.clock)])
            && (!t.g.closed && !RecentlyWithout(w) && !HasFresh(w, key) ==>
                  u.calls == t.calls[c := Handshaking(key, retry, t.clock)] && Retired(t, u, key))
  {
    DeadlineMeaning(w);
    var t, key := w.s, w.s.calls[c].key;
    if key !in t.g.sessions { assert t.g.sessions - {key} == t.g.sessions; }
  }

  /** In every interleaving a lookup on an open proxy starts a handshake exactly when initialize was not
      answered without a session within the last idle TTL and no session is stored for the key that was
      used within it. Inside the window it goes on without a session; with such a session it goes on in
      it and uses it; an older one is retired. On a closed proxy the request ends. */
  lemma LookUpExactly(s: System, steps: seq<Step>, c: nat)
    requires Init(s) && Runs(s, steps) && Enabled(After(s, steps), LookUp(c))
    ensures var w := Watch(Unwatched(s), steps);
            var t, u := After(s, steps), Apply(After(s, steps), LookUp(c));
            var key, retry := t.calls[c].key, t.calls[c].retry;
            && w.s == t
            && (u.calls[c].Handshaking? <==> !t.g.closed && !RecentlyWithout(w) && !HasFresh(w, key))
            && (t.g.closed ==> u == t.(calls := t.calls[c := Finished]))
            && (!t.g.closed && RecentlyWithout(w) ==> u == t.(calls := t.calls[c := Ready(key, retry, "", t.clock)]))
            && (!t.g.closed && !RecentlyWithout(w) && HasFresh(w, key) ==>
                  && u.calls[c] == Ready(key, retry, t.g.sessions[key].id, t.clock) && u.handed == t.handed
                  && u.g.sessions == t.g.sessions[key := Session(t.g.sessions[key].id, t.clock)])
            && (!t.g.closed && !RecentlyWithout(w) && !HasFresh(w, key) ==>
                  u.calls[c] == Handshaking(key, retry, t.clock) && Retired(t, u, key))
  {
    WatchedRun(s, steps);
    LookUpFrom(Watch(Unwatched(s), steps), c);
  }

  // ----- What a store does -----

  lemma StoreFrom(w: Watched, c: nat)
    requires WatchedOk(w) && Enabled(w.s, Store(c))
    ensures var t, u := w.s, Apply(w.s, Store(c));
            var Holding(key, retry, _, id) := t.calls[c];
            && (t.g.closed ==> u == t.(calls := t.calls[c := Finished], handed := t.handed + [id]))
            && (!t.g.closed && HasFresh(w, key) ==>
                  && u.calls == t.calls[c := Ready(key, retry, t.g.sessions[key].id, t.clock)] && u.handed == t.handed + [id]
                  && u.g.sessions == t.g.sessions[key := Session(t.g.sessions[key].id, t.clock)])
            && (!t.g.closed && !HasFresh(w, key) ==>
                  && u.calls == t.calls[c := Ready(key, retry, id, t.clock)] && u.handed == t.handed
                  && u.g.sessions == t.g.sessions[key := Session(id, t.clock)])
  {
  }

  /** A finished handshake stores its session exactly when the proxy is open and no session is stored
      for the key that was used within the last idle TTL. Otherwise its own id is handed out for
      termination, and on an open proxy the request goes on in the other session. */
  lemma StoreExactly(s: System, steps: seq<Step>, c: nat)
    requires Init(s) && Runs(s, steps) && Enabled(After(s, steps), Store(c))
    ensures var w := Watch(Unwatched(s), steps);
            var t, u := After(s, steps), Apply(After(s, steps), Store(c));
            var Holding(key, retry, _, id) := t.calls[c];
            && w.s == t
            && (t.g.closed ==> u == t.(calls := t.calls[c := Finished], handed := t.handed + [id]))
            && (!t.g.closed && HasFresh(w, key) ==>
                  && u.calls[c] == Ready(key, retry, t.g.sessions[key].id, t.clock) && u.handed == t.handed + [id]
                  && u.g.sessions == t.g.sessions[key := Session(t.g.sessions[key].id, t.clock)])
            && (!t.g.closed && !HasFresh(w, key) ==>
                  && u.calls[c] == Ready(key, retry, id, t.clock) && u.handed == t.handed
                  && u.g.sessions == t.g.sessions[key := Session(id, t.clock)])
  {
    WatchedRun(s, steps);
    StoreFrom(Watch(Unwatched(s), steps), c);
  }

  // ----- The rest of a request -----

  /** A request whose handshake brought no session goes on without one, unless it failed on the second
      pass. A post ends the request, except that a 404 to a session on the first pass sends it round
      again; it then forgets the key exactly while that still maps to the refused session. */
  lemma RequestGoesOn(s: System, steps: seq<Step>, c: nat, post: PostReply)
    requires Init(s) && Runs(s, steps)
    ensures var w, t := Watch(Unwatched(s), steps), After(s, steps);
            && w.s == t
            && (Enabled(t, Conclude(c)) ==>
                  && c in w.replies
                  && Apply(t, Conclude(c)).calls[c] ==
                     if t.calls[c].retry && HandshakeFailed(w.replies[c]) then Finished
                     else Ready(t.calls[c].key, t.calls[c].retry, "", t.clock))
            && (Enabled(t, Post(c, post)) ==>
                  Apply(t, Post(c, post)).calls[c] ==
                  if post == PostReply(404) && t.calls[c].sid != "" && !t.calls[c].retry
                  then Gone(t.calls[c].key, t.calls[c].sid) else Finished)
            && (Enabled(t, Drop(c)) ==>
                  var key, sid := t.calls[c].key, t.calls[c].sid;
                  && Apply(t, Drop(c)).calls[c] == Entering(key, true)
                  && Apply(t, Drop(c)).g.sessions ==
                     if key in t.g.sessions && t.g.sessions[key].id == sid then t.g.sessions - {key} else t.g.sessions)
  {
    WatchedRun(s, steps);
  }

  // ----- What sweeps and Close take -----

  lemma SweepFrom(w: Watched, order: seq<string>)
    requires WatchedOk(w) && Enabled(w.s, Sweep(order))
    ensures var t, u := w.s, Apply(w.s, Sweep(order));
            && (forall k :: k in u.g.sessions <==> k in t.g.sessions && HasFresh(w, k))
            && (forall k :: k in u.g.sessions ==> u.g.sessions[k] == t.g.sessions[k])
            && (forall k :: k in t.g.sessions && !HasFresh(w, k) ==> t.g.sessions[k].id in u.handed)
  {
    var t := w.s;
    forall k | k in t.g.sessions && !HasFresh(w, k) ensures t.g.sessions[k].id in Apply(t, Sweep(order)).handed {
      assert k in Matching(t.g.sessions, x => IdleAt(x, t.clock));
      TakenId(t.g.sessions, order, k);
    }
  }

  /** A sweep takes exactly the sessions no request was given within the last idle TTL, and Close takes
      all of them; what they take is handed out for termination. */
  lemma SweepExactly(s: System, steps: seq<Step>, order: seq<string>)
    requires Init(s) && Runs(s, steps)
    ensures var w, t := Watch(Unwatched(s), steps), After(s, steps);
            && w.s == t
            && (Enabled(t, Sweep(order)) ==>
                  var u := Apply(t, Sweep(order));
                  && (forall k :: k in u.g.sessions <==> k in t.g.sessions && HasFresh(w, k))
                  && (forall k :: k in t.g.sessions && !HasFresh(w, k) ==> t.g.sessions[k].id in u.handed))
            && (Enabled(t, CloseTake(order)) ==>
                  var u := Apply(t, CloseTake(order));
                  u.g.sessions == map[] && forall k :: k in t.g.sessions ==> t.g.sessions[k].id in u.handed)
  {
    WatchedRun(s, steps);
    var w, t := Watch(Unwatched(s), steps), After(s, steps);
    if Enabled(t, Sweep(order)) { SweepFrom(w, order); }
    if Enabled(t, CloseTake(order)) {
      forall k | k in t.g.sessions ensures t.g.sessions[k].id in Apply(t, CloseTake(order)).handed {
        TakenId(t.g.sessions, order, k);
      }
    }
  }
}
