/** The nonce table of the message verifier and every run of Verify calls over it.

Verify checks the signed_at window first and takes the nonce lock last. The run model keeps the
two apart, so calls may overlap in any order; a run in which each call completes before the
next starts is the special case. */
module ReplayTable {
  import opened Collections

  type Time = int  // nanoseconds

  const MAX_TIMESTAMP_SKEW: Time := 5 * 60 * 1_000_000_000
  const MAX_NONCES := 10_000

  function Abs(d: Time): (r: Time) {
    if d < 0 then -d else d
  }

  predicate InWindow(signedAt: Time, now: Time) {
    Abs(now - signedAt) <= MAX_TIMESTAMP_SKEW
  }

  predicate EvictsAt(size: nat) {
    size > MAX_NONCES && size % 100 == 0
  }

  /** The entries an eviction pass at time now keeps. */
  function Young(table: map<string, Time>, now: Time): (r: map<string, Time>) {
    map n | n in table && now - 2 * MAX_TIMESTAMP_SKEW <= table[n] :: table[n]
  }

  /** The table after recording a new nonce. */
  function Recorded(table: map<string, Time>, nonce: string, now: Time): (r: map<string, Time>) {
    var grown := table[nonce := now];
    if EvictsAt(|grown|) then Young(grown, now) else grown
  }

  class Verifier {
    var seenNonces: map<string, Time>

    constructor ()
      ensures seenNonces == map[]
    {
      seenNonces := map[];
    }

    /** checkAndRecordNonce. */
    method CheckAndRecordNonce(nonce: string, now: Time) returns (seen: bool)
      modifies this
      ensures seen <==> nonce in old(seenNonces)
      ensures seenNonces == if seen then old(seenNonces) else Recorded(old(seenNonces), nonce, now)
    {
      if nonce in seenNonces {
        return true;
      }
      seenNonces := seenNonces[nonce := now];
      if |seenNonces| > MAX_NONCES && |seenNonces| % 100 == 0 {
        var cutoff := now - 2 * MAX_TIMESTAMP_SKEW;
        ghost var grown := seenNonces;
        var todo := seenNonces.Keys;
        while todo != {}
          invariant todo <= grown.Keys
          invariant seenNonces == map n | n in grown && (n in todo || cutoff <= grown[n]) :: grown[n]
        {
          var n :| n in todo;
          todo := todo - {n};
          if seenNonces[n] < cutoff {
            seenNonces := seenNonces - {n};
          }
        }
      }
      return false;
    }

    /** The part of Verify that decides with time and nonce; `signed` is the outcome of the
        signature and field checks in between, `checked` and `recorded` the two clock readings. */
    method Verify(nonce: string, signedAt: Time, signed: bool, checked: Time, recorded: Time) returns (ok: bool)
      modifies this
      ensures ok <==> checked - MAX_TIMESTAMP_SKEW <= signedAt <= checked + MAX_TIMESTAMP_SKEW && signed && nonce !in old(seenNonces)
      ensures seenNonces == if ok then Recorded(old(seenNonces), nonce, recorded) else old(seenNonces)
    {
      var age := checked - signedAt;
      if age < 0 {
        age := -age;
      }
      if age > MAX_TIMESTAMP_SKEW {
        return false;
      }
      if !signed {
        return false;
      }
      var seen := CheckAndRecordNonce(nonce, recorded);
      return !seen;
    }
  }

  // ----- Runs -----

  datatype Message = Message(nonce: string, signedAt: Time)

  /** A call between its window check and its nonce check. `passes` is the number of eviction
      passes that had run when it checked the window. */
  datatype Pending = Pending(msg: Message, checked: Time, passes: nat)

  /** An accepted message, and the passes that had run when its nonce was looked up. */
  datatype Accepted = Accepted(call: Pending, recorded: Time, passes: nat)

  /** The fields after `checks` are history: nothing reads them back. */
  datatype System = System(
    table: map<string, Time>,
    clock: Time,
    checks: map<nat, Pending>,
    accepted: seq<Accepted>,
    passes: seq<Time>,          // the times of the eviction passes
    recent: set<string>)        // the nonces recorded since the latest pass

  datatype Step =
    | Advance(to: Time)
    | Check(c: nat, msg: Message)   // the window check passes
    | Reject(c: nat)                // a later check fails: signature, fields
    | Record(c: nat)                // checkAndRecordNonce

  ghost predicate Enabled(s: System, step: Step) {
    match step
    case Advance(to) => s.clock <= to
    case Check(c, msg) => c !in s.checks && InWindow(msg.signedAt, s.clock)
    case Reject(c) => c in s.checks
    case Record(c) => c in s.checks
  }

  ghost function Apply(s: System, step: Step): System
    requires Enabled(s, step)
  {
    match step
    case Advance(to) => s.(clock := to)
    case Check(c, msg) => s.(checks := s.checks[c := Pending(msg, s.clock, |s.passes|)])
    case Reject(c) => s.(checks := s.checks - {c})
    case Record(c) => ApplyRecord(s, c)
  }

  ghost function ApplyRecord(s: System, c: nat): System
    requires c in s.checks
  {
    var call := s.checks[c];
    var t := s.(checks := s.checks - {c});
    var nonce := call.msg.nonce;
    if nonce in s.table then t
    else
      var pass := EvictsAt(|s.table| + 1);
      t.(table := Recorded(s.table, nonce, s.clock),
         accepted := s.accepted + [Accepted(call, s.clock, |s.passes|)],
         passes := if pass then s.passes + [s.clock] else s.passes,
         recent := if pass then {} else s.recent + {nonce})
  }

  ghost predicate Init(s: System) {
    s == System(map[], s.clock, map[], [], [], {})
  }

  ghost predicate Runs(s: System, steps: seq<Step>)
    decreases |steps|
  {
    steps == [] || (Enabled(s, steps[0]) && Runs(Apply(s, steps[0]), steps[1..]))
  }

  ghost function After(s: System, steps: seq<Step>): System
    requires Runs(s, steps)
    decreases |steps|
  {
    if steps == [] then s else After(Apply(s, steps[0]), steps[1..])
  }

  // ----- Exactly when a message is accepted again -----

  ghost predicate PassAfter(passes: seq<Time>, at: Time) {
    exists i :: 0 <= i < |passes| && at < passes[i]
  }

  ghost function LastAccepted(accepted: seq<Accepted>, nonce: string): Option<Accepted> {
    if accepted == [] then None
    else
      var last := accepted[|accepted| - 1];
      if last.call.msg.nonce == nonce then Some(last) else LastAccepted(accepted[..|accepted| - 1], nonce)
  }

  lemma LastAcceptedAfter(accepted: seq<Accepted>, a: Accepted, nonce: string)
    ensures LastAccepted(accepted + [a], nonce) == if a.call.msg.nonce == nonce then Some(a) else LastAccepted(accepted, nonce)
  {
    assert (accepted + [a])[..|accepted|] == accepted;
  }

  /** The nonce was accepted, and no pass has run more than ten minutes after its latest acceptance. */
  ghost predicate Kept(s: System, nonce: string) {
    var last := LastAccepted(s.accepted, nonce);
    last.Some? && !PassAfter(s.passes, last.value.recorded + 2 * MAX_TIMESTAMP_SKEW)
  }

  ghost predicate Exact(s: System, nonce: string) {
    && (nonce in s.table <==> Kept(s, nonce))
    && (nonce in s.table ==> s.table[nonce] == LastAccepted(s.accepted, nonce).value.recorded)
  }

  ghost predicate ExactInv(s: System) {
    && (forall i :: 0 <= i < |s.passes| ==> s.passes[i] <= s.clock)
    && (forall n :: Exact(s, n))
  }

  lemma PassAfterMore(passes: seq<Time>, now: Time, at: Time)
    ensures PassAfter(passes + [now], at) <==> PassAfter(passes, at) || at < now
  {
    if i :| 0 <= i < |passes| && at < passes[i] { assert (passes + [now])[i] == passes[i]; }
    if at < now { assert (passes + [now])[|passes|] == now; }
  }

  lemma RecordKeepsExact(s: System, c: nat, nonce: string)
    requires ExactInv(s) && c in s.checks
    ensures Exact(ApplyRecord(s, c), nonce)
  {
    var t, msg := ApplyRecord(s, c), s.checks[c].msg;
    assert Exact(s, nonce) && Exact(s, msg.nonce);
    if msg.nonce !in s.table {
      LastAcceptedAfter(s.accepted, Accepted(s.checks[c], s.clock, |s.passes|), nonce);
      assert |s.table[msg.nonce := s.clock]| == |s.table| + 1;
      var last := LastAccepted(t.accepted, nonce);
      if last.Some? && EvictsAt(|s.table| + 1) {
        PassAfterMore(s.passes, s.clock, last.value.recorded + 2 * MAX_TIMESTAMP_SKEW);
      }
    }
  }

  lemma {:induction false} RunKeepsExact(s: System, steps: seq<Step>)
    requires ExactInv(s) && Runs(s, steps)
    ensures ExactInv(After(s, steps))
    decreases |steps|
  {
    if steps != [] {
      var t := Apply(s, steps[0]);
      forall n ensures Exact(t, n) {
        assert Exact(s, n);
        if steps[0].Record? { RecordKeepsExact(s, steps[0].c, n); }
      }
      RunKeepsExact(t, steps[1..]);
    }
  }

  lemma InitExact(s: System)
    requires Init(s)
    ensures ExactInv(s)
  {
    forall n ensures Exact(s, n) { assert LastAccepted(s.accepted, n) == None; }
  }

  /** A nonce is in the table exactly when it was accepted and no pass has run more than ten minutes
      after its latest acceptance; so exactly then a call that carries it is turned away. */
  lemma RememberedExactly(s: System, steps: seq<Step>, c: nat)
    requires Init(s) && Runs(s, steps) && c in After(s, steps).checks
    ensures var t := After(s, steps);
            var nonce := t.checks[c].msg.nonce;
            && (nonce in t.table <==> Kept(t, nonce))
            && (Apply(t, Record(c)).accepted == t.accepted <==> Kept(t, nonce))
  {
    InitExact(s);
    RunKeepsExact(s, steps);
    var t := After(s, steps);
    assert Exact(t, t.checks[c].msg.nonce);
  }

  lemma RecordPasses(t: System, c: nat)
    requires c in t.checks
    ensures Apply(t, Record(c)).passes ==
            if t.checks[c].msg.nonce !in t.table && |t.table| >= 10_000 && |t.table| % 100 == 99 then t.passes + [t.clock] else t.passes
  {
  }

  /** A pass runs exactly when a nonce is added that brings the table to a multiple of 100 above 10,000
      entries. */
  lemma PassesExactly(s: System, steps: seq<Step>, c: nat)
    requires Init(s) && Runs(s, steps) && c in After(s, steps).checks
    ensures var t := After(s, steps);
            Apply(t, Record(c)).passes ==
            if !Kept(t, t.checks[c].msg.nonce) && |t.table| >= 10_000 && |t.table| % 100 == 99 then t.passes + [t.clock] else t.passes
  {
    RememberedExactly(s, steps, c);
    RecordPasses(After(s, steps), c);
  }

  ghost predicate AcceptedBefore(s: System, msg: Message) {
    exists i :: 0 <= i < |s.accepted| && s.accepted[i].call.msg == msg
  }

  ghost predicate AcceptedTwice(s: System) {
    exists i, j :: 0 <= i < j < |s.accepted| && s.accepted[i].call.msg == s.accepted[j].call.msg
  }

  /** Some call of the run looks its nonce up although its message was accepted before and a pass has
      run more than ten minutes after the latest acceptance of the nonce. */
  ghost predicate LooksUpForgotten(s: System, steps: seq<Step>)
    requires Runs(s, steps)
    decreases |steps|
  {
    steps != [] &&
    (|| (steps[0].Record? && AcceptedBefore(s, s.checks[steps[0].c].msg) && !Kept(s, s.checks[steps[0].c].msg.nonce))
     || LooksUpForgotten(Apply(s, steps[0]), steps[1..]))
  }

  lemma RecordTwice(s: System, c: nat)
    requires ExactInv(s) && c in s.checks
    ensures var msg := s.checks[c].msg;
            AcceptedTwice(ApplyRecord(s, c)) <==> AcceptedTwice(s) || (AcceptedBefore(s, msg) && !Kept(s, msg.nonce))
  {
    var t, msg := ApplyRecord(s, c), s.checks[c].msg;
    assert Exact(s, msg.nonce);
    if i, j :| 0 <= i < j < |s.accepted| && s.accepted[i].call.msg == s.accepted[j].call.msg {
      assert t.accepted[i] == s.accepted[i] && t.accepted[j] == s.accepted[j];
    }
    if msg.nonce !in s.table {
      if i :| 0 <= i < |s.accepted| && s.accepted[i].call.msg == msg {
        assert t.accepted[i] == s.accepted[i] && t.accepted[|s.accepted|].call.msg == msg;
      }
    }
  }

  lemma {:induction false} TwiceFrom(s: System, steps: seq<Step>)
    requires ExactInv(s) && Runs(s, steps)
    ensures AcceptedTwice(After(s, steps)) <==> AcceptedTwice(s) || LooksUpForgotten(s, steps)
    decreases |steps|
  {
    if steps != [] {
      RunKeepsExact(s, [steps[0]]);
      assert After(s, [steps[0]]) == Apply(s, steps[0]);
      if steps[0].Record? { RecordTwice(s, steps[0].c); }
      TwiceFrom(Apply(s, steps[0]), steps[1..]);
    }
  }

  /** In every interleaving, some message is accepted twice exactly when some call looks up a nonce
      that a pass has already forgotten. */
  lemma AcceptedTwiceExactly(s: System, steps: seq<Step>)
    requires Init(s) && Runs(s, steps)
    ensures AcceptedTwice(After(s, steps)) <==> LooksUpForgotten(s, steps)
  {
    InitExact(s);
    TwiceFrom(s, steps);
  }

  // ----- What a second acceptance takes -----

  /** A call's window check came before every pass that had not run by then. */
  ghost predicate PendingOk(s: System, p: Pending) {
    && InWindow(p.msg.signedAt, p.checked) && p.checked <= s.clock && p.passes <= |s.passes|
    && forall i :: 0 <= i < p.passes ==> s.passes[i] <= p.checked
  }

  ghost predicate AcceptedOk(s: System, a: Accepted) {
    InWindow(a.call.msg.signedAt, a.call.checked) && a.call.checked <= a.recorded <= s.clock
  }

  ghost predicate InTimeOrder(accepted: seq<Accepted>) {
    forall i, j :: 0 <= i < j < |accepted| ==> accepted[i].recorded <= accepted[j].recorded
  }

  /** A message accepted a second time saw a pass between its window check and its nonce check. */
  ghost predicate Excused(a: Accepted, b: Accepted) {
    a.call.msg == b.call.msg ==> b.call.passes < b.passes
  }

  ghost predicate Inv(s: System) {
    && ExactInv(s) && InTimeOrder(s.accepted)
    && (forall c :: c in s.checks ==> PendingOk(s, s.checks[c]))
    && (forall i :: 0 <= i < |s.accepted| ==> AcceptedOk(s, s.accepted[i]))
    && (forall i, j :: 0 <= i < j < |s.accepted| ==> Excused(s.accepted[i], s.accepted[j]))
  }

  lemma {:induction false} LastIsLatest(accepted: seq<Accepted>, i: nat)
    requires InTimeOrder(accepted) && i < |accepted|
    ensures var last := LastAccepted(accepted, accepted[i].call.msg.nonce);
            last.Some? && accepted[i].recorded <= last.value.recorded
  {
    if i < |accepted| - 1 && accepted[|accepted| - 1].call.msg.nonce != accepted[i].call.msg.nonce {
      LastIsLatest(accepted[..|accepted| - 1], i);
    }
  }

  /** A pass that forgets a message ran after every window check of that message. */
  lemma ForgottenAfterWindow(s: System, i: nat, p: Pending)
    requires Inv(s) && i < |s.accepted| && PendingOk(s, p) && p.msg == s.accepted[i].call.msg && p.msg.nonce !in s.table
    ensures p.passes < |s.passes|
  {
    LastIsLatest(s.accepted, i);
    assert Exact(s, p.msg.nonce) && AcceptedOk(s, s.accepted[i]);
    var last := LastAccepted(s.accepted, p.msg.nonce).value;
    var n :| 0 <= n < |s.passes| && last.recorded + 2 * MAX_TIMESTAMP_SKEW < s.passes[n];
    assert p.checked < s.passes[n];
  }

  lemma RecordKeepsInv(s: System, c: nat)
    requires Inv(s) && c in s.checks
    ensures Inv(ApplyRecord(s, c))
  {
    var t, call := ApplyRecord(s, c), s.checks[c];
    forall n ensures Exact(t, n) { RecordKeepsExact(s, c, n); }
    assert PendingOk(s, call);
    if call.msg.nonce !in s.table {
      forall i | 0 <= i < |s.accepted|
        ensures Excused(s.accepted[i], Accepted(call, s.clock, |s.passes|)) && s.accepted[i].recorded <= s.clock
      {
        assert AcceptedOk(s, s.accepted[i]);
        if s.accepted[i].call.msg == call.msg { ForgottenAfterWindow(s, i, call); }
      }
    }
  }

  lemma {:induction false} RunKeepsInv(s: System, steps: seq<Step>)
    requires Inv(s) && Runs(s, steps)
    ensures Inv(After(s, steps))
    decreases |steps|
  {
    if steps != [] {
      RunKeepsExact(s, [steps[0]]);
      assert After(s, [steps[0]]) == Apply(s, steps[0]);
      if steps[0].Record? { RecordKeepsInv(s, steps[0].c); }
      RunKeepsInv(Apply(s, steps[0]), steps[1..]);
    }
  }

  /** In every interleaving, a message is accepted a second time only if an eviction pass ran
      between the window check and the nonce check of that second call. */
  lemma ReplayNeedsPassInBetween(s: System, steps: seq<Step>, i: nat, j: nat)
    requires Init(s) && Runs(s, steps) && i < j < |After(s, steps).accepted|
    ensures var acc := After(s, steps).accepted;
            acc[i].call.msg == acc[j].call.msg ==> acc[j].call.passes < acc[j].passes
  {
    InitExact(s);
    RunKeepsInv(s, steps);
  }

  /** Each call has ended before the next one checks its window. */
  ghost predicate Serial(s: System, steps: seq<Step>)
    requires Runs(s, steps)
    decreases |steps|
  {
    steps != [] ==> (steps[0].Check? ==> s.checks == map[]) && Serial(Apply(s, steps[0]), steps[1..])
  }

  /** At most one call is in progress, and no pass has run since its window check. */
  ghost predicate AloneInv(s: System) {
    && (forall c, d :: c in s.checks && d in s.checks ==> c == d)
    && (forall c :: c in s.checks ==> s.checks[c].passes == |s.passes|)
    && (forall i :: 0 <= i < |s.accepted| ==> s.accepted[i].call.passes == s.accepted[i].passes)
  }

  lemma SerialRunsAlone(s: System, steps: seq<Step>)
    requires AloneInv(s) && Runs(s, steps) && Serial(s, steps)
    ensures AloneInv(After(s, steps))
    decreases |steps|
  {
    if steps != [] {
      SerialRunsAlone(Apply(s, steps[0]), steps[1..]);
    }
  }

  /** When calls do not overlap, no message is ever accepted twice. */
  lemma NoReplay(s: System, steps: seq<Step>, i: nat, j: nat)
    requires Init(s) && Runs(s, steps) && Serial(s, steps) && i < j < |After(s, steps).accepted|
    ensures After(s, steps).accepted[i].call.msg != After(s, steps).accepted[j].call.msg
  {
    ReplayNeedsPassInBetween(s, steps, i, j);
    SerialRunsAlone(s, steps);
  }

  // ----- A run in which that happens -----

  ghost function Nonce(k: nat): (r: string)
    ensures |r| == k
  {
    seq(k, _ => 'n')
  }

  /** k messages accepted at time 0 and nothing else in progress; the first is signed five minutes ahead. */
  ghost predicate Filled(s: System, k: nat) {
    && s.clock == 0 && s.checks == map[] && s.passes == []
    && |s.table| == k && (forall n :: n in s.table ==> |n| <= k && s.table[n] == 0)
    && k >= 1 && Nonce(1) in s.table
    && s.accepted != [] && s.accepted[0].call.msg == Message(Nonce(1), MAX_TIMESTAMP_SKEW)
  }

  lemma Then(s: System, step: Step, rest: seq<Step>)
    requires Enabled(s, step) && Runs(Apply(s, step), rest)
    ensures Runs(s, [step] + rest) && After(s, [step] + rest) == After(Apply(s, step), rest)
  {
    assert ([step] + rest)[1..] == rest;
  }

  lemma FillOne(s: System, k: nat)
    requires Filled(s, k) && k < MAX_NONCES + 99
    ensures var check := Check(0, Message(Nonce(k + 1), 0));
            Enabled(s, check) && Enabled(Apply(s, check), Record(0)) && Filled(Apply(Apply(s, check), Record(0)), k + 1)
  {
    assert Nonce(k + 1) !in s.table;
    assert |s.table[Nonce(k + 1) := 0]| == k + 1;
    assert !EvictsAt(k + 1);
  }

  lemma Forgets(s: System) returns (steps: seq<Step>)
    requires Filled(s, MAX_NONCES + 99)
    ensures Runs(s, steps) && AcceptedTwice(After(s, steps))
  {
    var msg := Message(Nonce(1), MAX_TIMESTAMP_SKEW);
    var later := 2 * MAX_TIMESTAMP_SKEW;
    var other := Message(Nonce(MAX_NONCES + 100), later);
    var s1 := Apply(s, Advance(later));
    var s2 := Apply(s1, Check(1, msg));
    var s3 := Apply(s2, Check(2, other));
    var s4 := Apply(s3, Advance(later + 1));
    assert other.nonce !in s4.table && EvictsAt(|s4.table| + 1);
    assert |s4.table[other.nonce := later + 1]| == |s4.table| + 1;
    var s5 := Apply(s4, Record(2));
    assert msg.nonce !in s5.table && 1 in s5.checks && s5.accepted[0] == s.accepted[0];
    var s6 := Apply(s5, Record(1));
    assert s6.accepted[0] == s.accepted[0] && s6.accepted[|s5.accepted|].call.msg == msg;
    Then(s5, Record(1), []);
    Then(s4, Record(2), [Record(1)] + []);
    Then(s3, Advance(later + 1), [Record(2)] + ([Record(1)] + []));
    Then(s2, Check(2, other), [Advance(later + 1)] + ([Record(2)] + ([Record(1)] + [])));
    Then(s1, Check(1, msg), [Check(2, other)] + ([Advance(later + 1)] + ([Record(2)] + ([Record(1)] + []))));
    steps := [Check(1, msg)] + ([Check(2, other)] + ([Advance(later + 1)] + ([Record(2)] + ([Record(1)] + []))));
    Then(s, Advance(later), steps);
    steps := [Advance(later)] + steps;
  }

  lemma {:induction false} FillThenForget(s: System, k: nat) returns (steps: seq<Step>)
    requires Filled(s, k) && k <= MAX_NONCES + 99
    ensures Runs(s, steps) && AcceptedTwice(After(s, steps))
    decreases MAX_NONCES + 99 - k
  {
    if k == MAX_NONCES + 99 {
      steps := Forgets(s);
    } else {
      FillOne(s, k);
      var check := Check(0, Message(Nonce(k + 1), 0));
      var t := Apply(s, check);
      var rest := FillThenForget(Apply(t, Record(0)), k + 1);
      Then(t, Record(0), rest);
      Then(s, check, [Record(0)] + rest);
      steps := [check] + ([Record(0)] + rest);
    }
  }

  /** A message signed five minutes ahead is accepted, and accepted again ten minutes later by a call
      whose window check came just before a pass. */
  lemma OverlapAcceptsTwice()
    ensures exists s, steps :: Init(s) && Runs(s, steps) && AcceptedTwice(After(s, steps))
  {
    var s0 := System(map[], 0, map[], [], [], {});
    var check := Check(0, Message(Nonce(1), MAX_TIMESTAMP_SKEW));
    var s1 := Apply(s0, check);
    assert |s1.table[Nonce(1) := 0]| == 1;
    var s2 := Apply(s1, Record(0));
    var rest := FillThenForget(s2, 1);
    Then(s1, Record(0), rest);
    Then(s0, check, [Record(0)] + rest);
  }

  // ----- The size of the table -----

  /** No size above `from` up to `to` triggers a pass. */
  ghost predicate NonePassed(from: int, to: nat) {
    forall m: nat :: from < m <= to ==> !EvictsAt(m)
  }

  ghost predicate SizeInv(s: System) {
    && s.recent <= s.table.Keys
    && (forall n :: n in s.table ==> s.table[n] <= s.clock)
    && NonePassed(|s.table| - |s.recent|, |s.table|)
    && (forall i :: 0 <= i < |s.passes| ==> s.passes[i] <= s.clock)
    && (s.passes == [] ==> s.recent == s.table.Keys)
    && (s.passes != [] ==> forall n :: n in s.table ==> InPassWindow(s, n))
  }

  /** Recorded in the ten minutes before the latest pass, or since. */
  ghost predicate InPassWindow(s: System, n: string)
    requires n in s.table && s.passes != []
  {
    var pass := s.passes[|s.passes| - 1];
    pass - 2 * MAX_TIMESTAMP_SKEW <= s.table[n] && (n !in s.recent ==> s.table[n] <= pass)
  }

  lemma GapGrows(from: int, to: nat)
    requires NonePassed(from, to) && !EvictsAt(to + 1)
    ensures NonePassed(from, to + 1)
  {
  }

  lemma OneMore(table: map<string, Time>, recent: set<string>, nonce: string, now: Time)
    requires nonce !in table && recent <= table.Keys
    ensures |table[nonce := now]| == |table| + 1 && |recent + {nonce}| == |recent| + 1
  {
    assert table[nonce := now].Keys == table.Keys + {nonce};
    assert |table[nonce := now].Keys| == |table.Keys| + 1;
  }

  /** A recording without a pass. */
  lemma AddKeepsSize(s: System, c: nat)
    requires SizeInv(s) && c in s.checks && s.checks[c].msg.nonce !in s.table && !EvictsAt(|s.table| + 1)
    ensures SizeInv(ApplyRecord(s, c))
  {
    var t := ApplyRecord(s, c);
    OneMore(s.table, s.recent, s.checks[c].msg.nonce, s.clock);
    GapGrows(|s.table| - |s.recent|, |s.table|);
    forall n | n in t.table && t.passes != [] ensures InPassWindow(t, n) {
      if n in s.table { assert InPassWindow(s, n); }
    }
  }

  /** A recording with a pass. */
  lemma PassKeepsSize(s: System, c: nat)
    requires SizeInv(s) && c in s.checks && s.checks[c].msg.nonce !in s.table && EvictsAt(|s.table| + 1)
    ensures SizeInv(ApplyRecord(s, c))
  {
    var t, nonce := ApplyRecord(s, c), s.checks[c].msg.nonce;
    OneMore(s.table, s.recent, nonce, s.clock);
    assert t.table == Young(s.table[nonce := s.clock], s.clock);
    assert t.recent == {} && t.passes == s.passes + [s.clock];
    assert forall n :: n in t.table ==> InPassWindow(t, n);
  }

  lemma SameTable(s: System, t: System)
    requires SizeInv(s) && t.table == s.table && t.recent == s.recent && t.passes == s.passes && s.clock <= t.clock
    ensures SizeInv(t)
  {
    forall n | n in t.table && t.passes != [] ensures InPassWindow(t, n) { assert InPassWindow(s, n); }
  }

  lemma RunKeepsSize(s: System, steps: seq<Step>)
    requires SizeInv(s) && Runs(s, steps)
    ensures SizeInv(After(s, steps))
    decreases |steps|
  {
    if steps != [] {
      var t := Apply(s, steps[0]);
      if steps[0].Record? {
        var nonce := s.checks[steps[0].c].msg.nonce;
        if nonce in s.table {
          SameTable(s, t);
        } else if EvictsAt(|s.table| + 1) {
          PassKeepsSize(s, steps[0].c);
        } else {
          AddKeepsSize(s, steps[0].c);
        }
      } else {
        SameTable(s, t);
      }
      RunKeepsSize(t, steps[1..]);
    }
  }

  /** Once the table holds 10,100 entries, all of them are from the ten minutes before the latest
      eviction pass, but for at most 99 recorded since that pass. */
  lemma TableHoldsRecentNonces(s: System, steps: seq<Step>)
    requires Init(s) && Runs(s, steps) && |After(s, steps).table| >= MAX_NONCES + 100
    ensures var t := After(s, steps);
            && t.passes != [] && t.recent <= t.table.Keys && |t.recent| <= 99
            && var pass := t.passes[|t.passes| - 1];
               && (forall n :: n in t.table ==> pass - 2 * MAX_TIMESTAMP_SKEW <= t.table[n])
               && (forall n :: n in t.table && n !in t.recent ==> t.table[n] <= pass)
  {
    RunKeepsSize(s, steps);
    var t := After(s, steps);
    assert |t.table.Keys| == |t.table|;
    assert EvictsAt(|t.table| / 100 * 100);
    forall n | n in t.table && t.passes != [] ensures InPassWindow(t, n) {}
  }
}
