/** Every interleaving of registry operations, requests in flight and health workers. */
module RegistryRuns {
  import opened Collections
  import opened Registry

  /** What became of one target of a report: the context ended first, or its check was recorded. A
      check keeps the stamp of the last passing check and the last request error recorded before it. */
  datatype Cause =
    | Aborted(error: string)
    | Check(failure: Option<string>, before: Option<string>, latest: Option<RequestError>, at: Time)

  /** A health report being collected. Workers write `results` and `superseded` by target index;
      `causes` is history. */
  datatype Report = Report(
    targets: seq<Target>, stamp: string, results: map<nat, Health>, superseded: set<nat>, causes: map<nat, Cause>)

  /** A recorded check of a proxy, with the stamp of its report. */
  datatype Checkup = Checkup(proxy: ProxyId, stamp: string, passed: bool)

  /** A request in flight: the id it named and the proxy Get returned for it. */
  datatype Request = Request(id: string, proxy: ProxyId)

  /** A recorded request result: the proxy registered under the id at that moment, the proxy the
      request was made to, and the error if it failed. */
  datatype Noted = Noted(id: string, current: ProxyId, called: ProxyId, error: Option<RequestError>)

  /** The fields after `requests` are history: nothing reads them back. */
  datatype System = System(
    t: Tables,
    clock: Time,
    reports: map<nat, Report>,
    requests: map<nat, Request>,
    used: set<ProxyId>,                // every proxy ever registered
    closes: multiset<ProxyId>,         // every call of Close, by proxy
    entries: map<ProxyId, (string, Entry)>,   // the id and entry each proxy was registered with
    checkups: seq<Checkup>,            // the recorded checks, in order
    left: set<(string, ProxyId)>,      // registrations that have ended
    noted: seq<Noted>)                 // the recorded request results, in order

  datatype Step =
    | Advance(to: Time)
    | DoRegister(id: string, entry: Entry, p: ProxyId)
    | DoRemove(id: string, closeOk: bool)
    | DoCloseAll(order: seq<string>)
    | Call(c: nat, id: string)                               // Get, before the request is made
    | Result(c: nat, outcome: Outcome)                       // RecordRequestResult, after it
    | Begin(r: nat, targets: seq<Target>, stamp: string)
    | Cancelled(r: nat, i: nat, error: string)               // the context ended before the check
    | Checked(r: nat, i: nat, failure: Option<string>)

  /** The snapshot HealthReport takes: each registered id once, with its proxy. */
  ghost predicate Snapshot(t: Tables, targets: seq<Target>) {
    && (forall i, j :: 0 <= i < j < |targets| ==> targets[i].id != targets[j].id)
    && (forall x :: x in targets <==> x.id in t.proxies && x.id in t.configs && x.proxy == t.proxies[x.id])
  }

  ghost predicate Open(s: System, r: nat, i: nat) {
    r in s.reports && i < |s.reports[r].targets| && i !in s.reports[r].results && i !in s.reports[r].superseded
  }

  ghost predicate Enabled(s: System, step: Step) {
    match step
    case Advance(to) => s.clock <= to
    case DoRegister(_, _, p) => p !in s.used                 // a fresh proxy per Register
    case DoCloseAll(order) => Enumerates(order, s.t.proxies.Keys)
    case Call(c, id) => c !in s.requests && id in s.t.proxies
    case Result(c, _) => c in s.requests
    case Begin(r, targets, _) => r !in s.reports && Snapshot(s.t, targets)
    case Cancelled(r, i, _) => Open(s, r, i)
    case Checked(r, i, _) => Open(s, r, i)
    case _ => true
  }

  ghost function Ended(s: System, ids: set<string>): set<(string, ProxyId)> {
    set id | id in ids && id in s.t.proxies :: (id, s.t.proxies[id])
  }

  ghost function At(s: System, id: string): multiset<ProxyId> {
    if id in s.t.proxies then multiset{s.t.proxies[id]} else multiset{}
  }

  ghost function Notes(s: System, call: Request, outcome: Outcome): seq<Noted> {
    if outcome.CallerFault? || call.id !in s.t.proxies then []
    else [Noted(call.id, s.t.proxies[call.id], call.proxy,
                if outcome.Succeeded? then None else Some(RequestError(outcome.msg, s.clock)))]
  }

  ghost function Apply(s: System, step: Step): System
    requires Enabled(s, step)
  {
    match step
    case Advance(to) => s.(clock := to)
    case DoRegister(id, entry, p) =>
      s.(t := RegisterIn(s.t, id, entry, p), used := s.used + {p}, entries := s.entries[p := (id, entry)],
         closes := s.closes + At(s, id), left := s.left + Ended(s, {id}))
    case DoRemove(id, closeOk) =>
      s.(t := RemoveIn(s.t, id, closeOk), closes := s.closes + At(s, id),
         left := if closeOk then s.left + Ended(s, {id}) else s.left)
    case DoCloseAll(order) =>
      s.(t := CloseAllIn(s.t), closes := s.closes + multiset(ProxiesInOrder(s.t.proxies, order)),
         left := s.left + Ended(s, s.t.proxies.Keys))
    case Call(c, id) => s.(requests := s.requests[c := Request(id, s.t.proxies[id])])
    case Result(c, outcome) =>
      s.(t := ResultIn(s.t, s.requests[c].id, outcome, s.clock), requests := s.requests - {c},
         noted := s.noted + Notes(s, s.requests[c], outcome))
    case Begin(r, targets, stamp) => s.(reports := s.reports[r := Report(targets, stamp, map[], {}, map[])])
    case Cancelled(r, i, error) =>
      var rep := s.reports[r];
      s.(reports := s.reports[r := rep.(results := rep.results[i := Health(Some(error), false, "")],
                                        causes := rep.causes[i := Aborted(error)])])
    case Checked(r, i, failure) => ApplyChecked(s, r, i, failure)
  }

  ghost function ApplyChecked(s: System, r: nat, i: nat, failure: Option<string>): System
    requires Open(s, r, i)
  {
    var rep, x := s.reports[r], s.reports[r].targets[i];
    var (t, health) := CheckIn(s.t, x, failure, rep.stamp, s.clock);
    var rep' := match health
      case None => rep.(superseded := rep.superseded + {i})
      case Some(h) => rep.(results := rep.results[i := h], causes := rep.causes[i := CauseOf(s, x, failure)]);
    s.(t := t, reports := s.reports[r := rep'],
       checkups := if Stands(s, x) then s.checkups + [Checkup(x.proxy, rep.stamp, failure.None?)] else s.checkups)
  }

  /** The target's proxy is the one registered under its id. */
  ghost predicate Stands(s: System, x: Target) {
    x.id in s.t.proxies && s.t.proxies[x.id] == x.proxy
  }

  ghost function CauseOf(s: System, x: Target, failure: Option<string>): Cause {
    Check(failure, LastPass(s.checkups, x.proxy), ErrorIn(LastRecorded(s.noted, x.id, x.proxy)), s.clock)
  }

  /** The stamp of the last recorded check of the proxy that passed. */
  ghost function LastPass(checkups: seq<Checkup>, p: ProxyId): Option<string> {
    if checkups == [] then None
    else
      var last := checkups[|checkups| - 1];
      if last.proxy == p && last.passed then Some(last.stamp) else LastPass(checkups[..|checkups| - 1], p)
  }

  ghost predicate Init(s: System) {
    s == System(Tables(map[], map[], map[], map[]), s.clock, map[], map[], {}, multiset{}, map[], [], {}, [])
  }

  ghost predicate Runs(s: System, steps: seq<Step>)
    decreases |steps|
  {
    steps == [] || (Enabled(s, steps[0]) && Runs(Apply(s, steps[0]), steps[1..]))
  }

  ghost function After(s: System, steps: seq<Step>): System
    requires Runs(s, steps)
    decreases |steps|
  {
    if steps == [] then s else After(Apply(s, steps[0]), steps[1..])
  }

  // ----- The maps -----

  ghost predicate TablesOk(s: System) {
    && s.t.proxies.Keys == s.t.configs.Keys
    && s.t.reqErrors.Keys <= s.t.proxies.Keys
    && (forall c :: c in s.checkups ==> c.proxy in s.used)
    && (forall id :: id in s.t.proxies ==> EntryOk(s, id) && SuccessOk(s, id))
  }

  /** The id has the entry its proxy was registered with. */
  ghost predicate EntryOk(s: System, id: string)
    requires id in s.t.proxies
  {
    && s.t.proxies[id] in s.used && id in s.t.configs
    && s.t.proxies[id] in s.entries && s.entries[s.t.proxies[id]] == (id, s.t.configs[id])
  }

  /** Its last success is that of the last passing check of its proxy. */
  ghost predicate SuccessOk(s: System, id: string)
    requires id in s.t.proxies
  {
    LastPass(s.checkups, s.t.proxies[id]) == if id in s.t.lastSuccess then Some(s.t.lastSuccess[id]) else None
  }

  lemma LastPassAfter(checkups: seq<Checkup>, c: Checkup, p: ProxyId)
    ensures LastPass(checkups + [c], p) == if c.proxy == p && c.passed then Some(c.stamp) else LastPass(checkups, p)
  {
    assert (checkups + [c])[..|checkups|] == checkups;
  }

  lemma {:induction false} NeverPassed(checkups: seq<Checkup>, p: ProxyId)
    requires forall c :: c in checkups ==> c.proxy != p
    ensures LastPass(checkups, p) == None
  {
    if checkups != [] {
      assert checkups[|checkups| - 1] in checkups;
      NeverPassed(checkups[..|checkups| - 1], p);
    }
  }

  /** Nothing about the ids that remain has changed. */
  ghost predicate Narrows(t: Tables, u: Tables) {
    && (forall id :: id in u.proxies ==> id in t.proxies && u.proxies[id] == t.proxies[id])
    && (forall id :: id in u.proxies && id in t.configs ==> id in u.configs && u.configs[id] == t.configs[id])
    && (forall id :: id in u.proxies ==> (id in u.lastSuccess <==> id in t.lastSuccess))
    && (forall id :: id in u.proxies && id in u.lastSuccess && id in t.lastSuccess ==> u.lastSuccess[id] == t.lastSuccess[id])
  }

  lemma NarrowKeepsTables(s: System, u: System)
    requires TablesOk(s) && Narrows(s.t, u.t) && u.checkups == s.checkups && u.entries == s.entries && u.used == s.used
    requires u.t.proxies.Keys == u.t.configs.Keys && u.t.reqErrors.Keys <= u.t.proxies.Keys
    ensures TablesOk(u)
  {
    forall id | id in u.t.proxies ensures EntryOk(u, id) && SuccessOk(u, id) {
      assert EntryOk(s, id) && SuccessOk(s, id);
    }
  }

  /** A recorded check changes the last success of its id when it passes, and at most drops its request error. */
  lemma CheckedTables(t: Tables, x: Target, failure: Option<string>, stamp: string, now: Time)
    requires t.reqErrors.Keys <= t.proxies.Keys
    ensures var u := CheckIn(t, x, failure, stamp, now).0;
            && u.proxies == t.proxies && u.configs == t.configs && u.reqErrors.Keys <= t.reqErrors.Keys
            && u.lastSuccess == if x.id in t.proxies && t.proxies[x.id] == x.proxy && failure.None?
                                then t.lastSuccess[x.id := stamp] else t.lastSuccess
  {
  }

  lemma CheckedKeepsTables(s: System, r: nat, i: nat, failure: Option<string>)
    requires TablesOk(s) && LeftOk(s) && Open(s, r, i)
    ensures TablesOk(Apply(s, Checked(r, i, failure)))
  {
    var u, x := Apply(s, Checked(r, i, failure)), s.reports[r].targets[i];
    CheckedTables(s.t, x, failure, s.reports[r].stamp, s.clock);
    forall id | id in u.t.proxies ensures EntryOk(u, id) && SuccessOk(u, id) {
      assert EntryOk(s, id) && SuccessOk(s, id);
      LastPassAfter(s.checkups, Checkup(x.proxy, s.reports[r].stamp, failure.None?), s.t.proxies[id]);
    }
  }

  lemma RegisterKeepsTables(s: System, id: string, entry: Entry, p: ProxyId)
    requires TablesOk(s) && p !in s.used
    ensures TablesOk(Apply(s, DoRegister(id, entry, p)))
  {
    var u := Apply(s, DoRegister(id, entry, p));
    forall j | j in u.t.proxies ensures EntryOk(u, j) && SuccessOk(u, j) {
      if j == id { NeverPassed(s.checkups, p); } else { assert EntryOk(s, j) && SuccessOk(s, j); }
    }
  }

  lemma StepKeepsTables(s: System, step: Step)
    requires TablesOk(s) && LeftOk(s) && Enabled(s, step)
    ensures TablesOk(Apply(s, step))
  {
    match step {
      case Checked(r, i, failure) => CheckedKeepsTables(s, r, i, failure);
      case DoRegister(id, entry, p) => RegisterKeepsTables(s, id, entry, p);
      case _ =>
        OthersNarrow(s, step);
        NarrowKeepsTables(s, Apply(s, step));
    }
  }

  lemma OthersNarrow(s: System, step: Step)
    requires s.t.proxies.Keys == s.t.configs.Keys && s.t.reqErrors.Keys <= s.t.proxies.Keys
    requires Enabled(s, step) && !step.Checked? && !step.DoRegister?
    ensures var u := Apply(s, step);
            && Narrows(s.t, u.t) && u.checkups == s.checkups && u.entries == s.entries && u.used == s.used
            && u.t.proxies.Keys == u.t.configs.Keys && u.t.reqErrors.Keys <= u.t.proxies.Keys
  {
  }

  // ----- Registrations -----

  ghost predicate Registered(s: System, p: ProxyId) {
    exists id :: id in s.t.proxies && s.t.proxies[id] == p
  }

  /** No proxy is under two ids, and a registration that has ended never comes back, because every
      Register brings a fresh proxy. */
  ghost predicate LeftOk(s: System) {
    && (forall i, j :: i in s.t.proxies && j in s.t.proxies && i != j ==> s.t.proxies[i] != s.t.proxies[j])
    && (forall id :: id in s.t.proxies ==> s.t.proxies[id] in s.used)
    && (forall x, id :: x in s.left && id in s.t.proxies ==> s.t.proxies[id] != x.1)
    && (forall x :: x in s.left ==> x.1 in s.used)
  }

  lemma EndedAt(s: System, ids: set<string>, x: (string, ProxyId))
    ensures x in Ended(s, ids) <==> x.0 in ids && x.0 in s.t.proxies && s.t.proxies[x.0] == x.1
  {
  }

  lemma RegisterKeepsLeft(s: System, id: string, entry: Entry, p: ProxyId)
    requires LeftOk(s) && p !in s.used
    ensures LeftOk(Apply(s, DoRegister(id, entry, p)))
  {
  }

  /** Proxies leave the registry, and their registrations end. */
  lemma DropKeepsLeft(s: System, u: System, ids: set<string>)
    requires LeftOk(s) && u.t.proxies == s.t.proxies - ids && u.used == s.used && u.left == s.left + Ended(s, ids)
    ensures LeftOk(u)
  {
  }

  lemma RemoveKeepsLeft(s: System, id: string, closeOk: bool)
    requires LeftOk(s)
    ensures LeftOk(Apply(s, DoRemove(id, closeOk)))
  {
    if closeOk { DropKeepsLeft(s, Apply(s, DoRemove(id, closeOk)), {id}); }
  }

  lemma CloseAllKeepsLeft(s: System, order: seq<string>)
    requires LeftOk(s) && Enabled(s, DoCloseAll(order))
    ensures LeftOk(Apply(s, DoCloseAll(order)))
  {
    assert s.t.proxies - s.t.proxies.Keys == map[];
    DropKeepsLeft(s, Apply(s, DoCloseAll(order)), s.t.proxies.Keys);
  }

  lemma StepKeepsLeft(s: System, step: Step)
    requires LeftOk(s) && Enabled(s, step)
    ensures LeftOk(Apply(s, step))
  {
    var u := Apply(s, step);
    match step {
      case DoRegister(id, entry, p) => RegisterKeepsLeft(s, id, entry, p);
      case DoRemove(id, closeOk) => RemoveKeepsLeft(s, id, closeOk);
      case DoCloseAll(order) => CloseAllKeepsLeft(s, order);
      case _ => assert u.t.proxies == s.t.proxies && u.used == s.used && u.left == s.left;
    }
  }

  /** The proxy was registered under the id; it still is, or its registration has ended. */
  ghost predicate Seen(s: System, id: string, p: ProxyId) {
    (id, p) in s.left || (id in s.t.proxies && s.t.proxies[id] == p)
  }

  lemma SeenStays(s: System, step: Step, id: string, p: ProxyId)
    requires Enabled(s, step) && Seen(s, id, p)
    ensures Seen(Apply(s, step), id, p)
    ensures s.left <= Apply(s, step).left
  {
    if (id, p) !in s.left {
      if step.DoRegister? || step.DoRemove? { EndedAt(s, {step.id}, (id, p)); }
      if step.DoCloseAll? { EndedAt(s, s.t.proxies.Keys, (id, p)); }
    }
  }

  // ----- Reports -----

  /** The line a cause leads to: an aborted target and a failing check show their own error, the latter
      with the last success before it; a passing check shows the latest request error that is not too
      old, and the time of the report. */
  ghost predicate LineOk(stamp: string, h: Health, cause: Cause) {
    match cause
    case Aborted(error) => h == Health(Some(error), false, "")
    case Check(Some(error), before, _, _) => h == Health(Some(error), false, if before.Some? then before.value else "")
    case Check(None, _, latest, at) => h == Health(ErrorToReport(latest, at), true, stamp)
  }

  ghost predicate ReportOk(s: System, rep: Report) {
    && (forall i :: 0 <= i < |rep.targets| ==> Seen(s, rep.targets[i].id, rep.targets[i].proxy))
    && (forall i, j :: 0 <= i < j < |rep.targets| ==> rep.targets[i].id != rep.targets[j].id)
    && (forall i :: i in rep.results ==>
          i < |rep.targets| && i !in rep.superseded && i in rep.causes && LineOk(rep.stamp, rep.results[i], rep.causes[i]))
    && (forall i :: i in rep.superseded ==> i < |rep.targets| && (rep.targets[i].id, rep.targets[i].proxy) in s.left)
  }

  ghost predicate ReportsOk(s: System) {
    forall r :: r in s.reports ==> ReportOk(s, s.reports[r])
  }

  lemma ReportStays(s: System, step: Step, rep: Report)
    requires LeftOk(s) && Enabled(s, step) && ReportOk(s, rep)
    ensures ReportOk(Apply(s, step), rep)
  {
    var u := Apply(s, step);
    forall i | 0 <= i < |rep.targets|
      ensures Seen(u, rep.targets[i].id, rep.targets[i].proxy) && s.left <= u.left
    {
      SeenStays(s, step, rep.targets[i].id, rep.targets[i].proxy);
    }
  }

  /** The line of a recorded check. */
  lemma CheckLine(s: System, x: Target, failure: Option<string>, stamp: string)
    requires TablesOk(s) && ErrorsOk(s)
    ensures CheckIn(s.t, x, failure, stamp, s.clock).1.Some? <==> Stands(s, x)
    ensures Stands(s, x) ==> LineOk(stamp, CheckIn(s.t, x, failure, stamp, s.clock).1.value, CauseOf(s, x, failure))
  {
    if Stands(s, x) { assert ErrorOk(s, x.id) && SuccessOk(s, x.id); }
  }

  lemma ResultKeepsReport(s: System, rep: Report, i: nat, h: Health, cause: Cause)
    requires ReportOk(s, rep) && i < |rep.targets| && i !in rep.superseded && LineOk(rep.stamp, h, cause)
    ensures ReportOk(s, rep.(results := rep.results[i := h], causes := rep.causes[i := cause]))
  {
  }

  lemma SupersededKeepsReport(s: System, rep: Report, i: nat)
    requires ReportOk(s, rep) && i < |rep.targets| && i !in rep.results && (rep.targets[i].id, rep.targets[i].proxy) in s.left
    ensures ReportOk(s, rep.(superseded := rep.superseded + {i}))
  {
  }

  lemma CheckedKeepsReport(s: System, r: nat, i: nat, failure: Option<string>)
    requires TablesOk(s) && LeftOk(s) && ErrorsOk(s) && ReportsOk(s) && Open(s, r, i)
    ensures var u := Apply(s, Checked(r, i, failure)); ReportOk(u, u.reports[r])
  {
    var u, rep := Apply(s, Checked(r, i, failure)), s.reports[r];
    var x := rep.targets[i];
    assert ReportOk(s, rep) && Seen(s, x.id, x.proxy);
    CheckLine(s, x, failure, rep.stamp);
    ReportStays(s, Checked(r, i, failure), rep);
    if Stands(s, x) {
      ResultKeepsReport(u, rep, i, CheckIn(s.t, x, failure, rep.stamp, s.clock).1.value, CauseOf(s, x, failure));
    } else {
      SupersededKeepsReport(u, rep, i);
    }
  }

  lemma BeginKeepsReport(s: System, r: nat, targets: seq<Target>, stamp: string)
    requires Enabled(s, Begin(r, targets, stamp))
    ensures var u := Apply(s, Begin(r, targets, stamp)); ReportOk(u, u.reports[r])
  {
    assert forall i :: 0 <= i < |targets| ==> targets[i] in targets;
  }

  lemma CancelledKeepsReport(s: System, r: nat, i: nat, error: string)
    requires ReportsOk(s) && Open(s, r, i)
    ensures var u := Apply(s, Cancelled(r, i, error)); ReportOk(u, u.reports[r])
  {
    assert ReportOk(s, s.reports[r]);
  }

  lemma StepKeepsReports(s: System, step: Step)
    requires TablesOk(s) && LeftOk(s) && ErrorsOk(s) && ReportsOk(s) && Enabled(s, step)
    ensures ReportsOk(Apply(s, step))
  {
    var u := Apply(s, step);
    forall r | r in u.reports ensures ReportOk(u, u.reports[r]) {
      if step.Checked? && step.r == r {
        CheckedKeepsReport(s, r, step.i, step.failure);
      } else if step.Begin? && step.r == r {
        BeginKeepsReport(s, r, step.targets, step.stamp);
      } else if step.Cancelled? && step.r == r {
        CancelledKeepsReport(s, r, step.i, step.error);
      } else {
        ReportStays(s, step, s.reports[r]);
      }
    }
  }

  // ----- Request errors -----

  /** The last result recorded under the id while p was registered there, whoever was called. */
  ghost function LastRecorded(noted: seq<Noted>, id: string, p: ProxyId): Option<Noted> {
    if noted == [] then None
    else
      var last := noted[|noted| - 1];
      if last.id == id && last.current == p then Some(last) else LastRecorded(noted[..|noted| - 1], id, p)
  }

  /** The last recorded result of a request made to p. */
  ghost function LastOf(noted: seq<Noted>, p: ProxyId): Option<Noted> {
    if noted == [] then None
    else if noted[|noted| - 1].called == p then Some(noted[|noted| - 1])
    else LastOf(noted[..|noted| - 1], p)
  }

  ghost function ErrorIn(n: Option<Noted>): Option<RequestError> {
    if n.Some? then n.value.error else None
  }

  ghost predicate ErrorOk(s: System, id: string)
    requires id in s.t.proxies
  {
    var latest := ErrorIn(LastRecorded(s.noted, id, s.t.proxies[id]));
    && (id in s.t.reqErrors ==> latest == Some(s.t.reqErrors[id]))
    && (id !in s.t.reqErrors && latest.Some? ==> s.clock - latest.value.at > REQUEST_ERROR_TTL)
  }

  /** A stored request error is the one last recorded, kept unless it is too old; a request to a
      proxy that is registered now was recorded under it. */
  ghost predicate ErrorsOk(s: System) {
    && (forall n :: n in s.noted ==> n.current in s.used && n.called in s.used)
    && (forall n, id :: n in s.noted && id in s.t.proxies && s.t.proxies[id] == n.called ==> n.id == id && n.current == n.called)
    && (forall c :: c in s.requests ==> s.requests[c].proxy in s.used && Seen(s, s.requests[c].id, s.requests[c].proxy))
    && (forall id :: id in s.t.proxies ==> ErrorOk(s, id))
  }

  lemma LastRecordedAfter(noted: seq<Noted>, n: Noted, id: string, p: ProxyId)
    ensures LastRecorded(noted + [n], id, p) == if n.id == id && n.current == p then Some(n) else LastRecorded(noted, id, p)
  {
    assert (noted + [n])[..|noted|] == noted;
  }

  lemma {:induction false} NoneRecorded(noted: seq<Noted>, id: string, p: ProxyId)
    requires forall n :: n in noted ==> n.current != p
    ensures LastRecorded(noted, id, p) == None
  {
    if noted != [] {
      assert noted[|noted| - 1] in noted;
      NoneRecorded(noted[..|noted| - 1], id, p);
    }
  }

  lemma ResultKeepsErrors(s: System, c: nat, outcome: Outcome)
    requires ErrorsOk(s) && LeftOk(s) && Enabled(s, Result(c, outcome))
    ensures ErrorsOk(Apply(s, Result(c, outcome)))
  {
    var u, call := Apply(s, Result(c, outcome)), s.requests[c];
    var notes := Notes(s, call, outcome);
    if notes == [] {
      assert u.noted == s.noted;
      forall id | id in u.t.proxies ensures ErrorOk(u, id) { assert ErrorOk(s, id); }
    } else {
      assert Seen(s, call.id, call.proxy);
      forall id | id in u.t.proxies ensures ErrorOk(u, id) {
        assert ErrorOk(s, id);
        LastRecordedAfter(s.noted, notes[0], id, s.t.proxies[id]);
      }
    }
  }

  lemma RegisterKeepsErrors(s: System, id: string, entry: Entry, p: ProxyId)
    requires ErrorsOk(s) && p !in s.used
    ensures ErrorsOk(Apply(s, DoRegister(id, entry, p)))
  {
    var u := Apply(s, DoRegister(id, entry, p));
    forall c | c in u.requests ensures Seen(u, u.requests[c].id, u.requests[c].proxy) {
      SeenStays(s, DoRegister(id, entry, p), s.requests[c].id, s.requests[c].proxy);
    }
    forall j | j in u.t.proxies ensures ErrorOk(u, j) {
      if j == id {
        NoneRecorded(s.noted, id, p);
      } else {
        assert ErrorOk(s, j);
      }
    }
  }

  lemma StepKeepsErrors(s: System, step: Step)
    requires ErrorsOk(s) && LeftOk(s) && Enabled(s, step)
    ensures ErrorsOk(Apply(s, step))
  {
    match step {
      case Result(c, outcome) => ResultKeepsErrors(s, c, outcome);
      case DoRegister(id, entry, p) => RegisterKeepsErrors(s, id, entry, p);
      case _ =>
        RequestsStaySeen(s, step);
        OthersKeepErrors(s, step);
    }
  }

  lemma RequestsStaySeen(s: System, step: Step)
    requires ErrorsOk(s) && Enabled(s, step)
    ensures var u := Apply(s, step); forall c :: c in u.requests ==> Seen(u, u.requests[c].id, u.requests[c].proxy)
  {
    var u := Apply(s, step);
    forall c | c in u.requests ensures Seen(u, u.requests[c].id, u.requests[c].proxy) {
      if c in s.requests { SeenStays(s, step, s.requests[c].id, s.requests[c].proxy); }
    }
  }

  lemma OthersKeepErrors(s: System, step: Step)
    requires ErrorsOk(s) && Enabled(s, step) && !step.DoRegister? && !step.Result?
    ensures var u := Apply(s, step); forall id :: id in u.t.proxies ==> ErrorOk(u, id)
  {
    var u := Apply(s, step);
    forall id | id in u.t.proxies ensures ErrorOk(u, id) { assert ErrorOk(s, id); }
  }

  // ----- Whole runs -----

  ghost predicate Inv(s: System) {
    TablesOk(s) && LeftOk(s) && ReportsOk(s) && ErrorsOk(s)
  }

  lemma StepKeeps(s: System, step: Step)
    requires Inv(s) && Enabled(s, step)
    ensures Inv(Apply(s, step))
  {
    StepKeepsTables(s, step);
    StepKeepsLeft(s, step);
    StepKeepsReports(s, step);
    StepKeepsErrors(s, step);
  }

  lemma {:induction false} RunKeeps(s: System, steps: seq<Step>)
    requires Inv(s) && Runs(s, steps)
    ensures Inv(After(s, steps))
    decreases |steps|
  {
    if steps != [] {
      StepKeeps(s, steps[0]);
      RunKeeps(Apply(s, steps[0]), steps[1..]);
    }
  }

  /** The maps stay consistent: the same ids have a proxy and an entry, the entry is the one the proxy
      was registered with, request errors belong to registered ids, and the last success of a
      registered id is that of the last passing check recorded of its proxy. */
  lemma TablesStayConsistent(s: System, steps: seq<Step>)
    requires Init(s) && Runs(s, steps)
    ensures var u := After(s, steps);
            && u.t.proxies.Keys == u.t.configs.Keys
            && u.t.reqErrors.Keys <= u.t.proxies.Keys
            && (forall id :: id in u.t.proxies && id in u.t.configs ==>
                  u.t.proxies[id] in u.entries && u.entries[u.t.proxies[id]] == (id, u.t.configs[id]))
            && (forall id :: id in u.t.proxies ==>
                  LastPass(u.checkups, u.t.proxies[id]) == if id in u.t.lastSuccess then Some(u.t.lastSuccess[id]) else None)
  {
    RunKeeps(s, steps);
    var u := After(s, steps);
    forall id | id in u.t.proxies ensures EntryOk(u, id) && SuccessOk(u, id) {}
  }

  // ----- Last successes left behind -----

  ghost predicate NeverRegistered(steps: seq<Step>, id: string) {
    forall n :: 0 <= n < |steps| ==> !(steps[n].DoRegister? && steps[n].id == id)
  }

  /** Some CloseAll of the run found a last success of the id, and the id was not registered after it. */
  ghost predicate LeftBehind(s: System, steps: seq<Step>, id: string)
    requires Runs(s, steps)
    decreases |steps|
  {
    steps != [] &&
    (|| (steps[0].DoCloseAll? && id in s.t.lastSuccess && NeverRegistered(steps[1..], id))
     || LeftBehind(Apply(s, steps[0]), steps[1..], id))
  }

  ghost predicate Stray(s: System, id: string) {
    id in s.t.lastSuccess && id !in s.t.proxies
  }

  lemma StepStrays(s: System, step: Step, id: string)
    requires Enabled(s, step)
    ensures Stray(Apply(s, step), id) <==>
            || (Stray(s, id) && !(step.DoRegister? && step.id == id))
            || (step.DoCloseAll? && id in s.t.lastSuccess)
  {
  }

  lemma {:induction false} StraysFrom(s: System, steps: seq<Step>, id: string)
    requires Runs(s, steps)
    ensures Stray(After(s, steps), id) <==> LeftBehind(s, steps, id) || (Stray(s, id) && NeverRegistered(steps, id))
    decreases |steps|
  {
    if steps != [] {
      StepStrays(s, steps[0], id);
      StraysFrom(Apply(s, steps[0]), steps[1..], id);
      assert steps == [steps[0]] + steps[1..];
      assert NeverRegistered(steps, id) <==> !(steps[0].DoRegister? && steps[0].id == id) && NeverRegistered(steps[1..], id);
    }
  }

  /** A last success belongs to no registered id exactly when some CloseAll of the run left it
      behind and the id was not registered again since. */
  lemma LastSuccessLeftBehind(s: System, steps: seq<Step>, id: string)
    requires Init(s) && Runs(s, steps)
    ensures var u := After(s, steps); id in u.t.lastSuccess && id !in u.t.proxies <==> LeftBehind(s, steps, id)
  {
    StraysFrom(s, steps, id);
  }

  lemma Then(s: System, step: Step, rest: seq<Step>)
    requires Enabled(s, step) && Runs(Apply(s, step), rest)
    ensures Runs(s, [step] + rest) && After(s, [step] + rest) == After(Apply(s, step), rest)
  {
    assert ([step] + rest)[1..] == rest;
  }

  ghost function Start(): System {
    System(Tables(map[], map[], map[], map[]), 0, map[], map[], {}, multiset{}, map[], [], {}, [])
  }

  ghost function Sample(): Entry {
    Entry("x", "", "", "", "", "")
  }

  ghost function AfterRegister(p: ProxyId): System {
    Apply(Start(), DoRegister("x", Sample(), p))
  }

  lemma CheckThenClose(s: System)
    requires s.t.proxies == map["x" := 1] && s.t.configs.Keys == {"x"} && s.t.lastSuccess == map[]
    requires s.reports == map[0 := Report([Target("x", 1)], "now", map[], {}, map[])]
    ensures exists steps :: Runs(s, steps) && After(s, steps).t.proxies == map[] && After(s, steps).t.lastSuccess == map["x" := "now"]
  {
    var check, close := Checked(0, 0, None), DoCloseAll(["x"]);
    var s1 := Apply(s, check);
    assert s1.t.lastSuccess == map["x" := "now"] && s1.t.proxies == map["x" := 1];
    assert Enabled(s1, close);
    Then(s1, close, []);
    Then(s, check, [close] + []);
  }

  /** Such a run: a datasource passes a check, then CloseAll. */
  lemma CloseAllLeavesLastSuccess()
    ensures exists s, steps :: Init(s) && Runs(s, steps) && After(s, steps).t.proxies == map[] && After(s, steps).t.lastSuccess == map["x" := "now"]
  {
    var s1, begin := AfterRegister(1), Begin(0, [Target("x", 1)], "now");
    assert s1.t.proxies == map["x" := 1] && s1.t.configs.Keys == {"x"};
    var s2 := Apply(s1, begin);
    CheckThenClose(s2);
    var rest :| Runs(s2, rest) && After(s2, rest).t.proxies == map[] && After(s2, rest).t.lastSuccess == map["x" := "now"];
    Then(s1, begin, rest);
    Then(Start(), DoRegister("x", Sample(), 1), [begin] + rest);
  }

  // ----- Reports -----

  lemma CheckedReport(u: System, r: nat, i: nat, failure: Option<string>)
    requires Open(u, r, i)
    ensures var x, rep := u.reports[r].targets[i], Apply(u, Checked(r, i, failure)).reports[r];
            var health := CheckIn(u.t, x, failure, rep.stamp, u.clock).1;
            && rep.stamp == u.reports[r].stamp
            && (i in rep.results <==> health.Some?) && (i in rep.superseded <==> health.None?)
            && (health.Some? ==> rep.results[i] == health.value)
  {
  }

  lemma CurrentTarget(u: System, r: nat, i: nat)
    requires LeftOk(u) && ReportsOk(u) && Open(u, r, i)
    ensures var x := u.reports[r].targets[i];
            (x.id, x.proxy) !in u.left <==> x.id in u.t.proxies && u.t.proxies[x.id] == x.proxy
  {
    assert ReportOk(u, u.reports[r]);
    var x := u.reports[r].targets[i];
    assert Seen(u, x.id, x.proxy);
  }

  /** A check is reported exactly when its proxy is still the one registered when the result is
      recorded; one whose registration ended meanwhile leaves no line. */
  lemma LateChecksAreDropped(s: System, steps: seq<Step>, r: nat, i: nat, failure: Option<string>)
    requires Init(s) && Runs(s, steps) && Open(After(s, steps), r, i)
    ensures var u := After(s, steps);
            var x, rep := u.reports[r].targets[i], Apply(u, Checked(r, i, failure)).reports[r];
            && (i in rep.results <==> (x.id, x.proxy) !in u.left)
            && (i in rep.superseded <==> (x.id, x.proxy) in u.left)
  {
    RunKeeps(s, steps);
    var u := After(s, steps);
    CheckedReport(u, r, i, failure);
    CurrentTarget(u, r, i);
  }

  /** Every target has been dealt with. */
  ghost predicate Finished(rep: Report) {
    forall i :: 0 <= i < |rep.targets| ==> i in rep.results || i in rep.superseded
  }

  /** The lines of a finished report are those of its targets, one each. */
  ghost predicate Lists(report: map<string, Health>, rep: Report) {
    && (forall i :: 0 <= i < |rep.targets| ==> (rep.targets[i].id in report <==> i in rep.results))
    && (forall i :: 0 <= i < |rep.targets| && i in rep.results ==> report[rep.targets[i].id] == rep.results[i])
    && (forall id :: id in report ==> exists i :: 0 <= i < |rep.targets| && rep.targets[i].id == id)
  }

  /** The last loop of HealthReport, on the arrays its workers filled. */
  method CollectReport(targets: seq<Target>, results: seq<Health>, superseded: seq<bool>, ghost rep: Report)
    returns (report: map<string, Health>)
    requires |results| == |targets| == |superseded| && rep.targets == targets && Finished(rep)
    requires forall i, j :: 0 <= i < j < |targets| ==> targets[i].id != targets[j].id
    requires forall i :: 0 <= i < |targets| ==> (superseded[i] <==> i !in rep.results)
    requires forall i :: 0 <= i < |targets| && i in rep.results ==> rep.results[i] == results[i]
    ensures Lists(report, rep)
  {
    report := map[];
    for n := 0 to |targets|
      invariant forall i :: 0 <= i < n ==> (targets[i].id in report <==> !superseded[i])
      invariant forall i :: 0 <= i < n && !superseded[i] ==> report[targets[i].id] == results[i]
      invariant forall id :: id in report ==> exists i :: 0 <= i < n && targets[i].id == id
    {
      if superseded[n] {
        continue;
      }
      report := report[targets[n].id := results[n]];
    }
  }

  /** In every run, a finished report has a line for each of its targets except those whose
      registration has ended, and the line is that of the target's own cause. */
  lemma FinishedReport(s: System, steps: seq<Step>, r: nat, report: map<string, Health>, i: nat)
    requires Init(s) && Runs(s, steps) && r in After(s, steps).reports
    requires Finished(After(s, steps).reports[r]) && Lists(report, After(s, steps).reports[r])
    requires i < |After(s, steps).reports[r].targets|
    ensures var u := After(s, steps);
            var x, rep := u.reports[r].targets[i], u.reports[r];
            && (x.id in report || (x.id, x.proxy) in u.left)
            && (x.id in report ==> i in rep.causes && LineOk(rep.stamp, report[x.id], rep.causes[i]))
  {
    RunKeeps(s, steps);
    var u := After(s, steps);
    assert ReportOk(u, u.reports[r]);
  }

  /** A check whose proxy still stands puts its own failure on the line, with the stamp of the last
      passing check recorded of that proxy, or "" when there is none. */
  lemma FailingCheckReported(s: System, steps: seq<Step>, r: nat, i: nat, error: string)
    requires Init(s) && Runs(s, steps) && Open(After(s, steps), r, i)
    ensures var u := After(s, steps);
            var x, v := u.reports[r].targets[i], Apply(u, Checked(r, i, Some(error)));
            var last := LastPass(u.checkups, x.proxy);
            && (Stands(u, x) ==> i in v.reports[r].results
                                 && v.reports[r].results[i] == Health(Some(error), false, if last.Some? then last.value else ""))
            && v.t == u.t
  {
    RunKeeps(s, steps);
    FailingLine(After(s, steps), r, i, error);
  }

  lemma FailingTables(u: System, r: nat, i: nat, error: string)
    requires Open(u, r, i)
    ensures Apply(u, Checked(r, i, Some(error))).t == u.t
  {
  }

  lemma FailingLine(u: System, r: nat, i: nat, error: string)
    requires Inv(u) && Open(u, r, i)
    ensures var x, v := u.reports[r].targets[i], Apply(u, Checked(r, i, Some(error)));
            var last := LastPass(u.checkups, x.proxy);
            && (Stands(u, x) ==> i in v.reports[r].results
                                 && v.reports[r].results[i] == Health(Some(error), false, if last.Some? then last.value else ""))
            && v.t == u.t
  {
    FailingTables(u, r, i, error);
    CheckedReport(u, r, i, Some(error));
    CheckLine(u, u.reports[r].targets[i], Some(error), u.reports[r].stamp);
  }

  // ----- Whose failure is reported -----

  /** The error a passing check reports. */
  ghost function ErrorToReport(latest: Option<RequestError>, now: Time): Option<string> {
    if latest.Some? && now - latest.value.at <= REQUEST_ERROR_TTL then Some(latest.value.msg) else None
  }

  lemma PassingCheck(u: System, x: Target, stamp: string)
    requires ErrorsOk(u) && CheckIn(u.t, x, None, stamp, u.clock).1.Some?
    ensures CheckIn(u.t, x, None, stamp, u.clock).1.value ==
            Health(ErrorToReport(ErrorIn(LastRecorded(u.noted, x.id, x.proxy)), u.clock), true, stamp)
  {
    assert ErrorOk(u, x.id);
  }

  lemma ReportedFrom(u: System, r: nat, i: nat)
    requires Inv(u) && Open(u, r, i)
    ensures var x, rep := u.reports[r].targets[i], Apply(u, Checked(r, i, None)).reports[r];
            i in rep.results ==>
              && x.id in u.t.proxies && u.t.proxies[x.id] == x.proxy
              && rep.results[i] == Health(ErrorToReport(ErrorIn(LastRecorded(u.noted, x.id, x.proxy)), u.clock), true, rep.stamp)
  {
    var x, stamp := u.reports[r].targets[i], u.reports[r].stamp;
    CheckedReport(u, r, i, None);
    if CheckIn(u.t, x, None, stamp, u.clock).1.Some? {
      PassingCheck(u, x, stamp);
    }
  }

  /** A check that passes reports an error exactly when the last result recorded under the id since
      its proxy was registered is a failure no older than the TTL; it reports that failure, whichever
      proxy the request was made to. */
  lemma LastRecordedIsReported(s: System, steps: seq<Step>, r: nat, i: nat)
    requires Init(s) && Runs(s, steps) && Open(After(s, steps), r, i)
    ensures var u := After(s, steps);
            var x, rep := u.reports[r].targets[i], Apply(u, Checked(r, i, None)).reports[r];
            i in rep.results ==>
              rep.results[i] == Health(ErrorToReport(ErrorIn(LastRecorded(u.noted, x.id, x.proxy)), u.clock), true, rep.stamp)
  {
    RunKeeps(s, steps);
    ReportedFrom(After(s, steps), r, i);
  }

  /** Everything recorded under the id while p was registered there came from requests to p. */
  ghost predicate OwnOnly(s: System, id: string, p: ProxyId) {
    forall n :: n in s.noted && n.id == id && n.current == p ==> n.called == p
  }

  /** No request in flight was made to an earlier proxy of the id. */
  ghost predicate NoneElse(s: System, id: string, p: ProxyId) {
    forall c :: c in s.requests && s.requests[c].id == id ==> s.requests[c].proxy == p
  }

  ghost predicate OwnNow(s: System, id: string, p: ProxyId) {
    && p in s.used && OwnOnly(s, id, p)
    && (id in s.t.proxies && s.t.proxies[id] == p ==> NoneElse(s, id, p))
  }

  lemma ResultKeepsOwn(v: System, c: nat, outcome: Outcome, id: string, p: ProxyId)
    requires OwnNow(v, id, p) && c in v.requests
    ensures OwnNow(Apply(v, Result(c, outcome)), id, p)
  {
    var u := Apply(v, Result(c, outcome));
    forall n | n in u.noted && n.id == id && n.current == p ensures n.called == p {
      if n !in v.noted { assert n in Notes(v, v.requests[c], outcome); }
    }
  }

  lemma StepKeepsOwn(v: System, step: Step, id: string, p: ProxyId)
    requires OwnNow(v, id, p) && Enabled(v, step)
    ensures OwnNow(Apply(v, step), id, p)
  {
    if step.Result? {
      ResultKeepsOwn(v, step.c, step.outcome, id, p);
    } else {
      assert Apply(v, step).noted == v.noted;
    }
  }

  lemma {:induction false} StaysOwn(v: System, steps: seq<Step>, id: string, p: ProxyId)
    requires Runs(v, steps) && OwnNow(v, id, p)
    ensures OwnOnly(After(v, steps), id, p)
    decreases |steps|
  {
    if steps != [] {
      StepKeepsOwn(v, steps[0], id, p);
      StaysOwn(Apply(v, steps[0]), steps[1..], id, p);
    }
  }

  /** A stale request recorded right after the registration. */
  lemma StaleResult(u: System, id: string, entry: Entry, p: ProxyId, c: nat)
    requires Inv(u) && p !in u.used && c in u.requests && u.requests[c].id == id
    ensures var v := Apply(u, DoRegister(id, entry, p));
            exists after :: Runs(v, after) && !OwnOnly(After(v, after), id, p)
  {
    var v := Apply(u, DoRegister(id, entry, p));
    var step := Result(c, Succeeded);
    assert Runs(Apply(v, step), []);
    Then(v, step, []);
    var n := Noted(id, p, u.requests[c].proxy, None);
    assert Apply(v, step).noted == u.noted + [n] && n in u.noted + [n];
    assert !OwnOnly(After(v, [step] + []), id, p);
  }

  /** When a proxy is registered, no result of another proxy will ever be recorded under it exactly
      when no request to the id is in flight at that moment. */
  lemma OwnResultsExactly(s: System, steps: seq<Step>, id: string, entry: Entry, p: ProxyId)
    requires Init(s) && Runs(s, steps) && p !in After(s, steps).used
    ensures var u := After(s, steps);
            var v := Apply(u, DoRegister(id, entry, p));
            (forall after :: Runs(v, after) ==> OwnOnly(After(v, after), id, p)) <==>
            (forall c :: c in u.requests ==> u.requests[c].id != id)
  {
    RunKeeps(s, steps);
    var u := After(s, steps);
    var v := Apply(u, DoRegister(id, entry, p));
    if c :| c in u.requests && u.requests[c].id == id {
      StaleResult(u, id, entry, p, c);
    } else {
      assert v.noted == u.noted && v.requests == u.requests;
      assert OwnNow(v, id, p);
      forall after | Runs(v, after) ensures OwnOnly(After(v, after), id, p) {
        StaysOwn(v, after, id, p);
      }
    }
  }

  lemma {:induction false} OwnLast(noted: seq<Noted>, id: string, p: ProxyId)
    requires forall n :: n in noted && n.id == id && n.current == p ==> n.called == p
    requires forall n :: n in noted && n.called == p ==> n.id == id && n.current == p
    ensures LastRecorded(noted, id, p) == LastOf(noted, p)
  {
    if noted != [] {
      assert noted[|noted| - 1] in noted;
      OwnLast(noted[..|noted| - 1], id, p);
    }
  }

  /** Then, in every run from there, a passing check of the proxy reports an error exactly when the
      latest request to that very proxy failed, no longer than the TTL ago, and it reports the error
      of that request. */
  lemma LatestFailureIsReported(s: System, before: seq<Step>, id: string, entry: Entry, p: ProxyId, after: seq<Step>, r: nat, i: nat)
    requires Init(s) && Runs(s, before) && p !in After(s, before).used
    requires forall c :: c in After(s, before).requests ==> After(s, before).requests[c].id != id
    requires var v := Apply(After(s, before), DoRegister(id, entry, p));
             Runs(v, after) && Open(After(v, after), r, i) && After(v, after).reports[r].targets[i] == Target(id, p)
    ensures var u := After(Apply(After(s, before), DoRegister(id, entry, p)), after);
            var rep := Apply(u, Checked(r, i, None)).reports[r];
            i in rep.results ==>
              rep.results[i] == Health(ErrorToReport(ErrorIn(LastOf(u.noted, p)), u.clock), true, rep.stamp)
  {
    var v := Apply(After(s, before), DoRegister(id, entry, p));
    var u := After(v, after);
    RunKeeps(s, before);
    StepKeeps(After(s, before), DoRegister(id, entry, p));
    RunKeeps(v, after);
    OwnResultsExactly(s, before, id, entry, p);
    ReportedFrom(u, r, i);
    if id in u.t.proxies && u.t.proxies[id] == p {
      OwnLast(u.noted, id, p);
    }
  }

  /** Proxy 2 stands under the id, and its passing check carries the error of a request to proxy 1. */
  ghost predicate OldErrorShown(u: System) {
    && u.t.proxies == map["x" := 2]
    && u.noted == [Noted("x", 2, 1, Some(RequestError("e", 0)))]
    && 0 in u.reports && u.reports[0].targets == [Target("x", 2)] && u.reports[0].results == map[0 := Health(Some("e"), true, "now")]
  }

  lemma CheckShowsError(s: System)
    requires s.t.proxies == map["x" := 2] && s.t.configs.Keys == {"x"} && s.clock == 0 && s.reports == map[]
    requires s.t.reqErrors == map["x" := RequestError("e", 0)] && s.noted == [Noted("x", 2, 1, Some(RequestError("e", 0)))]
    ensures exists steps :: Runs(s, steps) && OldErrorShown(After(s, steps))
  {
    var begin, check := Begin(0, [Target("x", 2)], "now"), Checked(0, 0, None);
    var s1 := Apply(s, begin);
    var s2 := Apply(s1, check);
    assert OldErrorShown(s2);
    Then(s1, check, []);
    Then(s, begin, [check] + []);
  }

  lemma StaleFailure(s: System)
    requires s.t.proxies == map["x" := 2] && s.t.configs.Keys == {"x"} && s.clock == 0 && s.reports == map[]
    requires s.requests == map[0 := Request("x", 1)] && s.t.reqErrors == map[] && s.noted == []
    ensures exists steps :: Runs(s, steps) && OldErrorShown(After(s, steps))
  {
    var fails := Result(0, Failed("e"));
    CheckShowsError(Apply(s, fails));
    var rest :| Runs(Apply(s, fails), rest) && OldErrorShown(After(Apply(s, fails), rest));
    Then(s, fails, rest);
  }

  lemma ReplacedProxyFails(s: System)
    requires s == AfterRegister(1)
    ensures exists steps :: Runs(s, steps) && OldErrorShown(After(s, steps))
  {
    var call, again := Call(0, "x"), DoRegister("x", Sample(), 2);
    var s1 := Apply(s, call);
    var s2 := Apply(s1, again);
    StaleFailure(s2);
    var rest :| Runs(s2, rest) && OldErrorShown(After(s2, rest));
    Then(s1, again, rest);
    Then(s, call, [again] + rest);
  }

  /** A request that fails after its proxy was replaced is reported as the new proxy's error. */
  lemma OldProxyErrorReported()
    ensures exists s, steps :: Init(s) && Runs(s, steps) && OldErrorShown(After(s, steps))
  {
    ReplacedProxyFails(AfterRegister(1));
    var rest :| Runs(AfterRegister(1), rest) && OldErrorShown(After(AfterRegister(1), rest));
    Then(Start(), DoRegister("x", Sample(), 1), rest);
  }

  // ----- Calls of Close -----

  /** The removals of the run whose Close of p failed; p stays registered. */
  ghost function FailedRemoves(s: System, steps: seq<Step>, p: ProxyId): nat
    requires Runs(s, steps)
    decreases |steps|
  {
    if steps == [] then 0 else FailsOn(s, steps[0], p) + FailedRemoves(Apply(s, steps[0]), steps[1..], p)
  }

  ghost function FailsOn(s: System, step: Step, p: ProxyId): nat {
    if step.DoRemove? && !step.closeOk && step.id in s.t.proxies && s.t.proxies[step.id] == p then 1 else 0
  }

  ghost function Gone(s: System, p: ProxyId): nat {
    if p in s.used && !Registered(s, p) then 1 else 0
  }

  lemma {:induction false} InOrderOnce(m: map<string, ProxyId>, order: seq<string>, p: ProxyId)
    requires Distinct(order) && (forall k :: k in order ==> k in m)
    requires forall i, j :: i in m && j in m && i != j ==> m[i] != m[j]
    ensures multiset(ProxiesInOrder(m, order))[p] == if exists k :: k in order && m[k] == p then 1 else 0
  {
    if order != [] {
      var init, last := order[..|order| - 1], order[|order| - 1];
      assert last in order && order == init + [last];
      assert forall k :: k in init ==> k in order;
      InOrderOnce(m, init, p);
      assert ProxiesInOrder(m, order) == ProxiesInOrder(m, init) + [m[last]];
      if m[last] == p {
        assert forall k :: k in init ==> m[k] != p by {
          forall k | k in init ensures k != last {
            var n :| 0 <= n < |init| && init[n] == k;
            assert order[n] == k && order[|order| - 1] == last;
          }
        }
      }
    }
  }

  lemma CloseAllCounts(s: System, order: seq<string>, p: ProxyId)
    requires LeftOk(s) && Enabled(s, DoCloseAll(order))
    ensures var u := Apply(s, DoCloseAll(order)); u.closes[p] + Gone(s, p) == s.closes[p] + Gone(u, p)
  {
    InOrderOnce(s.t.proxies, order, p);
    assert Registered(s, p) <==> exists k :: k in order && s.t.proxies[k] == p;
    assert !Registered(Apply(s, DoCloseAll(order)), p);
  }

  lemma RegisterCounts(s: System, id: string, entry: Entry, q: ProxyId, p: ProxyId)
    requires LeftOk(s) && q !in s.used && (p !in s.used ==> s.closes[p] == 0)
    ensures var u := Apply(s, DoRegister(id, entry, q)); u.closes[p] + Gone(s, p) == s.closes[p] + Gone(u, p)
  {
    var u := Apply(s, DoRegister(id, entry, q));
    if p == q {
      assert u.t.proxies[id] == p;
    } else if k :| k in s.t.proxies && s.t.proxies[k] == p {
      if k != id { assert u.t.proxies[k] == p; }
    }
  }

  lemma RemoveCounts(s: System, id: string, closeOk: bool, p: ProxyId)
    requires LeftOk(s)
    ensures var u := Apply(s, DoRemove(id, closeOk));
            u.closes[p] + Gone(s, p) == s.closes[p] + Gone(u, p) + FailsOn(s, DoRemove(id, closeOk), p)
  {
    var u := Apply(s, DoRemove(id, closeOk));
    if k :| k in s.t.proxies && s.t.proxies[k] == p {
      if k != id || !closeOk { assert u.t.proxies[k] == p; }
    }
  }

  lemma StepCounts(s: System, step: Step, p: ProxyId)
    requires LeftOk(s) && Enabled(s, step) && (p !in s.used ==> s.closes[p] == 0)
    ensures var u := Apply(s, step);
            && u.closes[p] + Gone(s, p) == s.closes[p] + Gone(u, p) + FailsOn(s, step, p)
            && (p !in u.used ==> u.closes[p] == 0)
  {
    match step {
      case DoCloseAll(order) =>
        CloseAllCounts(s, order, p);
      case DoRegister(id, entry, q) => RegisterCounts(s, id, entry, q, p);
      case DoRemove(id, closeOk) => RemoveCounts(s, id, closeOk, p);
      case _ => assert Apply(s, step).t.proxies == s.t.proxies;
    }
  }

  lemma {:induction false} RunCounts(s: System, steps: seq<Step>, p: ProxyId)
    requires LeftOk(s) && Runs(s, steps) && (p !in s.used ==> s.closes[p] == 0)
    ensures var u := After(s, steps); u.closes[p] + Gone(s, p) == s.closes[p] + Gone(u, p) + FailedRemoves(s, steps, p)
    decreases |steps|
  {
    if steps != [] {
      StepCounts(s, steps[0], p);
      StepKeepsLeft(s, steps[0]);
      RunCounts(Apply(s, steps[0]), steps[1..], p);
    }
  }

  /** Close is called on a proxy once per Remove that fails on it and once more when it leaves the
      registry; so a registered proxy has been closed exactly when a Remove of it failed. It is
      registered under one id at most. */
  lemma CloseCallsCounted(s: System, steps: seq<Step>, p: ProxyId)
    requires Init(s) && Runs(s, steps) && p in After(s, steps).used
    ensures var u := After(s, steps);
            && u.closes[p] == FailedRemoves(s, steps, p) + (if Registered(u, p) then 0 else 1)
            && (Registered(u, p) ==> (p in u.closes <==> FailedRemoves(s, steps, p) > 0))
            && (forall i, j :: i in u.t.proxies && j in u.t.proxies && u.t.proxies[i] == p && u.t.proxies[j] == p ==> i == j)
  {
    RunKeeps(s, steps);
    RunCounts(s, steps, p);
  }

  /** A run in which a proxy is closed, stays registered, and is closed again. */
  lemma ClosedTwice()
    ensures exists s, steps :: Init(s) && Runs(s, steps) && After(s, steps).closes == multiset{1, 1} && After(s, steps).t.proxies == map["x" := 2]
  {
    var s0, s1 := Start(), AfterRegister(1);
    var fails, again := DoRemove("x", false), DoRegister("x", Sample(), 2);
    var s2 := Apply(s1, fails);
    var s3 := Apply(s2, again);
    Then(s2, again, []);
    Then(s1, fails, [again] + []);
    Then(s0, DoRegister("x", Sample(), 1), [fails] + ([again] + []));
  }
}
