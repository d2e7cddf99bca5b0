/** The datasource registry: the maps guarded by its locks and the operations that change them.

A proxy is known here by an identity only. Each operation is a function on the guarded maps and a
method of class Registry proved to compute it. */
module Registry {

  import opened Collections

  type Time = int  // nanoseconds
  type ProxyId = nat

  const REQUEST_ERROR_TTL: Time := 15 * 60 * 1_000_000_000

  datatype Entry = Entry(id: string, kind: string, proxyType: string, name: string, credentialSource: string, credentialRef: string)

  datatype RequestError = RequestError(msg: string, at: Time)

  datatype Tables = Tables(
    proxies: map<string, ProxyId>,
    configs: map<string, Entry>,
    lastSuccess: map<string, string>,     // RFC3339 stamp of the last passing check
    reqErrors: map<string, RequestError>)

  /** The outcome of a proxied request, after the caller's own failures are filtered out. */
  datatype Outcome = Succeeded | Failed(msg: string) | CallerFault

  /** One datasource to check in a health report. */
  datatype Target = Target(id: string, proxy: ProxyId)

  /** A report line: healthy, or the error; lastSuccess is "" when none is known. */
  datatype Health = Health(error: Option<string>, reachable: bool, lastSuccess: string)

  function Without<T>(m: map<string, T>, id: string): (r: map<string, T>) {
    m - {id}
  }

  function RegisterIn(t: Tables, id: string, entry: Entry, p: ProxyId): (r: Tables) {
    Tables(t.proxies[id := p], t.configs[id := entry], Without(t.lastSuccess, id), Without(t.reqErrors, id))
  }

  function RemoveIn(t: Tables, id: string, closeOk: bool): (r: Tables) {
    if id in t.proxies && closeOk
    then Tables(Without(t.proxies, id), Without(t.configs, id), Without(t.lastSuccess, id), Without(t.reqErrors, id))
    else t
  }

  /** CloseAll forgets every proxy, entry and request error of a registered id, but no last success. */
  function CloseAllIn(t: Tables): (r: Tables) {
    Tables(map[], t.configs - t.proxies.Keys, t.lastSuccess, t.reqErrors - t.proxies.Keys)
  }

  function ResultIn(t: Tables, id: string, outcome: Outcome, now: Time): (r: Tables) {
    if outcome.CallerFault? || id !in t.proxies then t
    else if outcome.Succeeded? then t.(reqErrors := Without(t.reqErrors, id))
    else t.(reqErrors := t.reqErrors[id := RequestError(outcome.msg, now)])
  }

  function RecentErrorIn(t: Tables, id: string, now: Time): (r: (Tables, Option<string>)) {
    if id !in t.reqErrors then (t, None)
    else if now - t.reqErrors[id].at > REQUEST_ERROR_TTL then (t.(reqErrors := Without(t.reqErrors, id)), None)
    else (t, Some(t.reqErrors[id].msg))
  }

  /** Recording the result of a health check; None when the proxy was replaced or removed meanwhile. */
  function CheckIn(t: Tables, target: Target, failure: Option<string>, stamp: string, now: Time): (r: (Tables, Option<Health>)) {
    if target.id !in t.proxies || t.proxies[target.id] != target.proxy then (t, None)
    else if failure.Some? then
      (t, Some(Health(failure, false, if target.id in t.lastSuccess then t.lastSuccess[target.id] else "")))
    else
      var (u, recent) := RecentErrorIn(t.(lastSuccess := t.lastSuccess[target.id := stamp]), target.id, now);
      (u, Some(Health(recent, true, stamp)))
  }

  ghost function ProxiesInOrder(m: map<string, ProxyId>, order: seq<string>): (r: seq<ProxyId>)
    requires forall k :: k in order ==> k in m
  {
    seq(|order|, i requires 0 <= i < |order| => assert order[i] in order; m[order[i]])
  }

  class Registry {
    var proxies: map<string, ProxyId>
    var configs: map<string, Entry>
    var lastSuccess: map<string, string>
    var reqErrors: map<string, RequestError>

    function State(): Tables
      reads this
    {
      Tables(proxies, configs, lastSuccess, reqErrors)
    }

    constructor ()
      ensures State() == Tables(map[], map[], map[], map[])
    {
      proxies, configs, lastSuccess, reqErrors := map[], map[], map[], map[];
    }

    /** Returns the proxies it closed, in order. */
    method Register(id: string, entry: Entry, p: ProxyId) returns (closed: seq<ProxyId>)
      modifies this
      ensures State() == RegisterIn(old(State()), id, entry, p)
      ensures closed == if id in old(proxies) then [old(proxies)[id]] else []
    {
      closed := [];
      if id in proxies {
        closed := [proxies[id]];
      }
      proxies := proxies[id := p];
      configs := configs[id := entry];
      lastSuccess := lastSuccess - {id};
      reqErrors := reqErrors - {id};
    }

    /** closeOk is what Close of the removed proxy returns; closed are the proxies Close was called on. */
    method Remove(id: string, closeOk: bool) returns (ok: bool, closed: seq<ProxyId>)
      modifies this
      ensures State() == RemoveIn(old(State()), id, closeOk)
      ensures ok <==> id !in old(proxies) || closeOk
      ensures closed == if id in old(proxies) then [old(proxies)[id]] else []
    {
      closed := [];
      if id in proxies {
        closed := [proxies[id]];
        if !closeOk {
          return false, closed;
        }
        proxies := proxies - {id};
        configs := configs - {id};
        lastSuccess := lastSuccess - {id};
        reqErrors := reqErrors - {id};
      }
      return true, closed;
    }

    method CloseAll() returns (closed: seq<ProxyId>, ghost order: seq<string>)
      modifies this
      ensures State() == CloseAllIn(old(State()))
      ensures Enumerates(order, old(proxies).Keys) && closed == ProxiesInOrder(old(proxies), order)
    {
      closed, order := [], [];
      var todo := proxies.Keys;
      while todo != {}
        invariant Enumerates(order, old(proxies).Keys - todo) && closed == ProxiesInOrder(old(proxies), order)
        invariant todo <= old(proxies).Keys
        invariant proxies == old(proxies) - (old(proxies).Keys - todo)
        invariant configs == old(configs) - (old(proxies).Keys - todo)
        invariant reqErrors == old(reqErrors) - (old(proxies).Keys - todo)
        invariant lastSuccess == old(lastSuccess)
      {
        var id :| id in todo;
        todo := todo - {id};
        closed, order := closed + [proxies[id]], order + [id];
        proxies := proxies - {id};
        configs := configs - {id};
        reqErrors := reqErrors - {id};
      }
      assert proxies == map[];
    }

    method RecordRequestResult(id: string, outcome: Outcome, now: Time)
      modifies this`reqErrors
      ensures State() == ResultIn(old(State()), id, outcome, now)
    {
      if outcome.CallerFault? {
        return;
      }
      if id !in proxies {
        return;
      }
      if outcome.Succeeded? {
        reqErrors := reqErrors - {id};
        return;
      }
      reqErrors := reqErrors[id := RequestError(outcome.msg, now)];
    }

    method RecentRequestError(id: string, now: Time) returns (msg: Option<string>)
      modifies this`reqErrors
      ensures (State(), msg) == RecentErrorIn(old(State()), id, now)
    {
      if id !in reqErrors {
        return None;
      }
      if now - reqErrors[id].at > REQUEST_ERROR_TTL {
        reqErrors := reqErrors - {id};
        return None;
      }
      return Some(reqErrors[id].msg);
    }

    /** The critical section of a health worker. */
    method RecordCheck(target: Target, failure: Option<string>, stamp: string, now: Time) returns (health: Option<Health>)
      modifies this`lastSuccess, this`reqErrors
      ensures (State(), health) == CheckIn(old(State()), target, failure, stamp, now)
    {
      if target.id !in proxies || proxies[target.id] != target.proxy {
        return None;
      }
      var h := Health(None, false, "");
      if failure.None? {
        h := h.(reachable := true, lastSuccess := stamp);
        lastSuccess := lastSuccess[target.id := stamp];
      } else {
        h := h.(lastSuccess := if target.id in lastSuccess then lastSuccess[target.id] else "");
      }
      if failure.Some? {
        h := h.(error := failure);
      } else {
        var msg := RecentRequestError(target.id, now);
        h := h.(error := msg);
      }
      return Some(h);
    }
  }
}
