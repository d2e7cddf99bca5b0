/** The upstream MCP session table and the critical sections that sessionMu protects.

Every critical section appears twice: as a function on the guarded fields, which the
interleaving model in McpRuns is built from, and as a method of class Proxy that updates the
fields and is proved to compute that function. */
module McpSessions {

  import opened Collections

  type Time = int  // nanoseconds

  const SESSION_IDLE_TTL: Time := 30 * 60 * 1_000_000_000

  datatype Session = Session(id: string, lastUsed: Time)

  /** The fields guarded by sessionMu. */
  datatype Guarded = Guarded(sessions: map<string, Session>, sessionlessUntil: Time, closed: bool)

  /** What the first critical section of ensureSession decides. */
  datatype Lookup =
    | ProxyClosed
    | NoSessions                  // the server is remembered as sessionless
    | Found(id: string)           // a live session, its deadline extended
    | Expired(stale: string)      // the idle session was removed and is to be terminated
    | Missing                     // nothing stored for the key

  /** What the second critical section of ensureSession decides about the id just opened. */
  datatype Stored =
    | TooLate                     // the proxy closed meanwhile: terminate the new id
    | LostRace(winner: string)    // share the winner's session, terminate the new id
    | Kept                        // the new id is stored

  predicate Live(s: Session, now: Time) {
    now - s.lastUsed < SESSION_IDLE_TTL
  }

  function LookupSection(g: Guarded, key: string, now: Time): (r: (Guarded, Lookup)) {
    if g.closed then (g, ProxyClosed)
    else if now < g.sessionlessUntil then (g, NoSessions)
    else if key !in g.sessions then (g, Missing)
    else
      var s := g.sessions[key];
      if Live(s, now) then (g.(sessions := g.sessions[key := s.(lastUsed := now)]), Found(s.id))
      else (g.(sessions := g.sessions - {key}), Expired(s.id))
  }

  function SessionlessSection(g: Guarded, now: Time): (r: Guarded) {
    g.(sessionlessUntil := now + SESSION_IDLE_TTL)
  }

  function StoreSection(g: Guarded, key: string, id: string, now: Time): (r: (Guarded, Stored)) {
    if g.closed then (g, TooLate)
    else if key in g.sessions && Live(g.sessions[key], now) then
      var s := g.sessions[key];
      (g.(sessions := g.sessions[key := s.(lastUsed := now)]), LostRace(s.id))
    else (g.(sessions := g.sessions[key := Session(id, now)]), Kept)
  }

  function DropSection(g: Guarded, key: string, id: string): (r: Guarded) {
    if key in g.sessions && g.sessions[key].id == id then g.(sessions := g.sessions - {key}) else g
  }

  function Matching(m: map<string, Session>, matches: Session -> bool): (keys: set<string>) {
    set k | k in m && matches(m[k])
  }

  function TakeSection(g: Guarded, matches: Session -> bool): (r: Guarded) {
    g.(sessions := g.sessions - Matching(g.sessions, matches))
  }

  function IdsInOrder(m: map<string, Session>, order: seq<string>): (ids: seq<string>)
    requires forall k :: k in order ==> k in m
  {
    seq(|order|, i requires 0 <= i < |order| => assert order[i] in order; m[order[i]].id)
  }

  predicate IdleAt(s: Session, now: Time) {
    !Live(s, now)
  }

  class Proxy {
    var sessions: map<string, Session>
    var sessionlessUntil: Time
    var closed: bool
    var sweeping: bool  // stopSweep is non-nil

    function State(): Guarded
      reads this
    {
      Guarded(sessions, sessionlessUntil, closed)
    }

    constructor ()
      ensures State() == Guarded(map[], 0, false) && !sweeping
    {
      sessions, sessionlessUntil, closed, sweeping := map[], 0, false, false;
    }

    /** Configure starts one sweeper, and none on a closed proxy. */
    method StartSweeper() returns (started: bool)
      modifies this`sweeping
      ensures started <==> !old(sweeping) && !closed
      ensures sweeping == (old(sweeping) || !closed)
    {
      started := !sweeping && !closed;
      if started {
        sweeping := true;
      }
    }

    method EnsureLookup(key: string, now: Time) returns (r: Lookup)
      modifies this`sessions
      ensures (State(), r) == LookupSection(old(State()), key, now)
    {
      if closed {
        return ProxyClosed;
      }
      if now < sessionlessUntil {
        return NoSessions;
      }
      if key in sessions {
        var s := sessions[key];
        if now - s.lastUsed < SESSION_IDLE_TTL {
          sessions := sessions[key := s.(lastUsed := now)];
          return Found(s.id);
        }
        sessions := sessions - {key};
        return Expired(s.id);
      }
      return Missing;
    }

    method RememberSessionless(now: Time)
      modifies this`sessionlessUntil
      ensures State() == SessionlessSection(old(State()), now)
    {
      sessionlessUntil := now + SESSION_IDLE_TTL;
    }

    method EnsureStore(key: string, id: string, now: Time) returns (r: Stored)
      modifies this`sessions
      ensures (State(), r) == StoreSection(old(State()), key, id, now)
    {
      if closed {
        return TooLate;
      }
      if key in sessions && now - sessions[key].lastUsed < SESSION_IDLE_TTL {
        var s := sessions[key];
        sessions := sessions[key := s.(lastUsed := now)];
        return LostRace(s.id);
      }
      sessions := sessions[key := Session(id, now)];
      return Kept;
    }

    method DropSession(key: string, id: string)
      modifies this`sessions
      ensures State() == DropSection(old(State()), key, id)
    {
      if key in sessions && sessions[key].id == id {
        sessions := sessions - {key};
      }
    }

    /** Removes the matching sessions and returns their ids, one per removed key; order is the
        iteration order the map happened to be walked in. */
    method TakeSessions(matches: Session -> bool) returns (ids: seq<string>, ghost order: seq<string>)
      modifies this`sessions
      ensures State() == TakeSection(old(State()), matches)
      ensures Enumerates(order, Matching(old(sessions), matches))
      ensures ids == IdsInOrder(old(sessions), order)
    {
      ids, order := [], [];
      var todo := sessions.Keys;
      while todo != {}
        invariant todo <= old(sessions).Keys
        invariant sessions == old(sessions) - (Matching(old(sessions), matches) - todo)
        invariant Enumerates(order, Matching(old(sessions), matches) - todo)
        invariant ids == IdsInOrder(old(sessions), order)
      {
        var k :| k in todo;
        todo := todo - {k};
        var s := sessions[k];
        if matches(s) {
          sessions := sessions - {k};
          ids, order := ids + [s.id], order + [k];
        }
      }
    }

    /** The critical section of Close; the ids it later takes come from TakeSessions. */
    method MarkClosed()
      modifies this`closed, this`sweeping
      ensures State() == old(State()).(closed := true) && !sweeping
    {
      closed, sweeping := true, false;
    }
  }
}
