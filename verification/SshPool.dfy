/** The SSH connection pool of dynamic mode, and every run of its operations.

A client is known by an identity. Whether a pooled connection answers its keepalive and what a dial
returns are inputs. Each operation holds the pool lock throughout and is one step of a run. */
module SshPool {

  import opened Collections

  type Time = int  // nanoseconds
  type Client = nat

  const DEFAULT_POOL_MAX_SIZE := 50
  const DEFAULT_POOL_TTL: Time := 10 * 60 * 1_000_000_000

  datatype Entry = Entry(client: Client, lastUsed: Time)

  type Pool = map<string, Entry>

  /** The pool and the configuration that governs it; ready means sshConfig is set. */
  datatype State = State(pool: Pool, ready: bool, maxSize: int, ttl: Time)

  function MaxSize(s: State): (r: int) {
    if s.maxSize == 0 then DEFAULT_POOL_MAX_SIZE else s.maxSize
  }

  /** A configured size below one still lets one connection in. */
  function Limit(s: State): (r: int)
    ensures r >= 1
  {
    if MaxSize(s) < 1 then 1 else MaxSize(s)
  }

  function Ttl(s: State): (r: Time) {
    if s.ttl == 0 then DEFAULT_POOL_TTL else s.ttl
  }

  /** victim has been idle longest. */
  ghost predicate Oldest(pool: Pool, victim: string) {
    victim in pool && forall a :: a in pool ==> pool[victim].lastUsed <= pool[a].lastUsed
  }

  /** What getPooledClient leaves behind: the new pool, the clients it closed, the client it returns. */
  datatype Got = Got(pool: Pool, closed: seq<Client>, client: Option<Client>)

  /** Whether the pool is full once a dead connection to addr is out. */
  predicate MustEvict(s: State, addr: string) {
    |s.pool - {addr}| >= MaxSize(s) && s.pool - {addr} != map[]
  }

  function GetIn(s: State, addr: string, alive: bool, dialled: Option<Client>, victim: string, now: Time): (r: Got)
    requires MustEvict(s, addr) ==> victim in s.pool - {addr}
  {
    if addr in s.pool && alive then
      Got(s.pool[addr := s.pool[addr].(lastUsed := now)], [], Some(s.pool[addr].client))
    else
      var dead := if addr in s.pool then [s.pool[addr].client] else [];
      var rest := s.pool - {addr};
      var evicted := if MustEvict(s, addr) then [rest[victim].client] else [];
      var left := if MustEvict(s, addr) then rest - {victim} else rest;
      if !s.ready || dialled.None? then Got(left, dead + evicted, None)
      else Got(left[addr := Entry(dialled.value, now)], dead + evicted, dialled)
  }

  function Expired(s: State, now: Time): (r: set<string>) {
    set a | a in s.pool && s.pool[a].lastUsed < now - Ttl(s)
  }

  ghost function ClientsInOrder(pool: Pool, order: seq<string>): (r: seq<Client>)
    requires forall a :: a in order ==> a in pool
  {
    seq(|order|, i requires 0 <= i < |order| => assert order[i] in order; pool[order[i]].client)
  }

  class Proxy {
    var pool: Pool
    var ready: bool
    var maxSize: int
    var ttl: Time

    function Snapshot(): State
      reads this
    {
      State(pool, ready, maxSize, ttl)
    }

    constructor ()
      ensures Snapshot() == State(map[], false, 0, 0)
    {
      pool, ready, maxSize, ttl := map[], false, 0, 0;
    }

    /** evictOldestLocked: removes an entry with the least last-used time. */
    method EvictOldest() returns (closed: Client, victim: string)
      requires pool != map[] && "" !in pool
      modifies this`pool
      ensures Oldest(old(pool), victim) && closed == old(pool)[victim].client && pool == old(pool) - {victim}
    {
      var oldestAddr, oldestTime, first := "", 0, true;
      var todo := pool.Keys;
      assert todo != {};
      while todo != {}
        invariant todo <= pool.Keys && first == (todo == pool.Keys)
        invariant !first ==> oldestAddr in pool && oldestAddr !in todo && oldestTime == pool[oldestAddr].lastUsed
        invariant !first ==> forall a :: a in pool && a !in todo ==> oldestTime <= pool[a].lastUsed
      {
        var addr :| addr in todo;
        todo := todo - {addr};
        if first || pool[addr].lastUsed < oldestTime {
          oldestAddr, oldestTime, first := addr, pool[addr].lastUsed, false;
        }
      }
      victim := oldestAddr;
      closed := pool[oldestAddr].client;
      pool := pool - {oldestAddr};
    }

    method GetPooledClient(addr: string, alive: bool, dialled: Option<Client>, now: Time)
      returns (client: Option<Client>, closed: seq<Client>, ghost victim: string)
      requires addr != "" && "" !in pool
      modifies this`pool
      ensures MustEvict(old(Snapshot()), addr) && !(addr in old(pool) && alive) ==> Oldest(old(pool) - {addr}, victim)
      ensures MustEvict(old(Snapshot()), addr) ==> victim in old(pool) - {addr}
      ensures Got(pool, closed, client) == GetIn(old(Snapshot()), addr, alive, dialled, victim, now)
    {
      closed, victim := [], "";
      if MustEvict(Snapshot(), addr) {
        victim :| victim in pool - {addr};
      }
      if addr in pool {
        if alive {
          pool := pool[addr := pool[addr].(lastUsed := now)];
          return Some(pool[addr].client), [], victim;
        }
        closed := [pool[addr].client];
        pool := pool - {addr};
      }
      assert pool == old(pool) - {addr};
      var limit := if maxSize == 0 then DEFAULT_POOL_MAX_SIZE else maxSize;
      if |pool| >= limit && pool != map[] {
        var evicted, v := EvictOldest();
        closed := closed + [evicted];
        victim := v;
      }
      if !ready {
        return None, closed, victim;
      }
      if dialled.None? {
        return None, closed, victim;
      }
      pool := pool[addr := Entry(dialled.value, now)];
      return dialled, closed, victim;
    }

    /** Closes and drops the entries among `keys`; the loop of both cleanup and Close. */
    method DropAll(keys: set<string>) returns (closed: seq<Client>, ghost order: seq<string>)
      requires keys <= pool.Keys
      modifies this`pool
      ensures pool == old(pool) - keys && Enumerates(order, keys) && closed == ClientsInOrder(old(pool), order)
    {
      closed, order := [], [];
      var todo := keys;
      while todo != {}
        invariant todo <= keys && pool == old(pool) - (keys - todo)
        invariant Enumerates(order, keys - todo) && closed == ClientsInOrder(old(pool), order)
      {
        var addr :| addr in todo;
        todo := todo - {addr};
        closed, order := closed + [pool[addr].client], order + [addr];
        pool := pool - {addr};
      }
      assert keys - {} == keys;
    }

    method CleanupExpired(now: Time) returns (closed: seq<Client>, ghost order: seq<string>)
      modifies this`pool
      ensures pool == old(pool) - Expired(old(Snapshot()), now)
      ensures Enumerates(order, Expired(old(Snapshot()), now)) && closed == ClientsInOrder(old(pool), order)
    {
      var limit := if ttl == 0 then DEFAULT_POOL_TTL else ttl;
      var cutoff := now - limit;
      closed, order := DropAll(set a | a in pool && pool[a].lastUsed < cutoff);
    }

    method Close() returns (closed: seq<Client>, ghost order: seq<string>)
      modifies this
      ensures Snapshot() == old(Snapshot()).(pool := map[], ready := false)
      ensures Enumerates(order, old(pool).Keys) && closed == ClientsInOrder(old(pool), order)
    {
      closed, order := DropAll(pool.Keys);
      assert pool == map[];
      ready := false;
    }

    /** Configure: everything is closed first; ok is whether the new configuration is usable in
        dynamic mode. */
    method Configure(size: int, lifetime: Time, ok: bool) returns (closed: seq<Client>, ghost order: seq<string>)
      modifies this
      ensures Snapshot() == State(map[], ok, size, lifetime)
      ensures Enumerates(order, old(pool).Keys) && closed == ClientsInOrder(old(pool), order)
    {
      closed, order := Close();
      maxSize, ttl := size, lifetime;
      ready := ok;
    }
  }
}
