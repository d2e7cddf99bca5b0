/** The wait before the relay connection is opened again: exponential backoff with full jitter.

Durations are 64-bit nanosecond counts, and doubling wraps around as it does in Go. */
module Backoff {
  import opened Powers

  const MAX_INT64 := 0x7fff_ffff_ffff_ffff
  const INITIAL_DELAY := 3 * 1_000_000_000
  const MAX_RECONNECT_DELAY := 10 * 1_000_000_000

  predicate Int64(x: int) {
    -MAX_INT64 - 1 <= x <= MAX_INT64
  }

  /** The signed 64-bit value of x. */
  function Wrap(x: int): (r: int)
    ensures Int64(r) && (Int64(x) ==> r == x)
  {
    var m := x % 0x1_0000_0000_0000_0000;
    if m > MAX_INT64 then m - 0x1_0000_0000_0000_0000 else m
  }

  /** Go's x / 2, rounded towards zero. */
  function Half(x: int): (r: int) {
    if x < 0 then -(-x / 2) else x / 2
  }

  function Min(a: int, b: int): (r: int) {
    if a < b then a else b
  }

  /** The longest wait before reconnect number attempt. */
  function Ceiling(base: int, limit: int, attempt: int): (r: int) {
    Min(limit, base * Pow2(if attempt < 0 then 0 else attempt))
  }

  lemma CeilingDoubles(base: int, limit: int, i: nat)
    requires 0 <= base && Ceiling(base, limit, i) < limit
    ensures Ceiling(base, limit, i + 1) == Min(limit, 2 * Ceiling(base, limit, i))
  {
    assert Pow2(i + 1) == 2 * Pow2(i);
    assert base * (2 * Pow2(i)) == 2 * (base * Pow2(i));
  }

  /** More attempts never shorten the longest wait. */
  lemma CeilingMonotone(base: int, limit: int, i: int, j: int)
    requires 0 <= base && i <= j
    ensures Ceiling(base, limit, i) <= Ceiling(base, limit, j)
  {
    var m, n: nat := if i < 0 then 0 else i, if j < 0 then 0 else j;
    Pow2Monotone(m, n);
    assert base * Pow2(m) <= base * Pow2(n) by {
      assert base * Pow2(n) - base * Pow2(m) == base * (Pow2(n) - Pow2(m)) >= 0;
    }
  }

  /** One turn of the loop: doubling stays below the limit and in range, or every later ceiling is the limit. */
  lemma OneTurn(base: int, limit: int, i: nat, attempt: int)
    requires 0 <= base && Int64(limit) && i < attempt && Ceiling(base, limit, i) < limit
    ensures Ceiling(base, limit, i) >= 0
    ensures Ceiling(base, limit, i) > Half(limit) ==> Ceiling(base, limit, attempt) == limit
    ensures Ceiling(base, limit, i) <= Half(limit) ==>
              Ceiling(base, limit, i + 1) == Wrap(Ceiling(base, limit, i) * 2)
  {
    CeilingDoubles(base, limit, i);
    CeilingMonotone(base, limit, i + 1, attempt);
    assert base * Pow2(i) >= 0;
  }

  lemma FirstCeiling(base: int, limit: int, attempt: int)
    requires attempt <= 0
    ensures Ceiling(base, limit, attempt) == Min(base, limit)
  {
    assert base * Pow2(0) == base;
  }

  lemma CeilingStays(base: int, limit: int, i: nat, attempt: int)
    requires 0 <= base && i <= attempt && Ceiling(base, limit, i) >= limit
    ensures Ceiling(base, limit, attempt) == Ceiling(base, limit, i)
  {
    CeilingMonotone(base, limit, i, attempt);
  }

  /** The doubling loop. */
  method FindCeiling(base: int, limit: int, attempt: int) returns (ceiling: int)
    requires Int64(base) && Int64(limit)
    ensures Int64(ceiling)
    ensures 0 <= base ==> ceiling == Ceiling(base, limit, attempt)
  {
    ceiling := Min(base, limit);
    FirstCeiling(base, limit, 0);
    if attempt <= 0 { FirstCeiling(base, limit, attempt); }
    var i := 0;
    while i < attempt && ceiling < limit
      invariant Int64(ceiling) && 0 <= i && (if 0 <= attempt then i <= attempt else i == 0)
      invariant 0 <= base ==> ceiling == Ceiling(base, limit, i)
    {
      if 0 <= base { OneTurn(base, limit, i, attempt); }
      if ceiling > Half(limit) {
        ceiling := limit;
        return;
      }
      ceiling := Wrap(ceiling * 2);
      i := i + 1;
    }
    if 0 <= base && i < attempt { CeilingStays(base, limit, i, attempt); }
  }

  /** randN(n) lies in [0, n). */
  ghost predicate Draws(randN: int -> int) {
    forall n :: 0 < n <= MAX_INT64 ==> 0 <= randN(n) < n
  }

  /** The wait is drawn from 0 up to the ceiling; MaxInt64 itself cannot be drawn. */
  method ReconnectWait(base: int, limit: int, attempt: int, randN: int -> int) returns (wait: int)
    requires Int64(base) && Int64(limit) && Draws(randN)
    ensures 0 <= wait <= MAX_INT64
    ensures 0 <= base ==>
              var ceiling := Ceiling(base, limit, attempt);
              && (ceiling <= 0 ==> wait == 0)
              && (ceiling > 0 ==> wait <= ceiling && wait == randN(Min(ceiling + 1, MAX_INT64)))
  {
    var ceiling := FindCeiling(base, limit, attempt);
    if ceiling <= 0 {
      return 0;
    }
    if ceiling == MAX_INT64 {
      return randN(MAX_INT64);
    }
    return randN(ceiling + 1);
  }

  /** The reconnect counter that Run keeps across sessions. */
  class Client {
    var attempt: nat

    constructor ()
      ensures attempt == 0
    {
      attempt := 0;
    }

    /** A session has ended; held says it lasted at least MAX_RECONNECT_DELAY. */
    method SessionEnded(held: bool, randN: int -> int) returns (wait: int)
      requires Draws(randN)
      modifies this
      ensures attempt == Counted(old(attempt), held)
      ensures 0 <= wait <= Ceiling(INITIAL_DELAY, MAX_RECONNECT_DELAY, attempt - 1)
    {
      if held {
        attempt := 0;
      }
      wait := ReconnectWait(INITIAL_DELAY, MAX_RECONNECT_DELAY, attempt, randN);
      attempt := attempt + 1;
      CeilingPositive(attempt - 1);
    }
  }

  function Counted(attempt: nat, held: bool): (r: nat) {
    if held then 1 else attempt + 1
  }

  lemma CeilingPositive(n: nat)
    ensures Ceiling(INITIAL_DELAY, MAX_RECONNECT_DELAY, n) > 0
  {
    assert INITIAL_DELAY * Pow2(n) >= INITIAL_DELAY * 1;
  }

  /** The counter after a history of sessions, oldest first. */
  ghost function After(history: seq<bool>): (r: nat) {
    if history == [] then 0 else Counted(After(history[..|history| - 1]), history[|history| - 1])
  }

  /** With no session that held, the counter is the number of sessions. */
  lemma {:induction false} GrowsWithoutHolding(history: seq<bool>)
    requires forall k :: 0 <= k < |history| ==> !history[k]
    ensures After(history) == |history|
  {
    if history != [] {
      GrowsWithoutHolding(history[..|history| - 1]);
    }
  }

  /** The waits grow for as long as no session holds, and start over after one that did. */
  lemma {:induction false} RestartsAfterHolding(history: seq<bool>, n: nat)
    requires n < |history| && history[n] && forall k :: n < k < |history| ==> !history[k]
    ensures After(history) == |history| - n
  {
    var init := history[..|history| - 1];
    if n < |init| {
      RestartsAfterHolding(init, n);
    }
  }
}
