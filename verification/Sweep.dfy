/** Sweep scope: IPv4 prefixes, host expansion with exclusions, and scope enforcement.

An IPv4 address is a number below 2^32 and a prefix the block of addresses that share its leading
bits, as in section 3.1 of RFC 4632. */
module Sweep {
  import opened Powers

  const MAX_SWEEP_ADDRESSES := 65536
  const ADDRESS_SPACE := 0x1_0000_0000

  /** netip.Addr: Next of the last address is the zero Addr, which is no address. */
  datatype Addr = V4(n: nat) | NoAddr

  datatype Prefix = P4(addr: nat, bits: nat) | P6

  ghost predicate Valid(p: Prefix) {
    p.P4? ==> p.addr < ADDRESS_SPACE && p.bits <= 32
  }

  ghost predicate AllValid(ps: seq<Prefix>) {
    forall i :: 0 <= i < |ps| ==> Valid(ps[i])
  }

  lemma Pow2Of32()
    ensures Pow2(32) == ADDRESS_SPACE
  {
    Pow2Adds(16, 16);
    Pow2Adds(8, 8);
    assert Pow2(8) == 256;
  }

  /** The number of addresses of a prefix. */
  function Size(bits: nat): (r: nat)
    requires bits <= 32
    ensures r >= 1
  {
    Pow2(32 - bits)
  }

  /** The first address of the block (Masked). */
  function First(p: Prefix): (r: nat)
    requires p.P4? && Valid(p)
    ensures r <= p.addr
  {
    BlockStart(p.addr, Size(p.bits));
    p.addr - p.addr % Size(p.bits)
  }

  function Masked(p: Prefix): (r: Prefix)
    requires Valid(p)
    ensures Valid(r)
  {
    if p.P6? then p else P4(First(p), p.bits)
  }

  /** netip.Prefix.Contains: the leading bits agree. */
  predicate Contains(p: Prefix, a: nat)
    requires Valid(p)
  {
    p.P4? && a / Size(p.bits) == p.addr / Size(p.bits)
  }

  lemma BlockStart(a: nat, size: nat)
    requires size >= 1
    ensures a % size <= a && a - a % size == a / size * size
  {
  }

  lemma QuotientUnique(a: nat, d: nat, r: nat)
    requires d >= 1 && r * d <= a < r * d + d
    ensures a / d == r
  {
    BlockStart(a, d);
    MultiplesApart(a / d, r, d);
    MultiplesApart(r, a / d, d);
  }

  lemma MultiplesApart(x: nat, y: nat, d: nat)
    ensures x < y ==> x * d + d <= y * d
  {
    if x < y {
      assert (x + 1) * d <= y * d;
    }
  }

  lemma SameBlock(a: nat, b: nat, size: nat)
    requires size >= 1
    ensures a / size == b / size <==> b - b % size <= a < b - b % size + size
  {
    BlockStart(a, size);
    BlockStart(b, size);
    if b - b % size <= a < b - b % size + size {
      QuotientUnique(a, size, b / size);
    }
  }

  /** A prefix is the interval of Size(bits) addresses from its first one. */
  lemma ContainsIsInterval(p: Prefix, a: nat)
    requires Valid(p) && p.P4?
    ensures Contains(p, a) <==> First(p) <= a < First(p) + Size(p.bits)
  {
    SameBlock(a, p.addr, Size(p.bits));
  }

  lemma BlockBelow(a: nat, size: nat, count: nat)
    requires size >= 1 && a < count * size
    ensures a - a % size + size <= count * size
  {
    BlockStart(a, size);
    MultiplesApart(count, a / size, size);
    MultiplesApart(a / size, count, size);
  }

  /** The block stays inside the address space. */
  lemma BlockFits(p: Prefix)
    requires Valid(p) && p.P4?
    ensures First(p) + Size(p.bits) <= ADDRESS_SPACE
  {
    Pow2Of32();
    Pow2Adds(p.bits, 32 - p.bits);
    BlockBelow(p.addr, Size(p.bits), Pow2(p.bits));
  }

  /** prefixWithinAny on the configured networks; a network that is not IPv4 matches nothing. */
  method PrefixWithinAny(requested: Prefix, configured: seq<Prefix>) returns (within: bool)
    requires Valid(requested) && AllValid(configured)
    ensures within <==> requested.P4? && exists i :: 0 <= i < |configured| && Within(requested, configured[i])
  {
    if requested.P6? {
      return false;  // no IPv4 network contains an IPv6 address
    }
    for n := 0 to |configured|
      invariant forall i :: 0 <= i < n ==> !Within(requested, configured[i])
    {
      assert Contains(requested, requested.addr);
      if configured[n].P6? {
        continue;
      }
      WithinTest(requested, configured[n]);
      if requested.addr / Size(configured[n].bits) == configured[n].addr / Size(configured[n].bits) && requested.bits >= configured[n].bits {
        return true;
      }
    }
    return false;
  }

  /** Every address of p is an address of q. */
  ghost predicate Within(p: Prefix, q: Prefix)
    requires Valid(p) && Valid(q)
  {
    forall a: nat :: Contains(p, a) ==> Contains(q, a)
  }

  /** The test compares one address and the prefix lengths; that decides containment of the blocks. */
  lemma WithinTest(p: Prefix, q: Prefix)
    requires Valid(p) && Valid(q) && p.P4? && q.P4?
    ensures Contains(q, p.addr) && p.bits >= q.bits <==> Within(p, q)
  {
    var lo, hi := First(p), First(p) + Size(p.bits) - 1;
    ContainsIsInterval(p, p.addr);
    ContainsIsInterval(q, p.addr);
    if Within(p, q) {
      ContainsIsInterval(p, lo);
      ContainsIsInterval(p, hi);
      ContainsIsInterval(q, lo);
      ContainsIsInterval(q, hi);
      Pow2Monotone(32 - p.bits, 32 - q.bits);
    }
    if Contains(q, p.addr) && p.bits >= q.bits {
      forall a: nat | Contains(p, a) ensures Contains(q, a) {
        NestedBlocks(p, q, a);
      }
    }
  }

  lemma NestedBlocks(p: Prefix, q: Prefix, a: nat)
    requires Valid(p) && Valid(q) && p.P4? && q.P4? && p.bits >= q.bits && Contains(p, a) && Contains(q, p.addr)
    ensures Contains(q, a)
  {
    var small, factor := Size(p.bits), Pow2(p.bits - q.bits);
    Pow2Adds(p.bits - q.bits, 32 - p.bits);
    assert Size(q.bits) == factor * small;
    DivideTwice(a, small, factor);
    DivideTwice(p.addr, small, factor);
  }

  lemma Scaled(x: nat, y: nat, k: nat)
    requires x <= y
    ensures x * k <= y * k
  {
  }

  lemma Distributes(x: nat, y: nat, k: nat)
    ensures (x + y) * k == x * k + y * k
  {
  }

  lemma Associates(x: nat, y: nat, k: nat)
    ensures x * y * k == x * (y * k)
  {
  }

  lemma BlockOfBlocks(a: nat, q: nat, r: nat, small: nat, factor: nat)
    requires q * small <= a < q * small + small && r * factor <= q < r * factor + factor
    ensures r * (factor * small) <= a < r * (factor * small) + factor * small
  {
    var rf := r * factor;
    Associates(r, factor, small);
    Scaled(rf, q, small);
    Scaled(q + 1, rf + factor, small);
    Distributes(q, 1, small);
    Distributes(rf, factor, small);
  }

  lemma DivideTwice(a: nat, small: nat, factor: nat)
    requires small >= 1 && factor >= 1
    ensures factor * small >= 1 && a / (factor * small) == a / small / factor
  {
    var q := a / small;
    var r := q / factor;
    Scaled(1, factor, small);
    BlockStart(a, small);
    BlockStart(q, factor);
    BlockOfBlocks(a, q, r, small, factor);
    QuotientUnique(a, factor * small, r);
  }

  // ----- Expansion -----

  /** A host address of a prefix: any address of it, but up to /30 neither the first nor the last
      (section 2.1 of RFC 3021 makes both addresses of a /31 usable). */
  predicate HostAddress(p: Prefix, a: nat)
    requires Valid(p)
  {
    p.P4? && Contains(p, a) && (p.bits <= 30 ==> a != First(p) && a != First(p) + Size(p.bits) - 1)
  }

  function HostCount(bits: nat): (r: int)
    requires bits <= 32
  {
    if bits <= 30 then Size(bits) - 2 else Size(bits)
  }

  predicate Excluded(a: nat, exclusions: seq<Prefix>)
    requires AllValid(exclusions)
  {
    exists i :: 0 <= i < |exclusions| && Contains(exclusions[i], a)
  }

  predicate Probed(p: Prefix, exclusions: seq<Prefix>, a: nat)
    requires Valid(p) && AllValid(exclusions)
  {
    HostAddress(p, a) && !Excluded(a, exclusions)
  }

  /** The probed addresses among the first n of a prefix, in order. */
  function ProbedUpTo(p: Prefix, exclusions: seq<Prefix>, n: nat): (r: seq<nat>)
    requires Valid(p) && p.P4? && AllValid(exclusions)
    ensures |r| <= n
  {
    if n == 0 then []
    else ProbedUpTo(p, exclusions, n - 1) + if Probed(p, exclusions, First(p) + n - 1) then [First(p) + n - 1] else []
  }

  function ExcludedUpTo(p: Prefix, exclusions: seq<Prefix>, n: nat): (r: nat)
    requires Valid(p) && p.P4? && AllValid(exclusions)
  {
    if n == 0 then 0
    else
      var a := First(p) + n - 1;
      ExcludedUpTo(p, exclusions, n - 1) + if HostAddress(p, a) && Excluded(a, exclusions) then 1 else 0
  }

  datatype Expansion = Expanded(addrs: seq<nat>, excluded: nat) | NotIPv4 | TooLarge

  function Expand(cidrs: seq<Prefix>, exclusions: seq<Prefix>): (r: Expansion)
    requires AllValid(cidrs) && AllValid(exclusions)
    ensures r.Expanded? ==> |r.addrs| <= MAX_SWEEP_ADDRESSES
  {
    if cidrs == [] then Expanded([], 0)
    else
      var r, p := Expand(cidrs[..|cidrs| - 1], exclusions), cidrs[|cidrs| - 1];
      if !r.Expanded? then r
      else if p.P6? then NotIPv4
      else if |r.addrs| + Size(p.bits) > MAX_SWEEP_ADDRESSES then TooLarge
      else Expanded(r.addrs + ProbedUpTo(p, exclusions, Size(p.bits)), r.excluded + ExcludedUpTo(p, exclusions, Size(p.bits)))
  }

  function Next(a: Addr): (r: Addr) {
    if a.V4? && a.n + 1 < ADDRESS_SPACE then V4(a.n + 1) else NoAddr
  }

  /** isExcluded is only ever asked about an address, never about the end of the address space. */
  method IsExcluded(a: Addr, exclusions: seq<Prefix>) returns (r: bool)
    requires a.V4? && AllValid(exclusions)
    ensures r <==> Excluded(a.n, exclusions)
  {
    for i := 0 to |exclusions|
      invariant forall j :: 0 <= j < i ==> !Contains(exclusions[j], a.n)
    {
      if Contains(exclusions[i], a.n) {
        return true;
      }
    }
    return false;
  }

  method ExpandOne(p: Prefix, exclusions: seq<Prefix>) returns (addrs: seq<nat>, excluded: nat)
    requires Valid(p) && p.P4? && AllValid(exclusions)
    ensures addrs == ProbedUpTo(p, exclusions, Size(p.bits))
    ensures excluded == ExcludedUpTo(p, exclusions, Size(p.bits))
  {
    addrs, excluded := [], 0;
    var size := Size(p.bits);
    BlockFits(p);
    var addr := V4(First(p));
    for i := 0 to size
      invariant i < size ==> addr == V4(First(p) + i)
      invariant addrs == ProbedUpTo(p, exclusions, i) && excluded == ExcludedUpTo(p, exclusions, i)
    {
      ContainsIsInterval(p, First(p) + i);
      if p.bits <= 30 && (i == 0 || i == size - 1) {
        addr := Next(addr);
        continue;
      }
      var ex := IsExcluded(addr, exclusions);
      if ex {
        excluded := excluded + 1;
      } else {
        addrs := addrs + [addr.n];
      }
      addr := Next(addr);
    }
  }

  method ExpandCIDRs(cidrs: seq<Prefix>, exclusions: seq<Prefix>) returns (r: Expansion)
    requires AllValid(cidrs) && AllValid(exclusions)
    ensures r == Expand(cidrs, exclusions)
  {
    var addrs: seq<nat>, excluded: nat := [], 0;
    for n := 0 to |cidrs|
      invariant Expand(cidrs[..n], exclusions) == Expanded(addrs, excluded)
    {
      assert cidrs[..n + 1][..n] == cidrs[..n];
      if cidrs[n].P6? {
        Stuck(cidrs, exclusions, n + 1);
        return NotIPv4;
      }
      if |addrs| + Size(cidrs[n].bits) > MAX_SWEEP_ADDRESSES {
        Stuck(cidrs, exclusions, n + 1);
        return TooLarge;
      }
      var more, ex := ExpandOne(cidrs[n], exclusions);
      addrs, excluded := addrs + more, excluded + ex;
    }
    assert cidrs[..|cidrs|] == cidrs;
    return Expanded(addrs, excluded);
  }

  lemma Stuck(cidrs: seq<Prefix>, exclusions: seq<Prefix>, n: nat)
    requires AllValid(cidrs) && AllValid(exclusions) && n <= |cidrs| && !Expand(cidrs[..n], exclusions).Expanded?
    ensures Expand(cidrs, exclusions) == Expand(cidrs[..n], exclusions)
  {
    if n < |cidrs| {
      var init := cidrs[..|cidrs| - 1];
      assert init[..n] == cidrs[..n];
      Stuck(init, exclusions, n);
    } else {
      assert cidrs[..n] == cidrs;
    }
  }

  // ----- What expansion means -----

  function Count(s: seq<nat>, a: nat): (r: nat) {
    multiset(s)[a]
  }

  // ----- When expansion fails -----

  /** What matters of a CIDR: whether it is IPv4, its size, and the addresses it contributes. */
  datatype Item = Item(ipv4: bool, size: nat, kept: nat)

  function ItemOf(p: Prefix, exclusions: seq<Prefix>): (r: Item)
    requires Valid(p) && AllValid(exclusions)
  {
    if p.P6? then Item(false, 0, 0)
    else Item(true, Size(p.bits), |ProbedUpTo(p, exclusions, Size(p.bits))|)
  }

  function Items(cidrs: seq<Prefix>, exclusions: seq<Prefix>): (r: seq<Item>)
    requires AllValid(cidrs) && AllValid(exclusions)
  {
    seq(|cidrs|, i requires 0 <= i < |cidrs| => ItemOf(cidrs[i], exclusions))
  }

  function KeptOf(items: seq<Item>): (r: nat) {
    if items == [] then 0 else KeptOf(items[..|items| - 1]) + items[|items| - 1].kept
  }

  /** The CIDR is IPv4 and its size fits on top of the addresses kept before it. */
  predicate FitsAt(items: seq<Item>, i: nat)
    requires i < |items|
  {
    items[i].ipv4 && KeptOf(items[..i]) + items[i].size <= MAX_SWEEP_ADDRESSES
  }

  lemma ItemsMore(init: seq<Prefix>, p: Prefix, exclusions: seq<Prefix>)
    requires AllValid(init) && AllValid(init + [p]) && Valid(p) && AllValid(exclusions)
    ensures Items(init + [p], exclusions) == Items(init, exclusions) + [ItemOf(p, exclusions)]
  {
  }

  /** One more CIDR. */
  lemma ExpandStep(init: seq<Prefix>, p: Prefix, exclusions: seq<Prefix>)
    requires AllValid(init) && AllValid(init + [p]) && Valid(p) && AllValid(exclusions)
    ensures var r, more, item := Expand(init, exclusions), Expand(init + [p], exclusions), ItemOf(p, exclusions);
            && (!r.Expanded? ==> more == r)
            && (r.Expanded? && !item.ipv4 ==> more == NotIPv4)
            && (r.Expanded? && item.ipv4 && |r.addrs| + item.size > MAX_SWEEP_ADDRESSES ==> more == TooLarge)
            && (r.Expanded? && item.ipv4 && |r.addrs| + item.size <= MAX_SWEEP_ADDRESSES ==>
                  more.Expanded? && |more.addrs| == |r.addrs| + item.kept)
  {
    var cidrs := init + [p];
    assert cidrs[..|cidrs| - 1] == init && cidrs[|cidrs| - 1] == p;
  }

  /** The outcome is that of the first item that does not fit, or all that was kept. */
  ghost predicate Outcome(items: seq<Item>, r: Expansion) {
    match r
    case Expanded(addrs, _) => |addrs| == KeptOf(items) && forall i :: 0 <= i < |items| ==> FitsAt(items, i)
    case NotIPv4 => exists n: nat :: FirstMisfit(items, n) && !items[n].ipv4
    case TooLarge => exists n: nat :: FirstMisfit(items, n) && items[n].ipv4
  }

  ghost predicate FirstMisfit(items: seq<Item>, n: nat) {
    n < |items| && !FitsAt(items, n) && forall i :: 0 <= i < n ==> FitsAt(items, i)
  }

  lemma FitsWithin(items: seq<Item>, item: Item, i: nat)
    requires i < |items|
    ensures FitsAt(items + [item], i) <==> FitsAt(items, i)
  {
    assert (items + [item])[..i] == items[..i];
  }

  lemma OutcomeMore(items: seq<Item>, item: Item, r: Expansion, more: Expansion)
    requires Outcome(items, r)
    requires !r.Expanded? ==> more == r
    requires r.Expanded? && !item.ipv4 ==> more == NotIPv4
    requires r.Expanded? && item.ipv4 && |r.addrs| + item.size > MAX_SWEEP_ADDRESSES ==> more == TooLarge
    requires r.Expanded? && item.ipv4 && |r.addrs| + item.size <= MAX_SWEEP_ADDRESSES ==>
               more.Expanded? && |more.addrs| == |r.addrs| + item.kept
    ensures Outcome(items + [item], more)
  {
    var all := items + [item];
    assert all[..|items|] == items;
    forall i | 0 <= i < |items| ensures FitsAt(all, i) <==> FitsAt(items, i) { FitsWithin(items, item, i); }
    if r.Expanded? {
      if !more.Expanded? { assert FirstMisfit(all, |items|); }
    } else {
      var n: nat :| FirstMisfit(items, n) && (items[n].ipv4 <==> r.TooLarge?);
      assert FirstMisfit(all, n) && all[n] == items[n];
    }
  }

  /** Expansion succeeds exactly when every CIDR is IPv4 and fits on top of what was kept before it;
      otherwise the first that does not decides whether it is refused as not IPv4 or as too large. */
  lemma {:induction false} ExpandOutcome(cidrs: seq<Prefix>, exclusions: seq<Prefix>)
    requires AllValid(cidrs) && AllValid(exclusions)
    ensures Outcome(Items(cidrs, exclusions), Expand(cidrs, exclusions))
  {
    if cidrs != [] {
      var init, p := cidrs[..|cidrs| - 1], cidrs[|cidrs| - 1];
      assert cidrs == init + [p];
      ExpandOutcome(init, exclusions);
      ExpandStep(init, p, exclusions);
      ItemsMore(init, p, exclusions);
      OutcomeMore(Items(init, exclusions), ItemOf(p, exclusions), Expand(init, exclusions), Expand(cidrs, exclusions));
    }
  }

  // ----- What is listed -----

  /** The numbers kept among the n from first on, in order. */
  function Select(first: nat, n: nat, keep: nat -> bool): (r: seq<nat>) {
    if n == 0 then [] else Select(first, n - 1, keep) + if keep(first + n - 1) then [first + n - 1] else []
  }

  lemma {:induction false} SelectOnce(first: nat, n: nat, keep: nat -> bool, a: nat)
    ensures Count(Select(first, n, keep), a) == if first <= a < first + n && keep(a) then 1 else 0
  {
    if n > 0 {
      SelectOnce(first, n - 1, keep, a);
    }
  }

  lemma {:induction false} ProbedIsSelect(p: Prefix, exclusions: seq<Prefix>, n: nat)
    requires Valid(p) && p.P4? && AllValid(exclusions)
    ensures ProbedUpTo(p, exclusions, n) == Select(First(p), n, (a: nat) => Probed(p, exclusions, a))
  {
    if n > 0 {
      ProbedIsSelect(p, exclusions, n - 1);
    }
  }

  /** A prefix contributes each of its probed addresses once. */
  lemma ProbedOnce(p: Prefix, exclusions: seq<Prefix>, n: nat, a: nat)
    requires Valid(p) && p.P4? && AllValid(exclusions)
    ensures Count(ProbedUpTo(p, exclusions, n), a) ==
            if First(p) <= a < First(p) + n && Probed(p, exclusions, a) then 1 else 0
  {
    ProbedIsSelect(p, exclusions, n);
    SelectOnce(First(p), n, (x: nat) => Probed(p, exclusions, x), a);
  }

  ghost predicate AscendsTo(r: seq<nat>, end: nat) {
    (forall i :: 0 <= i < |r| ==> r[i] < end) && forall i, j :: 0 <= i < j < |r| ==> r[i] < r[j]
  }

  lemma AscendsMore(r: seq<nat>, end: nat)
    requires AscendsTo(r, end)
    ensures AscendsTo(r, end + 1) && AscendsTo(r + [end], end + 1)
  {
  }

  lemma {:induction false} SelectAscending(first: nat, n: nat, keep: nat -> bool)
    ensures AscendsTo(Select(first, n, keep), first + n)
  {
    if n > 0 {
      SelectAscending(first, n - 1, keep);
      AscendsMore(Select(first, n - 1, keep), first + n - 1);
    }
  }

  /** A prefix contributes its addresses in ascending order. */
  lemma ProbedAscending(p: Prefix, exclusions: seq<Prefix>, n: nat)
    requires Valid(p) && p.P4? && AllValid(exclusions)
    ensures var r := ProbedUpTo(p, exclusions, n);
            forall i, j :: 0 <= i < j < |r| ==> r[i] < r[j]
  {
    ProbedIsSelect(p, exclusions, n);
    SelectAscending(First(p), n, (x: nat) => Probed(p, exclusions, x));
  }

  lemma BlockProbedOnce(p: Prefix, exclusions: seq<Prefix>, a: nat)
    requires Valid(p) && p.P4? && AllValid(exclusions)
    ensures Count(ProbedUpTo(p, exclusions, Size(p.bits)), a) == if Probed(p, exclusions, a) then 1 else 0
  {
    ProbedOnce(p, exclusions, Size(p.bits), a);
    ContainsIsInterval(p, a);
  }

  ghost function Listing(cidrs: seq<Prefix>, a: nat): set<int>
    requires AllValid(cidrs)
  {
    set i | 0 <= i < |cidrs| && HostAddress(cidrs[i], a)
  }

  lemma ExpandMore(init: seq<Prefix>, p: Prefix, exclusions: seq<Prefix>)
    requires AllValid(init) && AllValid(init + [p]) && AllValid(exclusions) && Expand(init + [p], exclusions).Expanded?
    ensures Expand(init, exclusions).Expanded? && p.P4?
    ensures Expand(init + [p], exclusions).addrs ==
            Expand(init, exclusions).addrs + ProbedUpTo(p, exclusions, Size(p.bits))
  {
    var cidrs := init + [p];
    assert cidrs[..|cidrs| - 1] == init;
  }

  /** An address is listed once per CIDR of which it is a host address, and not at all if excluded. */
  lemma {:induction false} ListedOncePerCidr(cidrs: seq<Prefix>, exclusions: seq<Prefix>, a: nat)
    requires AllValid(cidrs) && AllValid(exclusions) && Expand(cidrs, exclusions).Expanded?
    ensures Count(Expand(cidrs, exclusions).addrs, a) == if Excluded(a, exclusions) then 0 else |Listing(cidrs, a)|
  {
    if cidrs == [] {
      assert Listing(cidrs, a) == {};
    } else {
      var init, p := cidrs[..|cidrs| - 1], cidrs[|cidrs| - 1];
      assert cidrs == init + [p];
      ExpandMore(init, p, exclusions);
      ListedOncePerCidr(init, exclusions, a);
      BlockProbedOnce(p, exclusions, a);
      ListingMore(init, p, a);
      CountConcat(Expand(init, exclusions).addrs, ProbedUpTo(p, exclusions, Size(p.bits)), a);
    }
  }

  lemma CountConcat(s: seq<nat>, t: seq<nat>, a: nat)
    ensures Count(s + t, a) == Count(s, a) + Count(t, a)
  {
  }

  lemma ListingMore(init: seq<Prefix>, p: Prefix, a: nat)
    requires AllValid(init) && AllValid(init + [p]) && Valid(p)
    ensures |Listing(init + [p], a)| == |Listing(init, a)| + if HostAddress(p, a) then 1 else 0
  {
    var cidrs, before := init + [p], Listing(init, a);
    assert cidrs[|init|] == p && forall i :: 0 <= i < |init| ==> cidrs[i] == init[i];
    assert Listing(cidrs, a) == if HostAddress(p, a) then before + {|init|} else before;
  }

  lemma {:induction false} HostsAmong(p: Prefix, exclusions: seq<Prefix>, n: nat)
    requires Valid(p) && p.P4? && AllValid(exclusions) && n <= Size(p.bits)
    ensures |ProbedUpTo(p, exclusions, n)| + ExcludedUpTo(p, exclusions, n) ==
            if p.bits > 30 then n else if n == 0 then 0 else if n < Size(p.bits) then n - 1 else n - 2
  {
    if n > 0 {
      HostsAmong(p, exclusions, n - 1);
      HostAddressAt(p, n - 1);
      if p.bits <= 30 { AtLeastFour(p.bits); }
    }
  }

  lemma HostAddressAt(p: Prefix, n: nat)
    requires Valid(p) && p.P4? && n < Size(p.bits)
    ensures HostAddress(p, First(p) + n) <==> p.bits > 30 || (n != 0 && n != Size(p.bits) - 1)
  {
    ContainsIsInterval(p, First(p) + n);
  }

  lemma AtLeastFour(bits: nat)
    requires bits <= 30
    ensures Size(bits) >= 4
  {
    Pow2Monotone(2, 32 - bits);
    assert Pow2(2) == 4;
  }

  function HostTotal(cidrs: seq<Prefix>): (r: int)
    requires AllValid(cidrs)
  {
    if cidrs == [] then 0
    else HostTotal(cidrs[..|cidrs| - 1]) + if cidrs[|cidrs| - 1].P4? then HostCount(cidrs[|cidrs| - 1].bits) else 0
  }

  /** Kept and excluded addresses together are all host addresses of the scope. */
  lemma {:induction false} KeptPlusExcluded(cidrs: seq<Prefix>, exclusions: seq<Prefix>)
    requires AllValid(cidrs) && AllValid(exclusions) && Expand(cidrs, exclusions).Expanded?
    ensures var r := Expand(cidrs, exclusions); |r.addrs| + r.excluded == HostTotal(cidrs)
  {
    if cidrs != [] {
      var p := cidrs[|cidrs| - 1];
      KeptPlusExcluded(cidrs[..|cidrs| - 1], exclusions);
      HostsAmong(p, exclusions, Size(p.bits));
      if p.bits <= 30 {
        Pow2Monotone(2, 32 - p.bits);
        assert Pow2(2) == 4;
      }
    }
  }

  // ----- Scope enforcement -----

  /** Masking changes the written address of a prefix, not its block. */
  lemma MaskKeepsBlock(p: Prefix, a: nat)
    requires Valid(p)
    ensures Contains(Masked(p), a) <==> Contains(p, a)
  {
    if p.P4? {
      var size := Size(p.bits);
      BlockStart(p.addr, size);
      QuotientUnique(First(p), size, p.addr / size);
    }
  }

  ghost predicate InScope(configured: seq<Prefix>, a: nat)
    requires AllValid(configured)
  {
    exists i :: 0 <= i < |configured| && Contains(configured[i], a)
  }

  datatype Answer = Refused | Swept(expansion: Expansion)

  /** handleSweep up to the probes: parameters are masked, checked against the configured networks
      when there are any, and expanded. Every address handed to a prober lies in the scope. */
  method HandleSweep(configured: seq<Prefix>, requested: seq<Prefix>, exclusions: seq<Prefix>) returns (r: Answer)
    requires AllValid(configured) && AllValid(requested) && AllValid(exclusions)
    ensures r.Refused? <==> configured != [] && exists i :: 0 <= i < |requested| && !Allowed(configured, Masked(requested[i]))
    ensures r.Swept? ==> r.expansion == Expand(AllMasked(requested), exclusions)
    ensures r.Swept? && r.expansion.Expanded? && configured != [] ==>
              forall a :: a in r.expansion.addrs ==> InScope(configured, a)
  {
    var cidrs: seq<Prefix> := [];
    for n := 0 to |requested|
      invariant cidrs == AllMasked(requested[..n]) && AllValid(cidrs)
    {
      cidrs := cidrs + [Masked(requested[n])];
      assert requested[..n + 1][..n] == requested[..n];
    }
    assert requested[..|requested|] == requested;
    MaskedAt(requested);
    if |configured| > 0 {
      for n := 0 to |cidrs|
        invariant forall i :: 0 <= i < n ==> Allowed(configured, cidrs[i])
      {
        var within := PrefixWithinAny(cidrs[n], configured);
        if !within {
          return Refused;
        }
      }
    }
    var expansion := ExpandCIDRs(cidrs, exclusions);
    if configured != [] && expansion.Expanded? {
      forall a | a in expansion.addrs ensures InScope(configured, a) {
        ProbedInScope(configured, cidrs, exclusions, a);
      }
    }
    return Swept(expansion);
  }

  ghost predicate Allowed(configured: seq<Prefix>, p: Prefix)
    requires AllValid(configured) && Valid(p)
  {
    p.P4? && exists i :: 0 <= i < |configured| && Within(p, configured[i])
  }

  function AllMasked(ps: seq<Prefix>): (r: seq<Prefix>)
    requires AllValid(ps)
    ensures |r| == |ps| && AllValid(r)
  {
    if ps == [] then [] else AllMasked(ps[..|ps| - 1]) + [Masked(ps[|ps| - 1])]
  }

  lemma {:induction false} MaskedAt(ps: seq<Prefix>)
    requires AllValid(ps)
    ensures forall i :: 0 <= i < |ps| ==> AllMasked(ps)[i] == Masked(ps[i])
  {
    if ps != [] {
      MaskedAt(ps[..|ps| - 1]);
    }
  }

  lemma ProbedInScope(configured: seq<Prefix>, cidrs: seq<Prefix>, exclusions: seq<Prefix>, a: nat)
    requires AllValid(configured) && AllValid(cidrs) && AllValid(exclusions)
    requires forall i :: 0 <= i < |cidrs| ==> Allowed(configured, cidrs[i])
    requires Expand(cidrs, exclusions).Expanded? && a in Expand(cidrs, exclusions).addrs
    ensures InScope(configured, a)
  {
    ListedOncePerCidr(cidrs, exclusions, a);
    assert Listing(cidrs, a) != {};
    var i :| i in Listing(cidrs, a);
    var j :| 0 <= j < |configured| && Within(cidrs[i], configured[j]);
    assert Contains(configured[j], a);
  }
}
