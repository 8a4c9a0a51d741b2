// Validating DHCP pools (plugins/core/dnsmasq/types.go, dnsmasq_config.go).
module Dhcp {

  // A pool hands out the host numbers start, ..., start + limit - 1.  The flags say whether the parts
  // not modelled pass: DNS servers and domain in the first validator, lease time and DNS servers in
  // the second; likewise for the static leases.
  datatype Pool = Pool(iface: string, start: int, limit: int, namesFine: bool, formatsFine: bool)

  datatype Config = Config(enabled: bool, pools: map<string, Pool>, leasesValid: bool, leasesWellFormed: bool)

  const MAX_LIMIT := 65536
  const LAST_HOST := 255

  // ----- the first validator -----

  predicate ValidPool(p: Pool) {
    p.start > 0 && 0 < p.limit <= MAX_LIMIT && p.iface != "" && p.namesFine
  }

  function Range(p: Pool): set<int> {
    Interval(p.start, p.limit)
  }

  predicate Within(h: int, lo: int, n: int) {
    lo <= h < lo + n
  }

  function Interval(lo: int, n: int): set<int> {
    set h | lo <= h < lo + n && Within(h, lo, n)
  }

  ghost predicate DisjointPools(pools: map<string, Pool>) {
    forall m, n | m in pools && n in pools && m != n && pools[m].iface == pools[n].iface ::
      Range(pools[m]) !! Range(pools[n])
  }

  // The arithmetic comparison of two ranges.
  predicate Overlap(p: Pool, q: Pool) {
    p.start <= q.start + q.limit - 1 && q.start <= p.start + p.limit - 1
  }

  // The comparison is exact for pools with addresses; an empty pool meets no other, whatever it says.
  lemma OverlapIsExact(p: Pool, q: Pool)
    ensures !(Range(p) !! Range(q)) <==> p.limit > 0 && q.limit > 0 && Overlap(p, q)
  {
    if p.limit > 0 && q.limit > 0 && Overlap(p, q) {
      var h := if p.start >= q.start then p.start else q.start;
      assert h in Range(p) && h in Range(q);
    }
  }

  // Errors are collected, not returned at the first: there are none exactly for a valid configuration.
  method Validate(c: Config) returns (errors: nat)
    ensures errors == 0 <==>
              && (forall n <- c.pools :: c.pools[n].start >= 1 && 1 <= c.pools[n].limit <= 65536 &&
                                         c.pools[n].iface != "" && c.pools[n].namesFine)
              && DisjointPools(c.pools) && c.leasesValid
  {
    errors := 0;
    var todo := c.pools.Keys;
    while todo != {}
      invariant todo <= c.pools.Keys
      invariant errors == 0 <==> forall n <- c.pools.Keys - todo :: ValidPool(c.pools[n])
      decreases todo
    {
      var n :| n in todo;
      if !ValidPool(c.pools[n]) { errors := errors + 1; }
      todo := todo - {n};
    }
    var overlaps := CountOverlaps(c.pools);
    if errors == 0 { NoOverlapIsDisjoint(c.pools); }
    assert forall n <- c.pools :: ValidPool(c.pools[n]) <==>
                                    c.pools[n].start >= 1 && 1 <= c.pools[n].limit <= 65536 && c.pools[n].iface != "" && c.pools[n].namesFine;
    errors := errors + overlaps + if c.leasesValid then 0 else 1;
  }

  ghost predicate Clash(pools: map<string, Pool>, m: string, n: string)
    requires m in pools && n in pools
  {
    m != n && pools[m].iface == pools[n].iface && Overlap(pools[m], pools[n])
  }

  lemma NoOverlapIsDisjoint(pools: map<string, Pool>)
    requires forall n <- pools :: ValidPool(pools[n])
    ensures (forall m, n | m in pools && n in pools :: !Clash(pools, m, n)) <==> DisjointPools(pools)
  {
    forall m, n | m in pools && n in pools && m != n && pools[m].iface == pools[n].iface
      ensures Clash(pools, m, n) <==> !(Range(pools[m]) !! Range(pools[n]))
    {
      OverlapIsExact(pools[m], pools[n]);
    }
  }

  // Every pair is looked at in both orders.
  method CountOverlaps(pools: map<string, Pool>) returns (errors: nat)
    ensures errors == 0 <==> forall m, n | m in pools && n in pools :: !Clash(pools, m, n)
  {
    errors := 0;
    var todo := pools.Keys;
    while todo != {}
      invariant todo <= pools.Keys
      invariant errors == 0 <==> forall m, n | m in pools.Keys - todo && n in pools :: !Clash(pools, m, n)
      decreases todo
    {
      var m :| m in todo;
      var clashes := CountClashes(pools, m);
      errors, todo := errors + clashes, todo - {m};
    }
  }

  method CountClashes(pools: map<string, Pool>, m: string) returns (errors: nat)
    requires m in pools
    ensures errors == 0 <==> forall n <- pools :: !Clash(pools, m, n)
  {
    errors := 0;
    var rest := pools.Keys;
    while rest != {}
      invariant rest <= pools.Keys
      invariant errors == 0 <==> forall n <- pools.Keys - rest :: !Clash(pools, m, n)
      decreases rest
    {
      var n :| n in rest;
      rest := rest - {n};
      assert Clash(pools, m, n) <==> m != n && pools[m].iface == pools[n].iface && Overlap(pools[m], pools[n]);
      if m == n { continue; }
      if pools[m].iface != pools[n].iface { continue; }
      if pools[m].start <= pools[n].start + pools[n].limit - 1 && pools[n].start <= pools[m].start + pools[m].limit - 1 {
        errors := errors + 1;
      }
    }
  }

  // ----- the second validator -----

  predicate InRange(p: Pool) {
    && p.iface != "" && 0 <= p.start <= LAST_HOST && 1 <= p.limit <= LAST_HOST && p.start + p.limit <= LAST_HOST && p.formatsFine
  }

  method ValidateDHCPConfig(c: Config) returns (ok: bool)
    ensures ok <==>
              && (c.enabled ==> c.pools != map[])
              && (forall n <- c.pools ::
                    && c.pools[n].iface != "" && c.pools[n].formatsFine
                    && 0 <= c.pools[n].start <= 254 && 1 <= c.pools[n].limit <= 255 - c.pools[n].start)
              && c.leasesWellFormed
    ensures ok <==> (c.enabled ==> c.pools != map[]) && (forall n <- c.pools :: InRange(c.pools[n])) && c.leasesWellFormed
  {
    if c.enabled && |c.pools| == 0 { return false; }
    var todo := c.pools.Keys;
    while todo != {}
      invariant todo <= c.pools.Keys
      invariant forall n <- c.pools.Keys - todo :: InRange(c.pools[n])
      decreases todo
    {
      var n :| n in todo;
      var p := c.pools[n];
      if p.iface == "" { return false; }
      if p.start < 0 || p.start > LAST_HOST { return false; }
      if p.limit < 1 || p.limit > LAST_HOST { return false; }
      if p.start + p.limit > LAST_HOST { return false; }
      if !p.formatsFine { return false; }
      todo := todo - {n};
    }
    ok := c.leasesWellFormed;
  }

  // ----- what both together promise -----

  ghost predicate Accepted(pools: map<string, Pool>) {
    && (forall n <- pools :: ValidPool(pools[n]) && InRange(pools[n]))
    && DisjointPools(pools)
  }

  // The leases the pools of one interface may hand out.
  ghost function Leases(pools: map<string, Pool>, iface: string, names: set<string>): int
    requires names <= pools.Keys
    decreases names
  {
    if names == {} then 0
    else
      var n :| n in names;
      (if pools[n].iface == iface then pools[n].limit else 0) + Leases(pools, iface, names - {n})
  }

  ghost function HostsOf(pools: map<string, Pool>, iface: string, names: set<string>): set<int>
    requires names <= pools.Keys
  {
    set n, h | n in names && pools[n].iface == iface && h in Range(pools[n]) :: h
  }

  lemma {:induction false} IntervalSize(lo: int, n: nat)
    ensures |Interval(lo, n)| == n
  {
    if n == 0 {
      assert Interval(lo, n) == {};
    } else {
      IntervalSize(lo, n - 1);
      assert Interval(lo, n) == Interval(lo, n - 1) + {lo + n - 1};
    }
  }

  ghost predicate ApartOn(pools: map<string, Pool>, iface: string, names: set<string>)
    requires names <= pools.Keys
  {
    forall m, n | m in names && n in names && m != n && pools[m].iface == iface == pools[n].iface ::
      Range(pools[m]) !! Range(pools[n])
  }

  // Adding a pool adds its hosts; it is apart from the others if none was promised before.
  lemma HostsOfOneMore(pools: map<string, Pool>, iface: string, names: set<string>, n: string)
    requires names <= pools.Keys && n in names && pools[n].iface == iface
    ensures var rest := HostsOf(pools, iface, names - {n});
            && HostsOf(pools, iface, names) == Range(pools[n]) + rest
            && (ApartOn(pools, iface, names) <==> ApartOn(pools, iface, names - {n}) && Range(pools[n]) !! rest)
  {
    var rest := HostsOf(pools, iface, names - {n});
    if ApartOn(pools, iface, names) {
      forall h | h in rest ensures h !in Range(pools[n]) {
        var m :| m in names - {n} && pools[m].iface == iface && h in Range(pools[m]);
        assert Range(pools[m]) !! Range(pools[n]);
      }
    }
    if Range(pools[n]) !! rest {
      forall m | m in names - {n} && pools[m].iface == iface ensures Range(pools[m]) <= rest {}
    }
  }

  lemma HostsOfOthers(pools: map<string, Pool>, iface: string, names: set<string>, n: string)
    requires names <= pools.Keys && n in names && pools[n].iface != iface
    ensures HostsOf(pools, iface, names) == HostsOf(pools, iface, names - {n})
    ensures ApartOn(pools, iface, names) <==> ApartOn(pools, iface, names - {n})
  {
  }

  lemma SizeOfUnion<T>(x: set<T>, y: set<T>)
    ensures |x + y| <= |x| + |y|
    ensures |x + y| == |x| + |y| <==> x !! y
  {
    assert x + y == x + (y - x);
    assert y == (y - x) + (x * y);
    assert |y| == |y - x| + |x * y|;
    assert |x + y| == |x| + |y - x|;
    assert x * y == {} <==> x !! y;
  }

  // There are never fewer leases than hosts, and as many, so that no host is promised twice, if and
  // only if the pools of the interface are apart.
  lemma {:induction false} LeasesAreHosts(pools: map<string, Pool>, iface: string, names: set<string>)
    requires names <= pools.Keys && forall n <- names :: pools[n].limit >= 0
    ensures Leases(pools, iface, names) >= |HostsOf(pools, iface, names)|
    ensures Leases(pools, iface, names) == |HostsOf(pools, iface, names)| <==> ApartOn(pools, iface, names)
    decreases names
  {
    if names != {} {
      var n :| n in names && Leases(pools, iface, names) ==
                 (if pools[n].iface == iface then pools[n].limit else 0) + Leases(pools, iface, names - {n});
      LeasesAreHosts(pools, iface, names - {n});
      if pools[n].iface == iface {
        HostsOfOneMore(pools, iface, names, n);
        IntervalSize(pools[n].start, pools[n].limit);
        SizeOfUnion(Range(pools[n]), HostsOf(pools, iface, names - {n}));
      } else {
        HostsOfOthers(pools, iface, names, n);
      }
    } else {
      assert HostsOf(pools, iface, names) == {};
    }
  }

  // One interface cannot promise more than the 254 hosts of its network.
  lemma PoolsCannotOverAllocate(pools: map<string, Pool>, iface: string)
    requires Accepted(pools)
    ensures Leases(pools, iface, pools.Keys) <= 254
  {
    LeasesAreHosts(pools, iface, pools.Keys);
    var hosts := HostsOf(pools, iface, pools.Keys);
    assert hosts <= Interval(1, 254);
    IntervalSize(1, 254);
    SubsetIsNoLarger(hosts, Interval(1, 254));
  }

  lemma SubsetIsNoLarger<T>(x: set<T>, y: set<T>)
    requires x <= y
    ensures |x| <= |y|
  {
    assert y == x + (y - x);
  }

  // The second validator alone lets one interface promise twice what its network holds: its pools are
  // not apart.
  lemma SecondValidatorAloneOverAllocates()
    ensures var pools := map["a" := Pool("lan", 1, 254, true, true), "b" := Pool("lan", 1, 254, true, true)];
            (forall n <- pools :: InRange(pools[n])) && Leases(pools, "lan", pools.Keys) == 508
  {
    var pools := map["a" := Pool("lan", 1, 254, true, true), "b" := Pool("lan", 1, 254, true, true)];
    assert Leases(pools, "lan", {"a"}) == 254 + Leases(pools, "lan", {"a"} - {"a"});
    assert Leases(pools, "lan", {"b"}) == 254 + Leases(pools, "lan", {"b"} - {"b"});
    assert pools.Keys - {"a"} == {"b"} && pools.Keys - {"b"} == {"a"} && "a" in pools.Keys;
  }
}
