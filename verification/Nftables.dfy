// The nftables table the firewall plugin builds: chains of rules, the commands that build them, and
// what the kernel does with a packet.
module Nftables {
  import opened Basics
  import opened FirewallConfig

  datatype Hook = Input | Forward | Output

  // The chain "input_lan" is ZoneChain(Input, "lan"): chain names are an injective encoding.
  datatype Chain = BaseChain(hook: Hook) | ZoneChain(hook: Hook, zone: string) | Prerouting | Postrouting

  datatype Match =
    | IifName(name: string)
    | OifName(name: string)
    | L4Proto(proto: string)
    | DPort(ports: Ports)
    | SPort(ports: Ports)
    | DAddr(ip: nat)
    | CtEstablished

  datatype Action = Verdict(policy: Policy) | Jump(chain: Chain) | Dnat(ip: nat, port: Ports) | Masquerade

  datatype NftRule = NftRule(matches: seq<Match>, log: Option<nat>, action: Action)

  type Table = map<Chain, seq<NftRule>>

  datatype Packet = Packet(iif: string, oif: string, proto: string, sport: nat, dport: nat, saddr: nat, daddr: nat,
                           established: bool)

  // ----- evaluation -----

  predicate InPorts(port: nat, ports: Ports) {
    ports.PortRange? ==> ports.lo <= port <= ports.hi
  }

  predicate Satisfies(p: Packet, m: Match) {
    match m
    case IifName(n) => p.iif == n
    case OifName(n) => p.oif == n
    case L4Proto(proto) => p.proto == proto
    case DPort(ports) => InPorts(p.dport, ports)
    case SPort(ports) => InPorts(p.sport, ports)
    case DAddr(ip) => p.daddr == ip
    case CtEstablished => p.established
  }

  predicate Matches(r: NftRule, p: Packet) {
    forall m <- r.matches :: Satisfies(p, m)
  }

  // Decided by a rule, or the end of the chain is reached; with the NFLOG groups written on the way.
  datatype Fate = Decided(policy: Policy, logs: seq<nat>) | Falls(logs: seq<nat>)

  function LogOf(r: NftRule): seq<nat> {
    if r.log.Some? then [r.log.value] else []
  }

  function AfterLogs(logs: seq<nat>, f: Fate): Fate {
    f.(logs := logs + f.logs)
  }

  const JUMP_STACK := 16

  // Rules in order; a jump whose chain decides nothing returns; the jump stack is bounded.
  function Walk(t: Table, rules: seq<NftRule>, p: Packet, depth: nat): Fate
    decreases depth, |rules|
  {
    if rules == [] then Falls([])
    else
      var r, rest := rules[0], rules[1..];
      if !Matches(r, p) then Walk(t, rest, p, depth)
      else
        match r.action
        case Verdict(policy) => Decided(policy, LogOf(r))
        case Jump(c) =>
          if depth == 0 || c !in t then Decided(Drop, LogOf(r))
          else
            var inner := AfterLogs(LogOf(r), Walk(t, t[c], p, depth - 1));
            if inner.Decided? then inner else AfterLogs(inner.logs, Walk(t, rest, p, depth))
        case _ => Decided(Accept, LogOf(r))
  }

  // Base chains accept what no rule decides; a hook without a chain accepts everything.
  function Treat(t: Table, hook: Hook, p: Packet): Fate {
    if BaseChain(hook) in t then
      var f := Walk(t, t[BaseChain(hook)], p, JUMP_STACK);
      if f.Decided? then f else Decided(Accept, f.logs)
    else
      Decided(Accept, [])
  }

  // ----- logging aside -----

  ghost predicate SameButLogs(a: NftRule, b: NftRule) {
    a.matches == b.matches && a.action == b.action
  }

  ghost predicate ChainsSameButLogs(a: seq<NftRule>, b: seq<NftRule>) {
    |a| == |b| && forall i | 0 <= i < |a| :: SameButLogs(a[i], b[i])
  }

  ghost predicate TablesSameButLogs(a: Table, b: Table) {
    a.Keys == b.Keys && forall c <- a :: ChainsSameButLogs(a[c], b[c])
  }

  ghost predicate SameDecision(f: Fate, g: Fate) {
    f.Decided? == g.Decided? && (f.Decided? ==> f.policy == g.policy)
  }

  // Rules that log differently decide alike.
  lemma {:induction false} WalkIgnoresLogs(a: Table, b: Table, ra: seq<NftRule>, rb: seq<NftRule>, p: Packet, depth: nat)
    requires TablesSameButLogs(a, b) && ChainsSameButLogs(ra, rb)
    ensures SameDecision(Walk(a, ra, p, depth), Walk(b, rb, p, depth))
    decreases depth, |ra|
  {
    if ra != [] {
      assert SameButLogs(ra[0], rb[0]);
      forall i | 0 <= i < |ra| - 1 ensures SameButLogs(ra[1..][i], rb[1..][i]) {
        assert SameButLogs(ra[i + 1], rb[i + 1]);
      }
      WalkIgnoresLogs(a, b, ra[1..], rb[1..], p, depth);
      if ra[0].action.Jump? && depth > 0 && ra[0].action.chain in a {
        var c := ra[0].action.chain;
        WalkIgnoresLogs(a, b, a[c], b[c], p, depth - 1);
      }
    }
  }

  lemma TreatIgnoresLogs(a: Table, b: Table, hook: Hook, p: Packet)
    requires TablesSameButLogs(a, b)
    ensures Treat(a, hook, p).policy == Treat(b, hook, p).policy
  {
    if BaseChain(hook) in a {
      WalkIgnoresLogs(a, b, a[BaseChain(hook)], b[BaseChain(hook)], p, JUMP_STACK);
    }
  }

  // ----- evaluating parts of a chain -----

  // Rules that do not match may be skipped.
  lemma {:induction false} WalkSkips(t: Table, pre: seq<NftRule>, rest: seq<NftRule>, p: Packet, depth: nat)
    requires forall r <- pre :: !Matches(r, p)
    ensures Walk(t, pre + rest, p, depth) == Walk(t, rest, p, depth)
    decreases |pre|
  {
    if pre == [] {
      assert pre + rest == rest;
    } else {
      assert (pre + rest)[1..] == pre[1..] + rest && (pre + rest)[0] == pre[0];
      WalkSkips(t, pre[1..], rest, p, depth);
    }
  }

  // The first rule that matches with a verdict decides.
  lemma WalkDecides(t: Table, rules: seq<NftRule>, i: nat, p: Packet, depth: nat)
    requires i < |rules| && rules[i].action.Verdict? && Matches(rules[i], p)
    requires forall j | 0 <= j < i :: !Matches(rules[j], p)
    ensures Walk(t, rules, p, depth) == Decided(rules[i].action.policy, LogOf(rules[i]))
  {
    assert rules == rules[..i] + rules[i..];
    WalkSkips(t, rules[..i], rules[i..], p, depth);
  }

  // The first rule that matches jumps into a chain that decides.
  lemma WalkJumps(t: Table, rules: seq<NftRule>, i: nat, p: Packet, depth: nat)
    requires i < |rules| && rules[i].action.Jump? && rules[i].log == None && Matches(rules[i], p)
    requires forall j | 0 <= j < i :: !Matches(rules[j], p)
    requires depth > 0 && rules[i].action.chain in t
    requires Walk(t, t[rules[i].action.chain], p, depth - 1).Decided?
    ensures Walk(t, rules, p, depth) == Walk(t, t[rules[i].action.chain], p, depth - 1)
  {
    assert rules == rules[..i] + rules[i..];
    WalkSkips(t, rules[..i], rules[i..], p, depth);
    var inner := Walk(t, t[rules[i].action.chain], p, depth - 1);
    assert [] + inner.logs == inner.logs;
  }

  // A jump into a chain that decides nothing goes on behind the jump.
  lemma WalkReturns(t: Table, rules: seq<NftRule>, i: nat, p: Packet, depth: nat)
    requires i < |rules| && rules[i].action.Jump? && rules[i].log == None && Matches(rules[i], p)
    requires forall j | 0 <= j < i :: !Matches(rules[j], p)
    requires depth > 0 && rules[i].action.chain in t
    requires Walk(t, t[rules[i].action.chain], p, depth - 1) == Falls([])
    ensures Walk(t, rules, p, depth) == Walk(t, rules[i + 1..], p, depth)
  {
    assert rules == rules[..i] + rules[i..] && rules[i..][1..] == rules[i + 1..];
    WalkSkips(t, rules[..i], rules[i..], p, depth);
    var rest := Walk(t, rules[i + 1..], p, depth);
    assert [] + rest.logs == rest.logs;
  }

  lemma WalkFalls(t: Table, rules: seq<NftRule>, p: Packet, depth: nat)
    requires forall r <- rules :: !Matches(r, p)
    ensures Walk(t, rules, p, depth) == Falls([])
  {
    assert rules + [] == rules;
    WalkSkips(t, rules, [], p, depth);
  }

  // ----- building -----

  // The nft command.  It refuses a rule for a chain that does not exist; unless reliable, it may
  // refuse anything else too.
  class Nft {
    var table: Option<Table>
    const reliable: bool

    constructor (reliable: bool)
      ensures table == None && this.reliable == reliable
    {
      table := None;
      this.reliable := reliable;
    }

    method Refuses() returns (refused: bool)
      ensures reliable ==> !refused
    {
      if reliable {
        refused := false;
      } else {
        refused := *;
      }
    }

    method TableExists() returns (found: bool)
      ensures found == table.Some?
    {
      found := table.Some?;
    }

    method DeleteTable()
      modifies this`table
      ensures table == None
    {
      table := None;
    }

    method AddTable() returns (ok: bool)
      modifies this`table
      ensures table == if ok && old(table) == None then Some(map[]) else old(table)
      ensures reliable ==> ok
    {
      var refused := Refuses();
      ok := !refused;
      if ok && table.None? { table := Some(map[]); }
    }

    // Adding a chain that exists changes nothing.
    method AddChain(c: Chain) returns (ok: bool)
      modifies this`table
      ensures ok ==> old(table).Some? && table == Some(WithChain(old(table).value, c))
      ensures !ok ==> table == old(table)
      ensures reliable && old(table).Some? ==> ok
    {
      var refused := Refuses();
      ok := !refused && table.Some?;
      if ok { table := Some(WithChain(table.value, c)); }
    }

    method AddRule(c: Chain, r: NftRule) returns (ok: bool)
      modifies this`table
      ensures ok ==> old(table).Some? && c in old(table).value && table == Some(WithRule(old(table).value, c, r))
      ensures !ok ==> table == old(table)
      ensures reliable ==> (ok <==> old(table).Some? && c in old(table).value)
    {
      var refused := Refuses();
      ok := !refused && table.Some? && c in table.value;
      if ok { table := Some(WithRule(table.value, c, r)); }
    }
  }

  function WithChain(t: Table, c: Chain): Table {
    if c in t then t else t[c := []]
  }

  function WithRule(t: Table, c: Chain, r: NftRule): Table
    requires c in t
  {
    t[c := t[c] + [r]]
  }
}
