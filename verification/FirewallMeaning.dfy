// The compiled table means what the zone configuration says.
module FirewallMeaning {
  import opened Basics
  import opened FirewallConfig
  import opened Nftables
  import opened FirewallRules

  // ----- what the configuration says -----

  // The packets a custom rule is about, as far as its addresses are ignored.
  predicate Applies(r: Rule, p: Packet) {
    if IsEstablishedRule(r.name) then p.established
    else (r.proto.Some? ==> p.proto == r.proto.value) && InPorts(p.dport, r.destPort) && InPorts(p.sport, r.srcPort)
  }

  // The decision logged once, in the group of that decision, or not at all.
  function Logged(c: Config, policy: Policy): Fate {
    Decided(policy, if ShouldLog(policy, c.logging) then [NflogGroup(policy)] else [])
  }

  ghost predicate InZone(c: Config, z: string, p: Packet) {
    z in c.zones && p.iif in c.zones[z].interfaces
  }

  ghost predicate Unzoned(c: Config, p: Packet) {
    forall z <- c.zones :: p.iif !in c.zones[z].interfaces
  }

  // Rule i is the first rule for zone z that applies.
  ghost predicate FirstRule(rules: seq<Rule>, z: string, p: Packet, i: nat) {
    && i < |rules| && rules[i].src == z && Applies(rules[i], p)
    && forall j | 0 <= j < i :: !(rules[j].src == z && Applies(rules[j], p))
  }

  ghost predicate NoRule(rules: seq<Rule>, z: string, p: Packet) {
    forall r <- rules :: !(r.src == z && Applies(r, p))
  }

  // An input packet gets the target of the first applying rule of its zone, else the zone's policy.
  ghost predicate InputDecision(c: Config, z: string, p: Packet, policy: Policy) {
    && z in c.zones
    && ((exists i: nat :: FirstRule(c.rules, z, p, i) && c.rules[i].target == Some(policy))
        || (NoRule(c.rules, z, p) && c.zones[z].input == Some(policy)))
  }

  ghost predicate ForwardsFrom(c: Config, z: string) {
    exists f <- c.forwardings :: f.src == z
  }

  // A forwarded packet of a connection not yet established is accepted if the zone forwards
  // anywhere, else gets the zone's forward policy.
  ghost function ForwardDecision(c: Config, z: string): Policy
    requires z in c.zones && c.zones[z].forward.Some?
  {
    if ForwardsFrom(c, z) then Accept else c.zones[z].forward.value
  }

  // ----- matching -----

  predicate AllSatisfied(p: Packet, ms: seq<Match>) {
    forall m <- ms :: Satisfies(p, m)
  }

  lemma AllSatisfiedConcat(p: Packet, a: seq<Match>, b: seq<Match>)
    ensures AllSatisfied(p, a + b) == (AllSatisfied(p, a) && AllSatisfied(p, b))
  {
    forall m ensures m in a + b <==> m in a || m in b {}
  }

  // A generated rule named after established connections matches by connection state alone, every
  // other one by protocol and ports alone; and its decision is that of the written rule.
  lemma GeneratedMatches(r: Rule, l: LoggingConfig, p: Packet)
    requires r.target.Some?
    ensures Matches(GenerateCustomRule(r, l), p) == Applies(r, p)
    ensures r.name == "Allow-Established-Related" || "Allow-Established-Related-" <= r.name ==>
              (Matches(GenerateCustomRule(r, l), p) <==> p.established)
    ensures r.name != "Allow-Established-Related" && !("Allow-Established-Related-" <= r.name) ==>
              (Matches(GenerateCustomRule(r, l), p) <==>
               && (r.proto.Some? ==> p.proto == r.proto.value)
               && (r.destPort.PortRange? ==> r.destPort.lo <= p.dport <= r.destPort.hi)
               && (r.srcPort.PortRange? ==> r.srcPort.lo <= p.sport <= r.srcPort.hi))
    ensures GenerateCustomRule(r, l).action == Nftables.Action.Verdict(r.target.value)
  {
    assert ESTABLISHED_NAME + "-" == "Allow-Established-Related-";
    var g := GenerateCustomRule(r, l);
    assert Matches(g, p) == AllSatisfied(p, g.matches);
    if IsEstablishedRule(r.name) {
      assert CtEstablished in g.matches;
    } else {
      var a, b, d := ProtoMatch(r.proto), PortMatch(r.destPort, DPort(r.destPort)), PortMatch(r.srcPort, SPort(r.srcPort));
      AllSatisfiedConcat(p, a + b, d);
      AllSatisfiedConcat(p, a, b);
      if r.proto.Some? { assert a[0] in a; }
      if r.destPort.PortRange? { assert b[0] in b; }
      if r.srcPort.PortRange? { assert d[0] in d; }
    }
  }

  lemma {:induction false} CustomRulesMiss(rules: seq<Rule>, z: string, l: LoggingConfig, p: Packet)
    requires Targeted(rules) && NoRule(rules, z, p)
    ensures forall x <- CustomRules(rules, z, l) :: !Matches(x, p)
  {
    if rules != [] {
      var front, r := rules[..|rules| - 1], rules[|rules| - 1];
      CustomRulesMiss(front, z, l, p);
      if r.src == z { GeneratedMatches(r, l, p); }
    }
  }

  // The first applying rule becomes the first matching rule of the zone's chain.
  lemma {:induction false} CustomRulesHit(rules: seq<Rule>, z: string, l: LoggingConfig, p: Packet, i: nat) returns (k: nat)
    requires Targeted(rules) && FirstRule(rules, z, p, i)
    ensures k < |CustomRules(rules, z, l)| && CustomRules(rules, z, l)[k] == GenerateCustomRule(rules[i], l)
    ensures forall j | 0 <= j < k :: !Matches(CustomRules(rules, z, l)[j], p)
  {
    var front := rules[..|rules| - 1];
    if i == |rules| - 1 {
      CustomRulesMiss(front, z, l, p);
      k := |CustomRules(front, z, l)|;
      forall j | 0 <= j < k ensures !Matches(CustomRules(rules, z, l)[j], p) {
        assert CustomRules(rules, z, l)[j] == CustomRules(front, z, l)[j] && CustomRules(front, z, l)[j] in CustomRules(front, z, l);
      }
    } else {
      k := CustomRulesHit(front, z, l, p, i);
    }
  }

  // The zone's input chain decides every packet as the configuration says.
  lemma InputChainDecides(t: Table, c: Config, z: string, p: Packet, policy: Policy, depth: nat)
    requires Targeted(c.rules) && InputDecision(c, z, p, policy) && c.zones[z].input.Some?
    ensures Walk(t, CustomRules(c.rules, z, c.logging) + [PolicyRule(c.zones[z].input.value, c.logging)], p, depth) ==
            Logged(c, policy)
  {
    var custom := CustomRules(c.rules, z, c.logging);
    var rules := custom + [PolicyRule(c.zones[z].input.value, c.logging)];
    if i: nat :| FirstRule(c.rules, z, p, i) && c.rules[i].target == Some(policy) {
      var k := CustomRulesHit(c.rules, z, c.logging, p, i);
      GeneratedMatches(c.rules[i], c.logging, p);
      WalkDecides(t, rules, k, p, depth);
    } else {
      CustomRulesMiss(c.rules, z, c.logging, p);
      WalkSkips(t, custom, [PolicyRule(c.zones[z].input.value, c.logging)], p, depth);
    }
  }

  lemma AnInputDecisionExists(c: Config, z: string, p: Packet)
    requires z in c.zones && c.zones[z].input.Some? && Targeted(c.rules)
    ensures exists policy :: InputDecision(c, z, p, policy)
  {
    var n := FirstRuleBelow(c.rules, z, p, |c.rules|);
    if n == |c.rules| {
      assert c.rules[..n] == c.rules;
      assert InputDecision(c, z, p, c.zones[z].input.value);
    } else {
      assert c.rules[n] in c.rules;
      assert FirstRule(c.rules, z, p, n) && InputDecision(c, z, p, c.rules[n].target.value);
    }
  }

  lemma {:induction false} FirstRuleBelow(rules: seq<Rule>, z: string, p: Packet, n: nat) returns (i: nat)
    requires n <= |rules|
    ensures i < n ==> FirstRule(rules, z, p, i)
    ensures i >= n ==> i == n && NoRule(rules[..n], z, p)
  {
    i := 0;
    if n > 0 {
      i := FirstRuleBelow(rules, z, p, n - 1);
      if i == n - 1 && !(rules[i].src == z && Applies(rules[i], p)) {
        assert rules[..n] == rules[..n - 1] + [rules[n - 1]];
        i := n;
      } else if i == n - 1 {
        forall j | 0 <= j < i ensures !(rules[j].src == z && Applies(rules[j], p)) { assert rules[..i][j] in rules[..i]; }
      }
    }
  }

  // ----- jumps -----

  lemma {:induction false} JumpsShape(zones: map<string, Zone>, order: seq<string>, h: Hook, k: nat)
    requires k < |Jumps(zones, order, h)|
    ensures exists z, i: nat :: z in order && i < |InterfacesIn(zones, z)| &&
              Jumps(zones, order, h)[k] == NftRule([IifName(InterfacesIn(zones, z)[i])], None, Jump(ZoneChain(h, z)))
  {
    var front, z := order[..|order| - 1], order[|order| - 1];
    var before := Jumps(zones, front, h);
    if k < |before| {
      JumpsShape(zones, front, h, k);
      var y, i: nat :| y in front && i < |InterfacesIn(zones, y)| &&
                  before[k] == NftRule([IifName(InterfacesIn(zones, y)[i])], None, Jump(ZoneChain(h, y)));
      assert y in order;
    } else {
      var i := k - |before|;
      assert Jumps(zones, order, h)[k] == JumpsOf(InterfacesIn(zones, z), h, z)[i];
    }
  }

  lemma {:induction false} JumpPresent(zones: map<string, Zone>, order: seq<string>, h: Hook, z: string, i: nat) returns (k: nat)
    requires z in order && i < |InterfacesIn(zones, z)|
    ensures k < |Jumps(zones, order, h)|
    ensures Jumps(zones, order, h)[k] == NftRule([IifName(InterfacesIn(zones, z)[i])], None, Jump(ZoneChain(h, z)))
  {
    var front, y := order[..|order| - 1], order[|order| - 1];
    if y == z {
      k := |Jumps(zones, front, h)| + i;
      assert Jumps(zones, order, h)[k] == JumpsOf(InterfacesIn(zones, z), h, z)[i];
    } else {
      k := JumpPresent(zones, front, h, z, i);
    }
  }

  lemma JumpMatchesOwnZone(c: Config, order: seq<string>, h: Hook, z: string, p: Packet, k: nat)
    requires UniqueInterfaces(c.zones) && InZone(c, z, p) && Elems(order) == c.zones.Keys
    requires k < |Jumps(c.zones, order, h)| && Matches(Jumps(c.zones, order, h)[k], p)
    ensures Jumps(c.zones, order, h)[k].action == Jump(ZoneChain(h, z)) && Jumps(c.zones, order, h)[k].log == None
  {
    JumpsShape(c.zones, order, h, k);
    var y, i: nat :| y in order && i < |InterfacesIn(c.zones, y)| &&
                Jumps(c.zones, order, h)[k] == NftRule([IifName(InterfacesIn(c.zones, y)[i])], None, Jump(ZoneChain(h, y)));
    assert IifName(InterfacesIn(c.zones, y)[i]) in Jumps(c.zones, order, h)[k].matches;
    var j :| 0 <= j < |c.zones[z].interfaces| && c.zones[z].interfaces[j] == p.iif;
    assert y in Elems(order);
  }

  // Among the jumps, the first that matches a packet of zone z leads to the chain of z.
  lemma FirstJump(c: Config, order: seq<string>, h: Hook, z: string, p: Packet) returns (k: nat)
    requires UniqueInterfaces(c.zones) && InZone(c, z, p) && Elems(order) == c.zones.Keys
    ensures k < |Jumps(c.zones, order, h)| && Matches(Jumps(c.zones, order, h)[k], p)
    ensures Jumps(c.zones, order, h)[k].action == Jump(ZoneChain(h, z)) && Jumps(c.zones, order, h)[k].log == None
    ensures forall j | 0 <= j < k :: !Matches(Jumps(c.zones, order, h)[j], p)
  {
    var jumps := Jumps(c.zones, order, h);
    var i :| 0 <= i < |c.zones[z].interfaces| && c.zones[z].interfaces[i] == p.iif;
    assert z in Elems(order);
    var n := JumpPresent(c.zones, order, h, z, i);
    k := FirstMatchBelow(jumps, p, n);
    JumpMatchesOwnZone(c, order, h, z, p, k);
  }

  lemma {:induction false} FirstMatchBelow(rules: seq<NftRule>, p: Packet, n: nat) returns (k: nat)
    requires n < |rules| && Matches(rules[n], p)
    ensures k <= n && Matches(rules[k], p) && forall j | 0 <= j < k :: !Matches(rules[j], p)
  {
    k := n;
    if j :| 0 <= j < n && Matches(rules[j], p) {
      k := FirstMatchBelow(rules, p, j);
    }
  }

  lemma NoJump(c: Config, order: seq<string>, h: Hook, p: Packet)
    requires Unzoned(c, p) && Elems(order) == c.zones.Keys
    ensures forall r <- Jumps(c.zones, order, h) :: !Matches(r, p)
  {
    var jumps := Jumps(c.zones, order, h);
    forall k | 0 <= k < |jumps| ensures !Matches(jumps[k], p) {
      JumpsShape(c.zones, order, h, k);
      var y, i: nat :| y in order && i < |InterfacesIn(c.zones, y)| &&
                  jumps[k] == NftRule([IifName(InterfacesIn(c.zones, y)[i])], None, Jump(ZoneChain(h, y)));
      assert y in Elems(order);
      assert InterfacesIn(c.zones, y)[i] in c.zones[y].interfaces;
      assert IifName(InterfacesIn(c.zones, y)[i]) in jumps[k].matches;
    }
  }

  // ----- input -----

  // The first rule of zone z that applies decides, else the policy of the zone; accepts are logged in
  // group 101, everything else in group 100, where such decisions are logged.
  lemma InputInPlainTerms(t: Table, c: Config, z: string, p: Packet)
    requires IsCompilation(t, c) && UniqueInterfaces(c.zones) && z in c.zones && p.iif in c.zones[z].interfaces
    ensures forall i | 0 <= i < |c.rules| && c.rules[i].src == z && Applies(c.rules[i], p) &&
                       (forall j | 0 <= j < i && c.rules[j].src == z :: !Applies(c.rules[j], p)) ::
              Some(Treat(t, Input, p).policy) == c.rules[i].target
    ensures (forall r <- c.rules | r.src == z :: !Applies(r, p)) ==> Some(Treat(t, Input, p).policy) == c.zones[z].input
    ensures Treat(t, Input, p).logs ==
            if c.logging.enabled && Treat(t, Input, p).policy == Accept && c.logging.logAccepts then [101]
            else if c.logging.enabled && Treat(t, Input, p).policy != Accept && c.logging.logDrops then [100]
            else []
  {
    CompilationHasPolicies(t, c);
    AnInputDecisionExists(c, z, p);
    var policy :| InputDecision(c, z, p, policy);
    InputMeaning(t, c, z, p, policy);
    forall i | 0 <= i < |c.rules| && c.rules[i].src == z && Applies(c.rules[i], p) &&
               (forall j | 0 <= j < i && c.rules[j].src == z :: !Applies(c.rules[j], p))
      ensures Some(Treat(t, Input, p).policy) == c.rules[i].target
    {
      assert FirstRule(c.rules, z, p, i) && c.rules[i] in c.rules;
      InputMeaning(t, c, z, p, c.rules[i].target.value);
    }
    if forall r <- c.rules | r.src == z :: !Applies(r, p) {
      InputMeaning(t, c, z, p, c.zones[z].input.value);
    }
  }

  // Every input packet on an interface of zone z is decided as the configuration says, and logged
  // once if that decision is logged, whatever order the zones were visited in.
  lemma InputMeaning(t: Table, c: Config, z: string, p: Packet, policy: Policy)
    requires IsCompilation(t, c) && UniqueInterfaces(c.zones)
    requires InZone(c, z, p) && InputDecision(c, z, p, policy)
    ensures Treat(t, Input, p) == Logged(c, policy)
  {
    var zo, mo, nc :| Orders(c, zo, mo) && Built(t, c, Complete(c, zo, mo, nc));
    var pr := Complete(c, zo, mo, nc);
    assert c.rules[..|c.rules|] == c.rules && z in Elems(zo);
    var chain := ZoneChain(Input, z);
    assert Look(t, chain) == Content(c, pr, chain);
    InputChainDecides(t, c, z, p, policy, JUMP_STACK - 1);
    var k := FirstJump(c, zo, Input, z, p);
    assert Look(t, BaseChain(Input)) == Content(c, pr, BaseChain(Input));
    WalkJumps(t, t[BaseChain(Input)], k, p, JUMP_STACK);
  }

  // ----- forward -----

  lemma {:induction false} ForwardRulesShape(fwds: seq<Forwarding>, zones: map<string, Zone>, z: string, l: LoggingConfig, k: nat)
    requires k < |ForwardRules(fwds, zones, z, l)|
    ensures var r := ForwardRules(fwds, zones, z, l)[k]; r.action == Verdict(Accept) && r.log == LogFor(Accept, l)
    ensures exists f <- fwds :: f.src == z
  {
    var front, f := fwds[..|fwds| - 1], fwds[|fwds| - 1];
    var before := ForwardRules(front, zones, z, l);
    if k < |before| {
      ForwardRulesShape(front, zones, z, l, k);
      var g :| g in front && g.src == z;
      assert g in fwds;
    } else {
      assert f in fwds;
      assert ForwardRules(fwds, zones, z, l)[k] == AcceptsOf(InterfacesIn(zones, z), l)[k - |before|];
    }
  }

  lemma {:induction false} ForwardRulePresent(fwds: seq<Forwarding>, zones: map<string, Zone>, z: string, l: LoggingConfig, i: nat)
    returns (k: nat)
    requires (exists f <- fwds :: f.src == z) && i < |InterfacesIn(zones, z)|
    ensures k < |ForwardRules(fwds, zones, z, l)|
    ensures ForwardRules(fwds, zones, z, l)[k].matches == [IifName(InterfacesIn(zones, z)[i])]
  {
    var front, f := fwds[..|fwds| - 1], fwds[|fwds| - 1];
    if f.src == z {
      k := |ForwardRules(front, zones, z, l)| + i;
      assert ForwardRules(fwds, zones, z, l)[k] == AcceptsOf(InterfacesIn(zones, z), l)[i];
    } else {
      var g :| g in fwds && g.src == z;
      assert g in front;
      k := ForwardRulePresent(front, zones, z, l, i);
    }
  }

  lemma ForwardChainDecides(t: Table, c: Config, z: string, p: Packet, depth: nat)
    requires InZone(c, z, p) && c.zones[z].forward.Some?
    ensures Walk(t, ForwardRules(c.forwardings, c.zones, z, c.logging) + [PolicyRule(c.zones[z].forward.value, c.logging)], p, depth)
            == Logged(c, ForwardDecision(c, z))
  {
    var fwds := ForwardRules(c.forwardings, c.zones, z, c.logging);
    var last := PolicyRule(c.zones[z].forward.value, c.logging);
    if ForwardsFrom(c, z) {
      var i :| 0 <= i < |c.zones[z].interfaces| && c.zones[z].interfaces[i] == p.iif;
      var n := ForwardRulePresent(c.forwardings, c.zones, z, c.logging, i);
      var k := FirstMatchBelow(fwds, p, n);
      ForwardRulesShape(c.forwardings, c.zones, z, c.logging, k);
      WalkDecides(t, fwds + [last], k, p, depth);
    } else {
      if fwds != [] { ForwardRulesShape(c.forwardings, c.zones, z, c.logging, 0); }
      assert fwds + [last] == [last];
    }
  }

  // In the base forward chain the jump to the packet's zone is the first rule that matches.
  lemma FirstForwardRule(c: Config, zo: seq<string>, z: string, p: Packet, rest: seq<NftRule>) returns (k: nat)
    requires UniqueInterfaces(c.zones) && InZone(c, z, p) && !p.established && Elems(zo) == c.zones.Keys
    ensures var base := [ESTABLISHED_RULE] + Jumps(c.zones, zo, Forward) + rest;
            && k < |base| && Matches(base[k], p) && base[k].log == None && base[k].action == Jump(ZoneChain(Forward, z))
            && forall j | 0 <= j < k :: !Matches(base[j], p)
  {
    var i := FirstJump(c, zo, Forward, z, p);
    assert CtEstablished in ESTABLISHED_RULE.matches;
    MatchBehind(ESTABLISHED_RULE, Jumps(c.zones, zo, Forward), rest, p, i);
    k := i + 1;
  }

  lemma MatchBehind(first: NftRule, rules: seq<NftRule>, rest: seq<NftRule>, p: Packet, i: nat)
    requires i < |rules| && !Matches(first, p) && forall j | 0 <= j < i :: !Matches(rules[j], p)
    ensures var base := [first] + rules + rest;
            base[i + 1] == rules[i] && forall j | 0 <= j < i + 1 :: !Matches(base[j], p)
  {
    var base := [first] + rules + rest;
    forall j | 0 <= j < i + 1 ensures !Matches(base[j], p) {
      if j > 0 { assert base[j] == rules[j - 1]; }
    }
  }

  // Every forwarded packet on an interface of zone z that belongs to no established connection.
  lemma ForwardMeaning(t: Table, c: Config, z: string, p: Packet)
    requires IsCompilation(t, c) && UniqueInterfaces(c.zones)
    requires z in c.zones && p.iif in c.zones[z].interfaces && !p.established && c.zones[z].forward.Some?
    ensures Treat(t, Forward, p) == Logged(c, ForwardDecision(c, z))
    ensures Treat(t, Forward, p).policy == if exists f <- c.forwardings :: f.src == z then Accept else c.zones[z].forward.value
    ensures Treat(t, Forward, p).logs ==
            if c.logging.enabled && Treat(t, Forward, p).policy == Accept && c.logging.logAccepts then [101]
            else if c.logging.enabled && Treat(t, Forward, p).policy != Accept && c.logging.logDrops then [100]
            else []
  {
    var zo, mo, nc :| Orders(c, zo, mo) && Built(t, c, Complete(c, zo, mo, nc));
    assert c.forwardings[..|c.forwardings|] == c.forwardings && z in Elems(zo);
    assert Look(t, ZoneChain(Forward, z)) == Content(c, Complete(c, zo, mo, nc), ZoneChain(Forward, z));
    assert Look(t, BaseChain(Forward)) == Content(c, Complete(c, zo, mo, nc), BaseChain(Forward));
    ForwardChainDecides(t, c, z, p, JUMP_STACK - 1);
    var k := FirstForwardRule(c, zo, z, p, PortForwardFilters(c.portForwards[..|c.portForwards|], c.logging));
    WalkJumps(t, t[BaseChain(Forward)], k, p, JUMP_STACK);
  }

  // Packets of established connections are forwarded without a log entry, in every zone and outside.
  lemma EstablishedIsForwarded(t: Table, c: Config, p: Packet)
    requires IsCompilation(t, c) && p.established
    ensures Treat(t, Forward, p) == Decided(Accept, [])
  {
    var zo, mo, nc :| Orders(c, zo, mo) && Built(t, c, Complete(c, zo, mo, nc));
    assert Look(t, BaseChain(Forward)) == Content(c, Complete(c, zo, mo, nc), BaseChain(Forward));
    WalkDecides(t, t[BaseChain(Forward)], 0, p, JUMP_STACK);
  }

  // ----- everything else -----

  // Nothing is ever dropped on the way out: the output chains of the zones are never jumped to.
  lemma OutputIsAccepted(t: Table, c: Config, p: Packet)
    requires IsCompilation(t, c)
    ensures Treat(t, Output, p) == Decided(Accept, [])
  {
    var zo, mo, nc :| Orders(c, zo, mo) && Built(t, c, Complete(c, zo, mo, nc));
    assert Look(t, BaseChain(Output)) == Content(c, Complete(c, zo, mo, nc), BaseChain(Output));
  }

  // So a zone's output policy holds for the packets leaving through it if and only if it accepts.
  lemma OutputPolicyIsIgnored(t: Table, c: Config, z: string, p: Packet)
    requires IsCompilation(t, c) && z in c.zones && c.zones[z].output.Some? && p.oif in c.zones[z].interfaces
    ensures Treat(t, Output, p).policy == c.zones[z].output.value <==> c.zones[z].output == Some(Accept)
  {
    OutputIsAccepted(t, c, p);
  }

  // Packets on interfaces outside every zone are let in.
  lemma OutsideZonesIsLetIn(t: Table, c: Config, p: Packet)
    requires IsCompilation(t, c) && forall z <- c.zones :: p.iif !in c.zones[z].interfaces
    ensures Treat(t, Input, p) == Decided(Accept, [])
  {
    var zo, mo, nc :| Orders(c, zo, mo) && Built(t, c, Complete(c, zo, mo, nc));
    assert Look(t, BaseChain(Input)) == Content(c, Complete(c, zo, mo, nc), BaseChain(Input));
    NoJump(c, zo, Input, p);
    if BaseChain(Input) in t { WalkFalls(t, t[BaseChain(Input)], p, JUMP_STACK); }
  }

  // Packets on interfaces outside every zone are forwarded; only for them do port forwards matter,
  // and only for the log: it is written if and only if accepts are logged and the packet goes where
  // an enabled port forward leads.
  lemma OutsideZonesIsForwarded(t: Table, c: Config, p: Packet)
    requires IsCompilation(t, c) && !p.established && forall z <- c.zones :: p.iif !in c.zones[z].interfaces
    ensures Treat(t, Forward, p).policy == Accept
    ensures Treat(t, Forward, p).logs ==
            if c.logging.enabled && c.logging.logAccepts && exists pf <- c.portForwards :: pf.enabled && LeadsTo(pf, p)
            then [101] else []
  {
    var zo, mo, nc :| Orders(c, zo, mo) && Built(t, c, Complete(c, zo, mo, nc));
    NoJump(c, zo, Forward, p);
    var pre := [ESTABLISHED_RULE] + Jumps(c.zones, zo, Forward);
    assert c.portForwards[..|c.portForwards|] == c.portForwards;
    assert Look(t, BaseChain(Forward)) == Content(c, Complete(c, zo, mo, nc), BaseChain(Forward));
    assert CtEstablished in ESTABLISHED_RULE.matches;
    WalkSkips(t, pre, PortForwardFilters(c.portForwards, c.logging), p, JUMP_STACK);
    PortForwardsAccept(t, c.portForwards, c.logging, p, JUMP_STACK);
  }

  // The packet goes to the address, by the protocol and to a port the port forward leads to.
  predicate LeadsTo(pf: PortForward, p: Packet) {
    && p.daddr == pf.destIP
    && (pf.proto.Some? ==> p.proto == pf.proto.value)
    && InPorts(p.dport, if pf.destPort.PortRange? then pf.destPort else pf.srcDPort)
  }

  lemma FilterMatches(pf: PortForward, l: LoggingConfig, p: Packet)
    ensures Matches(GeneratePortForwardFilterRule(pf, l), p) <==> LeadsTo(pf, p)
    ensures Matches(GeneratePortForwardFilterRule(pf, l), p) <==>
              && p.daddr == pf.destIP
              && (pf.proto.Some? ==> p.proto == pf.proto.value)
              && (pf.destPort.PortRange? ==> pf.destPort.lo <= p.dport <= pf.destPort.hi)
              && (pf.destPort.AnyPort? && pf.srcDPort.PortRange? ==> pf.srcDPort.lo <= p.dport <= pf.srcDPort.hi)
  {
    var g := GeneratePortForwardFilterRule(pf, l);
    var ports := if pf.destPort.PortRange? then pf.destPort else pf.srcDPort;
    var a, b, d := [DAddr(pf.destIP)], ProtoMatch(pf.proto), PortMatch(ports, DPort(ports));
    assert Matches(g, p) == AllSatisfied(p, g.matches) && g.matches == a + b + d;
    AllSatisfiedConcat(p, a + b, d);
    AllSatisfiedConcat(p, a, b);
    assert a[0] in a;
    if pf.proto.Some? { assert b[0] in b; }
    if ports.PortRange? { assert d[0] in d; }
  }

  lemma PortForwardsAccept(t: Table, pfs: seq<PortForward>, l: LoggingConfig, p: Packet, depth: nat)
    ensures Walk(t, PortForwardFilters(pfs, l), p, depth) ==
            if exists pf <- pfs :: pf.enabled && LeadsTo(pf, p)
            then Decided(Accept, if l.enabled && l.logAccepts then [101] else []) else Falls([])
  {
    var rules := PortForwardFilters(pfs, l);
    PortForwardShape(pfs, l);
    if pf :| pf in pfs && pf.enabled && LeadsTo(pf, p) {
      FilterMatches(pf, l, p);
      var n :| 0 <= n < |rules| && rules[n] == GeneratePortForwardFilterRule(pf, l);
      var k := FirstMatchBelow(rules, p, n);
      assert rules[k] in rules;
      WalkDecides(t, rules, k, p, depth);
    } else {
      forall r | r in rules ensures !Matches(r, p) {
        var pf :| pf in pfs && pf.enabled && r == GeneratePortForwardFilterRule(pf, l);
        FilterMatches(pf, l, p);
      }
      WalkFalls(t, rules, p, depth);
    }
  }

  lemma {:induction false} PortForwardShape(pfs: seq<PortForward>, l: LoggingConfig)
    ensures forall pf <- pfs | pf.enabled :: GeneratePortForwardFilterRule(pf, l) in PortForwardFilters(pfs, l)
    ensures forall r <- PortForwardFilters(pfs, l) :: exists pf <- pfs :: pf.enabled && r == GeneratePortForwardFilterRule(pf, l)
  {
    if pfs != [] {
      var front, last := pfs[..|pfs| - 1], pfs[|pfs| - 1];
      PortForwardShape(front, l);
      assert pfs == front + [last];
    }
  }

  // ----- address translation -----

  // What a nat chain does to a packet: the first rule that matches.
  function FirstAction(rules: seq<NftRule>, p: Packet): Option<Action> {
    if rules == [] then None
    else if Matches(rules[0], p) then Some(rules[0].action)
    else FirstAction(rules[1..], p)
  }

  function Translation(t: Table, ch: Chain, p: Packet): Option<Action> {
    if ch in t then FirstAction(t[ch], p) else None
  }

  lemma {:induction false} FirstActionConcat(a: seq<NftRule>, b: seq<NftRule>, p: Packet)
    ensures FirstAction(a + b, p) == if FirstAction(a, p).Some? then FirstAction(a, p) else FirstAction(b, p)
  {
    if a == [] {
      assert a + b == b;
    } else {
      assert (a + b)[1..] == a[1..] + b;
      FirstActionConcat(a[1..], b, p);
    }
  }

  // The packet comes in on a port that an enabled port forward forwards.
  predicate Forwards(pf: PortForward, p: Packet) {
    pf.enabled && (pf.proto.Some? ==> p.proto == pf.proto.value) && InPorts(p.dport, pf.srcDPort)
  }

  lemma DnatMatches(pf: PortForward, p: Packet)
    requires pf.enabled
    ensures Matches(GeneratePortForwardDNATRule(pf), p) == Forwards(pf, p)
  {
    var a, b := ProtoMatch(pf.proto), PortMatch(pf.srcDPort, DPort(pf.srcDPort));
    assert Matches(GeneratePortForwardDNATRule(pf), p) == AllSatisfied(p, a + b);
    AllSatisfiedConcat(p, a, b);
    if pf.proto.Some? { assert a[0] in a; }
    if pf.srcDPort.PortRange? { assert b[0] in b; }
  }

  lemma {:induction false} NoDnat(pfs: seq<PortForward>, p: Packet)
    requires forall j | 0 <= j < |pfs| :: !Forwards(pfs[j], p)
    ensures FirstAction(Dnats(pfs), p) == None
  {
    if pfs != [] {
      var front, pf := pfs[..|pfs| - 1], pfs[|pfs| - 1];
      NoDnat(front, p);
      FirstActionConcat(Dnats(front), if pf.enabled then [GeneratePortForwardDNATRule(pf)] else [], p);
      if pf.enabled { DnatMatches(pf, p); }
    }
  }

  lemma {:induction false} FirstDnat(pfs: seq<PortForward>, p: Packet, i: nat)
    requires i < |pfs| && Forwards(pfs[i], p) && forall j | 0 <= j < i :: !Forwards(pfs[j], p)
    ensures FirstAction(Dnats(pfs), p) == Some(GeneratePortForwardDNATRule(pfs[i]).action)
  {
    var front, pf := pfs[..|pfs| - 1], pfs[|pfs| - 1];
    if i < |front| { FirstDnat(front, p, i); } else { NoDnat(front, p); }
    FirstActionConcat(Dnats(front), if pf.enabled then [GeneratePortForwardDNATRule(pf)] else [], p);
    if pf.enabled { DnatMatches(pf, p); }
  }

  // A packet is sent on to the address of the first enabled port forward for its protocol and port,
  // and to the port of it where one is given and differs from the port forwarded; else it is let be.
  lemma PortForwardMeaning(t: Table, c: Config, p: Packet)
    requires IsCompilation(t, c)
    ensures Translation(t, Prerouting, p) == None <==>
              forall pf <- c.portForwards | pf.enabled && (pf.proto.Some? ==> p.proto == pf.proto.value) ::
                pf.srcDPort.PortRange? && !(pf.srcDPort.lo <= p.dport <= pf.srcDPort.hi)
    ensures forall i | 0 <= i < |c.portForwards| && Forwards(c.portForwards[i], p) &&
                       (forall j | 0 <= j < i :: !Forwards(c.portForwards[j], p)) ::
              var pf := c.portForwards[i];
              Translation(t, Prerouting, p) ==
              Some(Dnat(pf.destIP, if pf.destPort == pf.srcDPort then AnyPort else pf.destPort))
  {
    PreroutingHolds(t, c, p);
    NothingForwarded(c.portForwards, p);
    forall i | 0 <= i < |c.portForwards| && Forwards(c.portForwards[i], p) &&
               (forall j | 0 <= j < i :: !Forwards(c.portForwards[j], p))
      ensures Translation(t, Prerouting, p) == Some(GeneratePortForwardDNATRule(c.portForwards[i]).action)
    {
      FirstDnat(c.portForwards, p, i);
    }
  }

  lemma PreroutingHolds(t: Table, c: Config, p: Packet)
    requires IsCompilation(t, c)
    ensures Translation(t, Prerouting, p) == FirstAction(Dnats(c.portForwards), p)
  {
    var zo, mo, nc :| Orders(c, zo, mo) && Built(t, c, Complete(c, zo, mo, nc));
    assert c.portForwards[..|c.portForwards|] == c.portForwards;
    assert Look(t, Prerouting) == Content(c, Complete(c, zo, mo, nc), Prerouting);
  }

  lemma NothingForwarded(pfs: seq<PortForward>, p: Packet)
    ensures FirstAction(Dnats(pfs), p) == None <==>
              forall pf <- pfs | pf.enabled && (pf.proto.Some? ==> p.proto == pf.proto.value) ::
                pf.srcDPort.PortRange? && !(pf.srcDPort.lo <= p.dport <= pf.srcDPort.hi)
  {
    var n := FirstForward(pfs, p, |pfs|);
    if n == |pfs| {
      NoDnat(pfs, p);
      forall pf | pf in pfs ensures !Forwards(pf, p) { }
    } else {
      FirstDnat(pfs, p, n);
      assert pfs[n] in pfs && Forwards(pfs[n], p);
    }
  }

  lemma {:induction false} FirstForward(pfs: seq<PortForward>, p: Packet, n: nat) returns (i: nat)
    requires n <= |pfs|
    ensures i <= n && (i < n ==> Forwards(pfs[i], p)) && forall j | 0 <= j < i :: !Forwards(pfs[j], p)
  {
    i := n;
    if j :| 0 <= j < n && Forwards(pfs[j], p) { i := FirstForward(pfs, p, j); }
  }

  // What a translated packet can look like: with a range of ports any of them may be taken.
  predicate TranslatedTo(p: Packet, a: Action, q: Packet)
    requires a.Dnat?
  {
    q == p.(daddr := a.ip, dport := q.dport) && if a.port.PortRange? then InPorts(q.dport, a.port) else q.dport == p.dport
  }

  // A packet that a port forward translates is one that its filter rule accepts.
  lemma TranslatedIsLetThrough(pf: PortForward, l: LoggingConfig, p: Packet, q: Packet)
    requires Matches(GeneratePortForwardDNATRule(pf), p) && TranslatedTo(p, GeneratePortForwardDNATRule(pf).action, q)
    ensures Matches(GeneratePortForwardFilterRule(pf, l), q)
    ensures GeneratePortForwardFilterRule(pf, l).action == Nftables.Action.Verdict(Accept)
  {
    DnatMatches(pf.(enabled := true), p);
    FilterMatches(pf, l, q);
  }

  // A packet leaves with the address of the interface if and only if a masqueraded zone has it.
  lemma MasqueradeMeaning(t: Table, c: Config, p: Packet)
    requires IsCompilation(t, c)
    ensures Translation(t, Postrouting, p) ==
            if exists z <- c.zones :: c.zones[z].masquerade && p.oif in c.zones[z].interfaces then Some(Masquerade) else None
  {
    var mo := PostroutingHolds(t, c, p);
    FirstMasquerade(c.zones, mo, p);
    var masq := set z | z in c.zones && c.zones[z].masquerade;
    assert forall z :: z in mo <==> z in masq by { assert forall z :: z in mo <==> z in Elems(mo); }
    assert forall z <- masq :: InterfacesIn(c.zones, z) == c.zones[z].interfaces;
  }

  lemma PostroutingHolds(t: Table, c: Config, p: Packet) returns (mo: seq<string>)
    requires IsCompilation(t, c)
    ensures Lists(mo, set z | z in c.zones && c.zones[z].masquerade)
    ensures Translation(t, Postrouting, p) == FirstAction(Masquerades(c.zones, mo), p)
  {
    var zo, order, nc :| Orders(c, zo, order) && Built(t, c, Complete(c, zo, order, nc));
    assert Look(t, Postrouting) == Content(c, Complete(c, zo, order, nc), Postrouting);
    mo := order;
  }

  lemma {:induction false} FirstMasquerade(zones: map<string, Zone>, order: seq<string>, p: Packet)
    ensures FirstAction(Masquerades(zones, order), p) ==
            if exists z <- order :: p.oif in InterfacesIn(zones, z) then Some(Masquerade) else None
  {
    if order != [] {
      var front, z := order[..|order| - 1], order[|order| - 1];
      FirstMasquerade(zones, front, p);
      MasqueradeMore(Masquerades(zones, front), InterfacesIn(zones, z), p);
      assert forall y :: y in order <==> y in front || y == z;
    }
  }

  lemma MasqueradeMore(rules: seq<NftRule>, interfaces: seq<string>, p: Packet)
    ensures FirstAction(rules + MasqueradesOf(interfaces), p) ==
            if FirstAction(rules, p).None? && p.oif in interfaces then Some(Masquerade) else FirstAction(rules, p)
  {
    FirstActionConcat(rules, MasqueradesOf(interfaces), p);
    OneMasquerade(interfaces, p);
  }

  lemma {:induction false} OneMasquerade(interfaces: seq<string>, p: Packet)
    ensures FirstAction(MasqueradesOf(interfaces), p) == if p.oif in interfaces then Some(Masquerade) else None
  {
    if interfaces != [] {
      var rules := MasqueradesOf(interfaces);
      assert rules[1..] == MasqueradesOf(interfaces[1..]);
      OneMasquerade(interfaces[1..], p);
      assert OifName(interfaces[0]) in rules[0].matches;
      assert interfaces == [interfaces[0]] + interfaces[1..];
    }
  }

  // ----- consequences -----

  // The verdict on a packet does not depend on the order in which the zones were visited.
  lemma OrderOfZonesIsIrrelevant(s: Table, t: Table, c: Config, p: Packet)
    requires IsCompilation(s, c) && IsCompilation(t, c) && UniqueInterfaces(c.zones) && Compilable(c)
    requires exists z :: InZone(c, z, p)
    ensures Treat(s, Input, p) == Treat(t, Input, p) && Treat(s, Forward, p) == Treat(t, Forward, p)
  {
    var z :| InZone(c, z, p);
    AnInputDecisionExists(c, z, p);
    var policy :| InputDecision(c, z, p, policy);
    InputMeaning(s, c, z, p, policy);
    InputMeaning(t, c, z, p, policy);
    if p.established {
      EstablishedIsForwarded(s, c, p);
      EstablishedIsForwarded(t, c, p);
    } else {
      ForwardMeaning(s, c, z, p);
      ForwardMeaning(t, c, z, p);
    }
  }

  // A port forward is never what decides a packet that arrives on an interface of a zone.
  lemma PortForwardsDoNotReachZones(s: Table, t: Table, c: Config, pfs: seq<PortForward>, z: string, p: Packet)
    requires IsCompilation(s, c) && IsCompilation(t, c.(portForwards := pfs)) && UniqueInterfaces(c.zones)
    requires InZone(c, z, p) && c.zones[z].forward.Some?
    ensures Treat(s, Forward, p) == Treat(t, Forward, p)
  {
    var d := c.(portForwards := pfs);
    if p.established {
      EstablishedIsForwarded(s, c, p);
      EstablishedIsForwarded(t, d, p);
    } else {
      ForwardMeaning(s, c, z, p);
      ForwardMeaning(t, d, z, p);
    }
  }

  // A forwarding names a destination zone that the table never looks at: a packet for an interface
  // of zone y gets what "forward z to y" says if and only if z forwards to y, or nowhere, or accepts anyway.
  lemma DestinationZoneIsIgnored(t: Table, c: Config, z: string, y: string, p: Packet)
    requires IsCompilation(t, c) && UniqueInterfaces(c.zones)
    requires InZone(c, z, p) && !p.established && c.zones[z].forward.Some?
    ensures var documented := if Forwarding(z, y) in c.forwardings then Accept else c.zones[z].forward.value;
            Treat(t, Forward, p).policy == documented <==>
            Forwarding(z, y) in c.forwardings || !ForwardsFrom(c, z) || c.zones[z].forward == Some(Accept)
  {
    ForwardMeaning(t, c, z, p);
  }

  // A valid configuration can be built if and only if every rule names its source zone: validation
  // lets a rule without one pass, but there is no chain to put it in.
  lemma ValidConfigCompiles(c: Config)
    requires ValidConfig(c)
    ensures Compilable(c) <==> forall r <- c.rules :: r.src != ""
  {
    forall r | r in c.rules ensures r.src != "" <==> r.src in c.zones {
      assert ValidRule(r, c.zones);
    }
    forall z | z in c.zones ensures c.zones[z].input.Some? && c.zones[z].forward.Some? {
      assert ValidZone(c.zones[z]);
    }
    forall r | r in c.rules ensures r.target.Some? {
      assert ValidRule(r, c.zones);
    }
  }

  // The rule as written, addresses included.
  predicate AppliesInFull(r: Rule, p: Packet) {
    && Applies(r, p)
    && (r.srcIP.Some? ==> p.saddr == r.srcIP.value)
    && (r.destIP.Some? ==> p.daddr == r.destIP.value)
  }

  // The generated rule is about the packets the written rule is about if and only if that rule
  // names no address.
  lemma AddressesAreIgnored(r: Rule, l: LoggingConfig)
    requires r.target.Some? && ValidPorts(r.srcPort) && ValidPorts(r.destPort)
    ensures (forall p :: Matches(GenerateCustomRule(r, l), p) == AppliesInFull(r, p)) <==>
            r.srcIP == None && r.destIP == None
  {
    forall p ensures Matches(GenerateCustomRule(r, l), p) == Applies(r, p) { GeneratedMatches(r, l, p); }
    if r.srcIP != None || r.destIP != None {
      var p := Packet("", "", if r.proto.Some? then r.proto.value else "", if r.srcPort.PortRange? then r.srcPort.lo else 0,
                      if r.destPort.PortRange? then r.destPort.lo else 0,
                      if r.srcIP.Some? then r.srcIP.value + 1 else 0, if r.destIP.Some? then r.destIP.value + 1 else 0, true);
      assert Matches(GenerateCustomRule(r, l), p) != AppliesInFull(r, p);
    }
  }

  // ----- logging preserves meaning -----

  lemma {:induction false} CustomRulesSameButLogs(rules: seq<Rule>, z: string, l: LoggingConfig, m: LoggingConfig)
    requires Targeted(rules)
    ensures ChainsSameButLogs(CustomRules(rules, z, l), CustomRules(rules, z, m))
  {
    if rules != [] { CustomRulesSameButLogs(rules[..|rules| - 1], z, l, m); }
  }

  lemma {:induction false} ForwardRulesSameButLogs(fwds: seq<Forwarding>, zones: map<string, Zone>, z: string,
                                                   l: LoggingConfig, m: LoggingConfig)
    ensures ChainsSameButLogs(ForwardRules(fwds, zones, z, l), ForwardRules(fwds, zones, z, m))
  {
    if fwds != [] { ForwardRulesSameButLogs(fwds[..|fwds| - 1], zones, z, l, m); }
  }

  lemma {:induction false} PortForwardsSameButLogs(pfs: seq<PortForward>, l: LoggingConfig, m: LoggingConfig)
    ensures ChainsSameButLogs(PortForwardFilters(pfs, l), PortForwardFilters(pfs, m))
  {
    if pfs != [] { PortForwardsSameButLogs(pfs[..|pfs| - 1], l, m); }
  }

  lemma CompilationHasPolicies(t: Table, c: Config)
    requires IsCompilation(t, c)
    ensures Targeted(c.rules) && forall z <- c.zones :: c.zones[z].input.Some? && c.zones[z].forward.Some?
  {
    var zo, mo, nc :| Orders(c, zo, mo) && Built(t, c, Complete(c, zo, mo, nc));
    assert c.rules[..|c.rules|] == c.rules;
  }

  lemma InZoneOrUnzoned(c: Config, p: Packet)
    ensures Unzoned(c, p) || exists z :: InZone(c, z, p)
  {
    if !Unzoned(c, p) {
      var z :| z in c.zones && p.iif in c.zones[z].interfaces;
      assert InZone(c, z, p);
    }
  }

  lemma LoggingPreservesInput(s: Table, t: Table, c: Config, l: LoggingConfig, p: Packet)
    requires IsCompilation(s, c) && IsCompilation(t, c.(logging := l)) && UniqueInterfaces(c.zones)
    ensures Treat(s, Input, p).policy == Treat(t, Input, p).policy
  {
    var d := c.(logging := l);
    CompilationHasPolicies(s, c);
    InZoneOrUnzoned(c, p);
    if z :| InZone(c, z, p) {
      AnInputDecisionExists(c, z, p);
      var policy :| InputDecision(c, z, p, policy);
      assert InputDecision(d, z, p, policy);
      InputMeaning(s, c, z, p, policy);
      InputMeaning(t, d, z, p, policy);
    } else {
      OutsideZonesIsLetIn(s, c, p);
      OutsideZonesIsLetIn(t, d, p);
    }
  }

  lemma LoggingPreservesForward(s: Table, t: Table, c: Config, l: LoggingConfig, p: Packet)
    requires IsCompilation(s, c) && IsCompilation(t, c.(logging := l)) && UniqueInterfaces(c.zones) && !p.established
    ensures Treat(s, Forward, p).policy == Treat(t, Forward, p).policy
  {
    var d := c.(logging := l);
    CompilationHasPolicies(s, c);
    InZoneOrUnzoned(c, p);
    if z :| InZone(c, z, p) {
      ForwardMeaning(s, c, z, p);
      ForwardMeaning(t, d, z, p);
      assert ForwardDecision(d, z) == ForwardDecision(c, z);
    } else {
      OutsideZonesIsForwarded(s, c, p);
      OutsideZonesIsForwarded(t, d, p);
    }
  }

  // Any two logging settings give every packet the same verdict on every hook, whatever orders the
  // two builds visited the zones in.
  lemma LoggingPreservesMeaning(s: Table, t: Table, c: Config, l: LoggingConfig, hook: Hook, p: Packet)
    requires IsCompilation(s, c) && IsCompilation(t, c.(logging := l)) && UniqueInterfaces(c.zones)
    ensures Treat(s, hook, p).policy == Treat(t, hook, p).policy
  {
    match hook
    case Output =>
      OutputIsAccepted(s, c, p);
      OutputIsAccepted(t, c.(logging := l), p);
    case Input =>
      LoggingPreservesInput(s, t, c, l, p);
    case Forward =>
      if p.established {
        EstablishedIsForwarded(s, c, p);
        EstablishedIsForwarded(t, c.(logging := l), p);
      } else {
        LoggingPreservesForward(s, t, c, l, p);
      }
  }

  // For builds in the same order no precondition is needed, not even that each interface has one zone.
  lemma LoggingPreservesMeaningInOrder(s: Table, t: Table, c: Config, l: LoggingConfig, zo: seq<string>, mo: seq<string>,
                                nc: bool, hook: Hook, p: Packet)
    requires Built(s, c, Complete(c, zo, mo, nc)) && Built(t, c.(logging := l), Complete(c, zo, mo, nc))
    ensures Treat(s, hook, p).policy == Treat(t, hook, p).policy
  {
    var pr := Complete(c, zo, mo, nc);
    forall ch ensures (ch in s <==> ch in t) && (ch in s ==> ChainsSameButLogs(s[ch], t[ch])) {
      ChainSameButLogs(s, t, c, l, pr, ch);
    }
    TreatIgnoresLogs(s, t, hook, p);
  }

  lemma ChainSameButLogs(s: Table, t: Table, c: Config, l: LoggingConfig, pr: Progress, ch: Chain)
    requires Built(s, c, pr) && Built(t, c.(logging := l), pr)
    ensures (ch in s <==> ch in t) && (ch in s ==> ChainsSameButLogs(s[ch], t[ch]))
  {
    assert Look(s, ch) == Content(c, pr, ch) && Look(t, ch) == Content(c.(logging := l), pr, ch);
    ContentSameButLogs(c, l, pr, ch);
  }

  lemma ContentSameButLogs(c: Config, l: LoggingConfig, pr: Progress, ch: Chain)
    requires Within(c, pr) && Within(c.(logging := l), pr)
    ensures var a, b := Content(c, pr, ch), Content(c.(logging := l), pr, ch);
            a.Some? == b.Some? && (a.Some? ==> ChainsSameButLogs(a.value, b.value))
  {
    match ch
    case ZoneChain(h, z) =>
      if h.Input? { CustomRulesSameButLogs(c.rules[..pr.rules], z, c.logging, l); }
      if h.Forward? { ForwardRulesSameButLogs(c.forwardings[..pr.fwds], c.zones, z, c.logging, l); }
    case BaseChain(h) => PortForwardsSameButLogs(c.portForwards[..pr.pfs], c.logging, l);
    case _ =>
  }
}
