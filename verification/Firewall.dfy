// Building the firewall table command by command, and skipping the rebuild when the stored hash
// matches (plugins/core/firewall/firewall.go).
module Firewall {
  import opened Basics
  import opened FirewallConfig
  import opened Nftables
  import opened FirewallRules

  // ----- how commands change the content of the table -----

  // Rules appended to a chain, which is created first if need be.
  function Grown(t: Table, ch: Chain, rules: seq<NftRule>): Table {
    if rules == [] then t else t[ch := (if ch in t then t[ch] else []) + rules]
  }

  lemma GrowOne(t: Table, ch: Chain, rules: seq<NftRule>, r: NftRule)
    ensures WithRule(WithChain(Grown(t, ch, rules), ch), ch, r) == Grown(t, ch, rules + [r])
  {
    var base := if ch in t then t[ch] else [];
    assert (base + rules) + [r] == base + (rules + [r]);
    if rules == [] { assert rules + [r] == [r]; }
  }

  // A chain with nothing to add stays as it was; an absent chain counts as empty.
  lemma GrownLook(t: Table, ch: Chain, rules: seq<NftRule>)
    ensures Look(Grown(t, ch, rules), ch) ==
            if ch in t then Some(t[ch] + rules) else NonEmpty(rules)
    ensures forall other | other != ch :: Look(Grown(t, ch, rules), other) == Look(t, other)
  {
    if ch in t { assert t[ch] + [] == t[ch]; }
    assert [] + rules == rules;
  }

  function ZoneChains(t: Table, z: string): Table {
    WithChain(WithChain(WithChain(t, ZoneChain(Input, z)), ZoneChain(Forward, z)), ZoneChain(Output, z))
  }

  function WithJumps(t: Table, z: string, interfaces: seq<string>): Table {
    Grown(Grown(t, BaseChain(Input), JumpsOf(interfaces, Input, z)), BaseChain(Forward), JumpsOf(interfaces, Forward, z))
  }

  lemma JumpOne(t: Table, z: string, interfaces: seq<string>, i: nat)
    requires i < |interfaces|
    ensures var t1 := WithJumps(t, z, interfaces[..i]);
            var t2 := WithRule(WithChain(t1, BaseChain(Input)), BaseChain(Input), NftRule([IifName(interfaces[i])], None, Jump(ZoneChain(Input, z))));
            var t3 := WithRule(WithChain(t2, BaseChain(Forward)), BaseChain(Forward), NftRule([IifName(interfaces[i])], None, Jump(ZoneChain(Forward, z))));
            t3 == WithJumps(t, z, interfaces[..i + 1])
  {
    var pre := interfaces[..i];
    var a, b := NftRule([IifName(interfaces[i])], None, Jump(ZoneChain(Input, z))), NftRule([IifName(interfaces[i])], None, Jump(ZoneChain(Forward, z)));
    assert JumpsOf(interfaces[..i + 1], Input, z) == JumpsOf(pre, Input, z) + [a];
    assert JumpsOf(interfaces[..i + 1], Forward, z) == JumpsOf(pre, Forward, z) + [b];
    GrowOne(t, BaseChain(Input), JumpsOf(pre, Input, z), a);
    GrowOne(Grown(t, BaseChain(Input), JumpsOf(interfaces[..i + 1], Input, z)), BaseChain(Forward), JumpsOf(pre, Forward, z), b);
  }

  // ----- progress -----

  const START := Progress([], 0, 0, [], false, 0, {})

  lemma BuiltStart(c: Config)
    ensures Built(map[BaseChain(Forward) := [ESTABLISHED_RULE]], c, START)
  {
    assert [ESTABLISHED_RULE] + [] + [] == [ESTABLISHED_RULE];
  }

  lemma ZoneChainsLook(t: Table, z: string, ch: Chain)
    requires forall h :: ZoneChain(h, z) !in t
    ensures Look(ZoneChains(t, z), ch) == if ch.ZoneChain? && ch.zone == z then Some([]) else Look(t, ch)
  {
    if ch.ZoneChain? {
      match ch.hook
      case Input =>
      case Forward =>
      case Output =>
    }
  }

  lemma NewZoneLook(t: Table, z: string, interfaces: seq<string>, ch: Chain)
    requires forall h :: ZoneChain(h, z) !in t
    ensures Look(WithJumps(ZoneChains(t, z), z, interfaces), ch) ==
            if ch.ZoneChain? && ch.zone == z then Some([])
            else if ch.BaseChain? && !ch.hook.Output? then
              if ch in t then Some(t[ch] + JumpsOf(interfaces, ch.hook, z)) else NonEmpty(JumpsOf(interfaces, ch.hook, z))
            else Look(t, ch)
  {
    var t1 := ZoneChains(t, z);
    ZoneChainsLook(t, z, ch);
    ZoneChainsLook(t, z, BaseChain(Forward));
    GrownLook(t1, BaseChain(Input), JumpsOf(interfaces, Input, z));
    GrownLook(Grown(t1, BaseChain(Input), JumpsOf(interfaces, Input, z)), BaseChain(Forward), JumpsOf(interfaces, Forward, z));
  }

  // Where a new zone is expected: before anything but zones has been built.
  ghost predicate ZoneIsNext(t: Table, c: Config, p: Progress, z: string) {
    Built(t, c, p) && z in c.zones && z !in p.zones && p.rules == p.fwds == p.pfs == 0 && p.policies == {}
  }

  lemma ZoneKeepsWithin(t: Table, c: Config, p: Progress, z: string)
    requires ZoneIsNext(t, c, p, z)
    ensures Within(c, p.(zones := p.zones + [z]))
    ensures forall h :: Jumps(c.zones, p.zones + [z], h) == Jumps(c.zones, p.zones, h) + JumpsOf(c.zones[z].interfaces, h, z)
  {
    assert (p.zones + [z])[..|p.zones + [z]| - 1] == p.zones;
  }

  lemma ZoneBaseContent(c: Config, p: Progress, z: string, h: Hook)
    requires Within(c, p) && Within(c, p.(zones := p.zones + [z])) && p.pfs == 0 && z in c.zones
    requires Jumps(c.zones, p.zones + [z], h) == Jumps(c.zones, p.zones, h) + JumpsOf(c.zones[z].interfaces, h, z)
    ensures var was, more := Content(c, p, BaseChain(h)), JumpsOf(c.zones[z].interfaces, h, z);
            Content(c, p.(zones := p.zones + [z]), BaseChain(h)) ==
            if h.Output? then None else if was.Some? then Some(was.value + more) else NonEmpty(more)
  {
    var e, j, f := [ESTABLISHED_RULE], Jumps(c.zones, p.zones, h), JumpsOf(c.zones[z].interfaces, h, z);
    assert (e + j + []) + f == e + (j + f) + [];
    assert j == [] ==> j + f == f;
  }

  lemma ZoneChainContent(c: Config, p: Progress, z: string, h: Hook)
    requires Within(c, p) && Within(c, p.(zones := p.zones + [z])) && p.rules == p.fwds == 0 && p.policies == {}
    ensures Content(c, p.(zones := p.zones + [z]), ZoneChain(h, z)) == Some([])
  {
    var none: seq<NftRule> := [];
    assert CustomRules(c.rules[..0], z, c.logging) + none == none;
    assert ForwardRules(c.forwardings[..0], c.zones, z, c.logging) + none == none;
  }

  lemma ZoneBuilt(t: Table, c: Config, p: Progress, z: string)
    requires ZoneIsNext(t, c, p, z)
    ensures Built(WithJumps(ZoneChains(t, z), z, c.zones[z].interfaces), c, p.(zones := p.zones + [z]))
  {
    var q := p.(zones := p.zones + [z]);
    ZoneKeepsWithin(t, c, p, z);
    forall h ensures ZoneChain(h, z) !in t { assert Look(t, ZoneChain(h, z)) == Content(c, p, ZoneChain(h, z)); }
    forall ch ensures Look(WithJumps(ZoneChains(t, z), z, c.zones[z].interfaces), ch) == Content(c, q, ch) {
      NewZoneLook(t, z, c.zones[z].interfaces, ch);
      assert Look(t, ch) == Content(c, p, ch);
      if ch.BaseChain? {
        ZoneBaseContent(c, p, z, ch.hook);
      } else if ch.ZoneChain? && ch.zone == z {
        ZoneChainContent(c, p, z, ch.hook);
      } else {
        assert Content(c, q, ch) == Content(c, p, ch);
      }
    }
  }

  lemma RuleBuiltAt(t: Table, c: Config, p: Progress, ch: Chain)
    requires Built(t, c, p) && p.rules < |c.rules| && p.policies == {}
    requires c.rules[p.rules].src in p.zones && c.rules[p.rules].target.Some?
    ensures ZoneChain(Input, c.rules[p.rules].src) in t && Within(c, p.(rules := p.rules + 1))
    ensures var r := c.rules[p.rules];
            Look(WithRule(t, ZoneChain(Input, r.src), GenerateCustomRule(r, c.logging)), ch) == Content(c, p.(rules := p.rules + 1), ch)
  {
    var r, q := c.rules[p.rules], p.(rules := p.rules + 1);
    assert Look(t, ZoneChain(Input, r.src)) == Content(c, p, ZoneChain(Input, r.src));
    var before, after := c.rules[..p.rules], c.rules[..q.rules];
    assert after[..|after| - 1] == before && after[|after| - 1] == r;
    assert Targeted(after);
    assert Look(t, ch) == Content(c, p, ch);
    if ch.ZoneChain? && ch.hook.Input? {
      var cr, ca := CustomRules(before, ch.zone, c.logging), CustomRules(after, ch.zone, c.logging);
      assert cr + [] == cr && ca + [] == ca;
    } else {
      assert Content(c, q, ch) == Content(c, p, ch);
    }
  }

  lemma RuleBuilt(t: Table, c: Config, p: Progress)
    requires Built(t, c, p) && p.rules < |c.rules| && p.policies == {}
    requires c.rules[p.rules].src in p.zones && c.rules[p.rules].target.Some?
    ensures var r := c.rules[p.rules];
            && ZoneChain(Input, r.src) in t
            && Built(WithRule(t, ZoneChain(Input, r.src), GenerateCustomRule(r, c.logging)), c, p.(rules := p.rules + 1))
  {
    var r := c.rules[p.rules];
    RuleBuiltAt(t, c, p, Prerouting);
    forall ch ensures Look(WithRule(t, ZoneChain(Input, r.src), GenerateCustomRule(r, c.logging)), ch) ==
                      Content(c, p.(rules := p.rules + 1), ch)
    {
      RuleBuiltAt(t, c, p, ch);
    }
  }

  lemma ForwardBuilt(t: Table, c: Config, p: Progress)
    requires Built(t, c, p) && p.fwds < |c.forwardings| && p.policies == {} && Elems(p.zones) == c.zones.Keys
    ensures var f := c.forwardings[p.fwds];
            Built(Grown(t, ZoneChain(Forward, f.src), AcceptsOf(InterfacesIn(c.zones, f.src), c.logging)), c, p.(fwds := p.fwds + 1))
  {
    var f := c.forwardings[p.fwds];
    var t' := Grown(t, ZoneChain(Forward, f.src), AcceptsOf(InterfacesIn(c.zones, f.src), c.logging));
    forall ch ensures Look(t', ch) == Content(c, p.(fwds := p.fwds + 1), ch) {
      if ch == ZoneChain(Forward, f.src) {
        ForwardBuiltHere(t, c, p);
      } else {
        ForwardBuiltElsewhere(t, c, p, ch);
      }
    }
  }

  lemma ForwardBuiltHere(t: Table, c: Config, p: Progress)
    requires Built(t, c, p) && p.fwds < |c.forwardings| && p.policies == {} && Elems(p.zones) == c.zones.Keys
    ensures var f := c.forwardings[p.fwds];
            var ch := ZoneChain(Forward, f.src);
            Look(Grown(t, ch, AcceptsOf(InterfacesIn(c.zones, f.src), c.logging)), ch) == Content(c, p.(fwds := p.fwds + 1), ch)
  {
    var z := c.forwardings[p.fwds].src;
    var before, after := c.forwardings[..p.fwds], c.forwardings[..p.fwds + 1];
    assert after[..|after| - 1] == before;
    assert z in c.zones <==> z in Elems(p.zones);
    assert Look(t, ZoneChain(Forward, z)) == Content(c, p, ZoneChain(Forward, z));
    var fr, more := ForwardRules(before, c.zones, z, c.logging), AcceptsOf(InterfacesIn(c.zones, z), c.logging);
    assert fr + [] == fr && (fr + more) + [] == fr + more;
    GrownLook(t, ZoneChain(Forward, z), more);
  }

  lemma ForwardBuiltElsewhere(t: Table, c: Config, p: Progress, ch: Chain)
    requires Built(t, c, p) && p.fwds < |c.forwardings| && ch != ZoneChain(Forward, c.forwardings[p.fwds].src)
    ensures var f := c.forwardings[p.fwds];
            Look(Grown(t, ZoneChain(Forward, f.src), AcceptsOf(InterfacesIn(c.zones, f.src), c.logging)), ch) ==
            Content(c, p.(fwds := p.fwds + 1), ch)
  {
    var f := c.forwardings[p.fwds];
    var before, after := c.forwardings[..p.fwds], c.forwardings[..p.fwds + 1];
    assert after[..|after| - 1] == before;
    assert Look(t, ch) == Content(c, p, ch);
    GrownLook(t, ZoneChain(Forward, f.src), AcceptsOf(InterfacesIn(c.zones, f.src), c.logging));
    if ch.ZoneChain? && ch.hook.Forward? {
      var fr := ForwardRules(before, c.zones, ch.zone, c.logging);
      assert fr + [] == fr;
    }
  }

  // The postrouting chain need not exist while nothing is in it.
  function WithMasquerades(t: Table, natChain: bool, interfaces: seq<string>): Table {
    Grown(if natChain then WithChain(t, Postrouting) else t, Postrouting, MasqueradesOf(interfaces))
  }

  lemma MasqueradeBuilt(t: Table, c: Config, p: Progress, z: string, natChain: bool)
    requires Built(t, c, p) && z in c.zones && (p.natChain ==> natChain)
    requires c.zones[z].interfaces != [] ==> natChain
    ensures Built(WithMasquerades(t, natChain, c.zones[z].interfaces), c, p.(masq := p.masq + [z], natChain := natChain))
  {
    var q := p.(masq := p.masq + [z], natChain := natChain);
    var m := MasqueradesOf(c.zones[z].interfaces);
    var t' := WithMasquerades(t, natChain, c.zones[z].interfaces);
    assert q.masq[..|q.masq| - 1] == p.masq;
    assert Masquerades(c.zones, q.masq) == Masquerades(c.zones, p.masq) + m;
    forall ch ensures Look(t', ch) == Content(c, q, ch) {
      assert Look(t, ch) == Content(c, p, ch);
      if ch == Postrouting {
        assert [] + m == m;
        assert Masquerades(c.zones, p.masq) + [] == Masquerades(c.zones, p.masq);
      }
    }
  }

  function WithPortForward(t: Table, pf: PortForward, l: LoggingConfig): Table
    requires BaseChain(Forward) in t
  {
    var t1 := WithRule(WithChain(t, Prerouting), Prerouting, GeneratePortForwardDNATRule(pf));
    WithRule(t1, BaseChain(Forward), GeneratePortForwardFilterRule(pf, l))
  }

  lemma PortForwardBase(t: Table, c: Config, p: Progress)
    requires Built(t, c, p) && p.pfs < |c.portForwards|
    ensures BaseChain(Forward) in t
    ensures var t' := if c.portForwards[p.pfs].enabled then WithPortForward(t, c.portForwards[p.pfs], c.logging) else t;
            Look(t', BaseChain(Forward)) == Content(c, p.(pfs := p.pfs + 1), BaseChain(Forward))
  {
    assert Look(t, BaseChain(Forward)) == Content(c, p, BaseChain(Forward));
    var before, after := c.portForwards[..p.pfs], c.portForwards[..p.pfs + 1];
    assert after[..|after| - 1] == before;
    var e, f := [ESTABLISHED_RULE] + Jumps(c.zones, p.zones, Forward), PortForwardFilters(before, c.logging);
    var x := GeneratePortForwardFilterRule(c.portForwards[p.pfs], c.logging);
    assert (e + f) + [x] == e + (f + [x]) && f + [] == f;
  }

  lemma PortForwardNat(t: Table, c: Config, p: Progress)
    requires Built(t, c, p) && p.pfs < |c.portForwards| && BaseChain(Forward) in t
    ensures var t' := if c.portForwards[p.pfs].enabled then WithPortForward(t, c.portForwards[p.pfs], c.logging) else t;
            Look(t', Prerouting) == Content(c, p.(pfs := p.pfs + 1), Prerouting)
  {
    assert Look(t, Prerouting) == Content(c, p, Prerouting);
    var before, after := c.portForwards[..p.pfs], c.portForwards[..p.pfs + 1];
    assert after[..|after| - 1] == before;
    var d, y := Dnats(before), GeneratePortForwardDNATRule(c.portForwards[p.pfs]);
    assert d + [] == d && [] + [y] == [y];
    assert d == [] ==> d + [y] == [y];
  }

  lemma PortForwardBuilt(t: Table, c: Config, p: Progress)
    requires Built(t, c, p) && p.pfs < |c.portForwards|
    ensures BaseChain(Forward) in t
    ensures var pf := c.portForwards[p.pfs];
            Built(if pf.enabled then WithPortForward(t, pf, c.logging) else t, c, p.(pfs := p.pfs + 1))
  {
    var pf, q := c.portForwards[p.pfs], p.(pfs := p.pfs + 1);
    PortForwardBase(t, c, p);
    PortForwardNat(t, c, p);
    var t' := if pf.enabled then WithPortForward(t, pf, c.logging) else t;
    forall ch ensures Look(t', ch) == Content(c, q, ch) {
      if ch != Prerouting && ch != BaseChain(Forward) { PortForwardElsewhere(t, c, p, ch); }
    }
  }

  lemma PortForwardElsewhere(t: Table, c: Config, p: Progress, ch: Chain)
    requires Built(t, c, p) && p.pfs < |c.portForwards| && BaseChain(Forward) in t
    requires ch != Prerouting && ch != BaseChain(Forward)
    ensures var pf := c.portForwards[p.pfs];
            Look(if pf.enabled then WithPortForward(t, pf, c.logging) else t, ch) == Content(c, p.(pfs := p.pfs + 1), ch)
  {
    assert Look(t, ch) == Content(c, p, ch);
  }

  function WithPolicies(t: Table, z: string, zone: Zone, l: LoggingConfig): Table
    requires ZoneChain(Input, z) in t && ZoneChain(Forward, z) in t && zone.input.Some? && zone.forward.Some?
  {
    var t1 := WithRule(t, ZoneChain(Input, z), PolicyRule(zone.input.value, l));
    WithRule(t1, ZoneChain(Forward, z), PolicyRule(zone.forward.value, l))
  }

  lemma PoliciesBuilt(t: Table, c: Config, p: Progress, z: string)
    requires Built(t, c, p) && z in c.zones && z !in p.policies && z in p.zones
    requires c.zones[z].input.Some? && c.zones[z].forward.Some?
    ensures ZoneChain(Input, z) in t && ZoneChain(Forward, z) in t
    ensures Built(WithPolicies(t, z, c.zones[z], c.logging), c, p.(policies := p.policies + {z}))
  {
    var q := p.(policies := p.policies + {z});
    assert Look(t, ZoneChain(Input, z)) == Content(c, p, ZoneChain(Input, z));
    assert Look(t, ZoneChain(Forward, z)) == Content(c, p, ZoneChain(Forward, z));
    var t' := WithPolicies(t, z, c.zones[z], c.logging);
    forall ch ensures Look(t', ch) == Content(c, q, ch) {
      assert Look(t, ch) == Content(c, p, ch);
      if ch == ZoneChain(Input, z) {
        var cr := CustomRules(c.rules[..p.rules], z, c.logging);
        assert cr + [] == cr;
      } else if ch == ZoneChain(Forward, z) {
        var fr := ForwardRules(c.forwardings[..p.fwds], c.zones, z, c.logging);
        assert fr + [] == fr;
      }
    }
  }

  // ----- tables left behind by a build that stops half-way -----

  // The forward chain of a finished zone ends with its policy, a rule for every packet.
  predicate EndsWithPolicy(t: Table, z: string) {
    var ch := ZoneChain(Forward, z);
    ch in t && t[ch] != [] && t[ch][|t[ch]| - 1].matches == []
  }

  predicate HalfDone(t: Table, z: string) {
    ZoneChain(Input, z) in t && !EndsWithPolicy(t, z)
  }

  predicate NoZoneChains(t: Table) {
    forall ch <- t :: !ch.ZoneChain?
  }

  ghost predicate HasHalfDone(t: Table) {
    exists z :: HalfDone(t, z)
  }

  // Where a build with or without zones can have stopped.
  ghost predicate Stopped(t: Table, zoneless: bool) {
    if zoneless then NoZoneChains(t) else HasHalfDone(t)
  }

  ghost predicate Unfinished(t: Table) {
    NoZoneChains(t) || HasHalfDone(t)
  }

  lemma CompiledZonesAreFinished(t: Table, d: Config)
    requires IsCompilation(t, d)
    ensures forall z :: ZoneChain(Input, z) in t <==> z in d.zones
    ensures forall z <- d.zones :: EndsWithPolicy(t, z)
  {
    var zo, mo, nc :| Orders(d, zo, mo) && Built(t, d, Complete(d, zo, mo, nc));
    var pr := Complete(d, zo, mo, nc);
    forall z ensures (ZoneChain(Input, z) in t <==> z in d.zones) && (z in d.zones ==> EndsWithPolicy(t, z)) {
      assert Look(t, ZoneChain(Input, z)) == Content(d, pr, ZoneChain(Input, z));
      assert Look(t, ZoneChain(Forward, z)) == Content(d, pr, ZoneChain(Forward, z));
      assert z in zo <==> z in Elems(zo);
    }
  }

  // A table with a half-done zone is the compilation of no configuration, one without zone chains of
  // none that has zones.
  lemma UnfinishedIsNoCompilation(t: Table, d: Config)
    requires Unfinished(t)
    ensures IsCompilation(t, d) ==> NoZoneChains(t) && !HasHalfDone(t) && d.zones == map[]
  {
    if IsCompilation(t, d) {
      CompiledZonesAreFinished(t, d);
      assert forall z <- d.zones :: ZoneChain(Input, z) in t;
    }
  }

  // The table that holds nothing but the global rule compiles exactly the configurations that have
  // neither zones nor port forwards to enable.
  lemma GlobalRuleAloneCompiles(d: Config)
    ensures IsCompilation(GLOBAL_RULE_TABLE, d) <==> GlobalRuleOnly(d)
  {
    if zo, mo, nc :| Orders(d, zo, mo) && Built(GLOBAL_RULE_TABLE, d, Complete(d, zo, mo, nc)) {
      var pr := Complete(d, zo, mo, nc);
      UnfinishedIsNoCompilation(GLOBAL_RULE_TABLE, d);
      NoneEnabled(d.portForwards, d.logging);
      assert d.rules[..|d.rules|] == d.rules && d.portForwards[..|d.portForwards|] == d.portForwards;
      assert Look(GLOBAL_RULE_TABLE, Prerouting) == Content(d, pr, Prerouting);
    }
    if GlobalRuleOnly(d) { GlobalRuleIsBuilt(d); }
  }

  lemma GlobalRuleIsBuilt(d: Config)
    requires GlobalRuleOnly(d)
    ensures IsCompilation(GLOBAL_RULE_TABLE, d)
  {
    var pr := Complete(d, [], [], false);
    NoneEnabled(d.portForwards, d.logging);
    assert d.rules[..|d.rules|] == d.rules && d.portForwards[..|d.portForwards|] == d.portForwards;
    forall ch ensures Look(GLOBAL_RULE_TABLE, ch) == Content(d, pr, ch) {
      assert [ESTABLISHED_RULE] + [] + [] == [ESTABLISHED_RULE];
    }
    assert Orders(d, [], []) && Built(GLOBAL_RULE_TABLE, d, pr);
  }

  lemma {:induction false} NoneEnabled(pfs: seq<PortForward>, l: LoggingConfig)
    ensures Dnats(pfs) == [] <==> forall pf <- pfs :: !pf.enabled
    ensures Dnats(pfs) == [] ==> PortForwardFilters(pfs, l) == []
  {
    if pfs != [] {
      NoneEnabled(pfs[..|pfs| - 1], l);
      assert pfs == pfs[..|pfs| - 1] + [pfs[|pfs| - 1]];
    }
  }

  lemma {:induction false} ForwardRulesAreMatched(fwds: seq<Forwarding>, zones: map<string, Zone>, z: string, l: LoggingConfig)
    ensures forall r <- ForwardRules(fwds, zones, z, l) :: r.matches != []
  {
    if fwds != [] {
      ForwardRulesAreMatched(fwds[..|fwds| - 1], zones, z, l);
      AcceptsAreMatched(InterfacesIn(zones, z), l);
    }
  }

  lemma AcceptsAreMatched(interfaces: seq<string>, l: LoggingConfig)
    ensures forall r <- AcceptsOf(interfaces, l) :: r.matches != []
  {
    forall r | r in AcceptsOf(interfaces, l) ensures r.matches != [] {
      var i :| 0 <= i < |interfaces| && AcceptsOf(interfaces, l)[i] == r;
    }
  }

  // Until its policies are in, a zone is half-done.
  lemma WithoutPolicyHalfDone(t: Table, c: Config, p: Progress, z: string)
    requires Built(t, c, p) && z in p.zones && z !in p.policies
    ensures HalfDone(t, z)
  {
    var rules := ForwardRules(c.forwardings[..p.fwds], c.zones, z, c.logging);
    assert rules + [] == rules;
    assert Look(t, ZoneChain(Input, z)) == Content(c, p, ZoneChain(Input, z));
    assert Look(t, ZoneChain(Forward, z)) == Content(c, p, ZoneChain(Forward, z));
    ForwardRulesAreMatched(c.forwardings[..p.fwds], c.zones, z, c.logging);
  }

  // Before any policy is in, the table is unfinished.
  lemma WithoutPoliciesUnfinished(t: Table, c: Config, p: Progress)
    requires Built(t, c, p) && p.policies == {}
    ensures Stopped(t, p.zones == []) && Unfinished(t)
  {
    if p.zones != [] {
      WithoutPolicyHalfDone(t, c, p, p.zones[0]);
    } else {
      forall ch | ch in t ensures !ch.ZoneChain? { assert Look(t, ch) == Content(c, p, ch); }
    }
  }

  // Commands that leave the zone chains alone finish no zone.
  ghost predicate SameZoneChains(t: Table, t': Table) {
    forall ch: Chain | ch.ZoneChain? :: Look(t', ch) == Look(t, ch)
  }

  lemma StaysStopped(t: Table, t': Table, zoneless: bool)
    requires Stopped(t, zoneless) && SameZoneChains(t, t')
    ensures Stopped(t', zoneless)
  {
    if !zoneless {
      var z :| HalfDone(t, z);
      assert Look(t', ZoneChain(Input, z)) == Look(t, ZoneChain(Input, z));
      assert Look(t', ZoneChain(Forward, z)) == Look(t, ZoneChain(Forward, z));
      assert HalfDone(t', z);
    } else {
      forall ch | ch in t' ensures !ch.ZoneChain? { assert ch.ZoneChain? ==> Look(t', ch) == Look(t, ch); }
    }
  }

  lemma ListsNothing(order: seq<string>, zones: map<string, Zone>)
    requires Lists(order, zones.Keys)
    ensures order == [] <==> zones == map[]
  {
    if order != [] { assert order[0] in Elems(order); }
    if zones != map[] {
      var z :| z in zones;
      assert z in Elems(order);
    }
  }

  predicate GlobalRuleOnly(d: Config) {
    d.zones == map[] && Targeted(d.rules) && forall pf <- d.portForwards :: !pf.enabled
  }

  const GLOBAL_RULE_TABLE: Table := map[BaseChain(Forward) := [ESTABLISHED_RULE]]

  lemma AcceptsFinishNothing(t: Table, z: string, interfaces: seq<string>, l: LoggingConfig)
    requires HalfDone(t, z)
    ensures HalfDone(Grown(t, ZoneChain(Forward, z), AcceptsOf(interfaces, l)), z)
  {
    AcceptsAreMatched(interfaces, l);
  }

  // ----- the provider -----

  class FirewallProvider {
    const nft: Nft
    const diskReliable: bool         // whether the hash file can always be written
    var storedHash: Option<Config>   // a hash without collisions stands for the configuration itself
    var loggingConfig: LoggingConfig

    constructor (nft: Nft, diskReliable: bool)
      ensures this.nft == nft && this.diskReliable == diskReliable && storedHash == None
    {
      this.nft := nft;
      this.diskReliable := diskReliable;
      storedHash := None;
      loggingConfig := LoggingConfig(false, false, false);
    }

    // A stored hash and an existing table agree.
    ghost predicate Consistent()
      reads this, nft
    {
      storedHash.Some? && nft.table.Some? ==> IsCompilation(nft.table.value, storedHash.value)
    }

    ghost predicate HashHasZones()
      reads this
    {
      storedHash.Some? && storedHash.value.zones != map[]
    }

    ghost predicate Unchanged(c: Config)
      reads this, nft
    {
      storedHash == Some(c) && nft.table.Some?
    }

    method SaveConfigHash(c: Config) returns (ok: bool)
      modifies this`storedHash
      ensures storedHash == if ok then Some(c) else old(storedHash)
      ensures diskReliable ==> ok
    {
      if diskReliable {
        ok := true;
      } else {
        ok := *;
      }
      if ok { storedHash := Some(c); }
    }

    method Flush()
      modifies nft
      ensures nft.table == None && Consistent()
    {
      nft.DeleteTable();
    }

    // A base chain is created on first use.
    method AddRule(ch: Chain, r: NftRule) returns (ok: bool)
      requires nft.table.Some?
      modifies nft
      ensures nft.table.Some?
      ensures var t := old(nft.table).value;
              var base := if ch.BaseChain? then WithChain(t, ch) else t;
              && (ok ==> ch in base && nft.table.value == WithRule(base, ch, r))
              && (!ok ==> nft.table.value == t || nft.table.value == base)
              && (nft.reliable ==> (ok <==> ch in base))
    {
      if ch.BaseChain? { var _ := nft.AddChain(ch); }
      ok := nft.AddRule(ch, r);
    }

    method AddGlobalRules() returns (ok: bool)
      requires nft.table == Some(map[])
      modifies nft
      ensures nft.table.Some?
      ensures ok ==> nft.table.value == map[BaseChain(Forward) := [ESTABLISHED_RULE]]
      ensures !ok ==> NoZoneChains(nft.table.value)
      ensures nft.reliable ==> ok
    {
      ok := AddRule(BaseChain(Forward), ESTABLISHED_RULE);
      assert ok ==> nft.table.value == WithRule(WithChain(map[], BaseChain(Forward)), BaseChain(Forward), ESTABLISHED_RULE);
      assert [] + [ESTABLISHED_RULE] == [ESTABLISHED_RULE];
    }

    method CreateZoneChains(z: string, zone: Zone) returns (ok: bool)
      requires nft.table.Some? && forall h :: ZoneChain(h, z) !in nft.table.value
      modifies nft
      ensures nft.table.Some?
      ensures ok ==> nft.table.value == WithJumps(ZoneChains(old(nft.table).value, z), z, zone.interfaces)
      ensures !ok ==> nft.table == old(nft.table) || HalfDone(nft.table.value, z)
      ensures nft.reliable ==> ok
    {
      ok := nft.AddChain(ZoneChain(Input, z));
      if !ok { return; }
      ok := nft.AddChain(ZoneChain(Forward, z));
      if !ok { return; }
      ok := nft.AddChain(ZoneChain(Output, z));
      if !ok { return; }
      ghost var t := nft.table.value;
      for i := 0 to |zone.interfaces|
        invariant nft.table == Some(WithJumps(t, z, zone.interfaces[..i])) && HalfDone(nft.table.value, z)
      {
        JumpOne(t, z, zone.interfaces, i);
        ok := AddRule(BaseChain(Input), NftRule([IifName(zone.interfaces[i])], None, Jump(ZoneChain(Input, z))));
        if !ok { return; }
        ok := AddRule(BaseChain(Forward), NftRule([IifName(zone.interfaces[i])], None, Jump(ZoneChain(Forward, z))));
        if !ok { return; }
      }
      assert zone.interfaces[..|zone.interfaces|] == zone.interfaces;
      ok := true;
    }

    // A target that is no policy makes a rule nft does not parse.
    method ApplyRule(r: Rule) returns (ok: bool)
      requires nft.table.Some?
      modifies nft
      ensures nft.table.Some?
      ensures ok ==> r.target.Some? && ZoneChain(Input, r.src) in old(nft.table).value
      ensures ok ==> nft.table.value ==
                     WithRule(old(nft.table).value, ZoneChain(Input, r.src), GenerateCustomRule(r, loggingConfig))
      ensures !ok ==> nft.table == old(nft.table)
      ensures nft.reliable && r.target.Some? && ZoneChain(Input, r.src) in old(nft.table).value ==> ok
    {
      if r.target.None? { return false; }
      ok := AddRule(ZoneChain(Input, r.src), GenerateCustomRule(r, loggingConfig));
    }

    method ApplyForwarding(f: Forwarding, zones: map<string, Zone>) returns (ok: bool)
      requires nft.table.Some?
      requires InterfacesIn(zones, f.src) != [] ==> ZoneChain(Forward, f.src) in nft.table.value
      modifies nft
      ensures nft.table.Some?
      ensures ok ==> nft.table.value ==
                     Grown(old(nft.table).value, ZoneChain(Forward, f.src), AcceptsOf(InterfacesIn(zones, f.src), loggingConfig))
      ensures !ok ==> f.src in zones && (HalfDone(old(nft.table).value, f.src) ==> HalfDone(nft.table.value, f.src))
      ensures nft.reliable ==> ok
    {
      var interfaces := if f.src in zones then zones[f.src].interfaces else [];
      ghost var t := nft.table.value;
      for i := 0 to |interfaces|
        invariant nft.table == Some(Grown(t, ZoneChain(Forward, f.src), AcceptsOf(interfaces[..i], loggingConfig)))
      {
        var rule := NftRule([IifName(interfaces[i])], LogFor(Accept, loggingConfig), Verdict(Accept));
        assert AcceptsOf(interfaces[..i + 1], loggingConfig) == AcceptsOf(interfaces[..i], loggingConfig) + [rule];
        GrowOne(t, ZoneChain(Forward, f.src), AcceptsOf(interfaces[..i], loggingConfig), rule);
        ok := AddRule(ZoneChain(Forward, f.src), rule);
        if !ok {
          if HalfDone(t, f.src) { AcceptsFinishNothing(t, f.src, interfaces[..i], loggingConfig); }
          return;
        }
      }
      assert interfaces[..|interfaces|] == interfaces;
      ok := true;
    }

    // Failing to create the chain goes unnoticed until a rule is added to it.
    method ApplyMasquerade(zone: Zone) returns (ok: bool)
      requires nft.table.Some?
      modifies nft
      ensures nft.table.Some?
      ensures ok ==>
                var natChain := Postrouting in nft.table.value;
                && (zone.interfaces != [] || Postrouting in old(nft.table).value ==> natChain)
                && nft.table.value == WithMasquerades(old(nft.table).value, natChain, zone.interfaces)
      ensures !ok ==> SameZoneChains(old(nft.table).value, nft.table.value)
      ensures nft.reliable ==> ok
    {
      var _ := nft.AddChain(Postrouting);
      ghost var t := nft.table.value;
      for i := 0 to |zone.interfaces|
        invariant nft.table == Some(Grown(t, Postrouting, MasqueradesOf(zone.interfaces[..i])))
        invariant i > 0 ==> Postrouting in t
      {
        var rule := NftRule([OifName(zone.interfaces[i])], None, Masquerade);
        assert MasqueradesOf(zone.interfaces[..i + 1]) == MasqueradesOf(zone.interfaces[..i]) + [rule];
        GrowOne(t, Postrouting, MasqueradesOf(zone.interfaces[..i]), rule);
        ok := AddRule(Postrouting, rule);
        if !ok { return; }
      }
      assert zone.interfaces[..|zone.interfaces|] == zone.interfaces;
      ok := true;
    }

    method ApplyPortForward(pf: PortForward) returns (ok: bool)
      requires nft.table.Some? && BaseChain(Forward) in nft.table.value
      modifies nft
      ensures nft.table.Some?
      ensures ok ==> nft.table.value == WithPortForward(old(nft.table).value, pf, loggingConfig)
      ensures !ok ==> SameZoneChains(old(nft.table).value, nft.table.value)
      ensures nft.reliable ==> ok
    {
      var _ := nft.AddChain(Prerouting);
      ok := AddRule(Prerouting, GeneratePortForwardDNATRule(pf));
      if !ok { return; }
      ok := AddRule(BaseChain(Forward), GeneratePortForwardFilterRule(pf, loggingConfig));
    }

    method ApplyZonePolicies(z: string, zone: Zone) returns (ok: bool)
      requires nft.table.Some? && ZoneChain(Input, z) in nft.table.value && ZoneChain(Forward, z) in nft.table.value
      modifies nft
      ensures nft.table.Some?
      ensures ok ==> zone.input.Some? && zone.forward.Some? &&
                     nft.table.value == WithPolicies(old(nft.table).value, z, zone, loggingConfig)
      ensures !ok && HalfDone(old(nft.table).value, z) ==> HalfDone(nft.table.value, z)
      ensures nft.reliable ==> (ok <==> zone.input.Some? && zone.forward.Some?)
    {
      if zone.input.None? { return false; }
      ok := AddRule(ZoneChain(Input, z), PolicyRule(zone.input.value, loggingConfig));
      if !ok { return; }
      if zone.forward.None? { return false; }
      ok := AddRule(ZoneChain(Forward, z), PolicyRule(zone.forward.value, loggingConfig));
    }

    // Zones are visited three times, each time in no particular order.
    method CreateAllZones(c: Config) returns (ok: bool, ghost p: Progress)
      requires nft.table.Some? && Built(nft.table.value, c, START)
      modifies nft
      ensures nft.table.Some?
      ensures ok ==> Lists(p.zones, c.zones.Keys) && p == START.(zones := p.zones) && Built(nft.table.value, c, p)
      ensures !ok ==> Unfinished(nft.table.value)
      ensures c.zones == map[] ==> nft.table == old(nft.table)
      ensures nft.reliable ==> ok
    {
      p := START;
      var todo := c.zones.Keys;
      while todo != {}
        invariant todo <= c.zones.Keys && Lists(p.zones, c.zones.Keys - todo) && p == START.(zones := p.zones)
        invariant nft.table.Some? && Built(nft.table.value, c, p)
        invariant c.zones == map[] ==> nft.table == old(nft.table)
        decreases todo
      {
        var z :| z in todo;
        assert z !in Elems(p.zones);
        assert ZoneIsNext(nft.table.value, c, p, z);
        ZoneBuilt(nft.table.value, c, p, z);
        ListsSnoc(p.zones, c.zones.Keys - todo, z);
        WithoutPoliciesUnfinished(nft.table.value, c, p);
        forall h ensures ZoneChain(h, z) !in nft.table.value {
          assert Look(nft.table.value, ZoneChain(h, z)) == Content(c, p, ZoneChain(h, z));
        }
        ok := CreateZoneChains(z, c.zones[z]);
        if !ok { return; }
        assert c.zones.Keys - (todo - {z}) == c.zones.Keys - todo + {z};
        p, todo := p.(zones := p.zones + [z]), todo - {z};
      }
      assert c.zones.Keys - {} == c.zones.Keys;
      ok := true;
    }

    method ApplyRules(c: Config, ghost p0: Progress) returns (ok: bool, ghost p: Progress)
      requires nft.table.Some? && Built(nft.table.value, c, p0) && loggingConfig == c.logging
      requires Lists(p0.zones, c.zones.Keys) && p0 == START.(zones := p0.zones)
      modifies nft
      ensures nft.table.Some?
      ensures ok ==> p == p0.(rules := |c.rules|) && Built(nft.table.value, c, p)
      ensures ok ==> forall r <- c.rules :: r.src in c.zones && r.target.Some?
      ensures !ok ==> Stopped(nft.table.value, c.zones == map[])
      ensures !ok && c.zones == map[] ==> nft.table == old(nft.table)
      ensures nft.reliable && (forall r <- c.rules :: r.src in c.zones && r.target.Some?) ==> ok
    {
      p := p0;
      ListsNothing(p0.zones, c.zones);
      for i := 0 to |c.rules|
        invariant nft.table.Some? && p == p0.(rules := i) && Built(nft.table.value, c, p)
        invariant c.zones == map[] ==> i == 0 && nft.table == old(nft.table)
        invariant forall r <- c.rules[..i] :: r.src in c.zones && r.target.Some?
      {
        var r := c.rules[i];
        assert c.rules[..i + 1] == c.rules[..i] + [r];
        assert r in c.rules;
        ghost var t := nft.table.value;
        assert Look(t, ZoneChain(Input, r.src)) == Content(c, p, ZoneChain(Input, r.src));
        assert r.src in p.zones <==> r.src in Elems(p.zones);
        WithoutPoliciesUnfinished(t, c, p);
        ok := ApplyRule(r);
        if !ok { return; }
        RuleBuilt(t, c, p);
        p := p.(rules := i + 1);
      }
      assert c.rules[..|c.rules|] == c.rules;
      ok := true;
    }

    method ApplyForwardings(c: Config, ghost p0: Progress) returns (ok: bool, ghost p: Progress)
      requires nft.table.Some? && Built(nft.table.value, c, p0) && loggingConfig == c.logging
      requires Lists(p0.zones, c.zones.Keys) && p0.fwds == 0 && p0.policies == {}
      modifies nft
      ensures nft.table.Some?
      ensures ok ==> p == p0.(fwds := |c.forwardings|) && Built(nft.table.value, c, p)
      ensures !ok ==> c.zones != map[] && HasHalfDone(nft.table.value)
      ensures nft.reliable ==> ok
    {
      p := p0;
      for i := 0 to |c.forwardings|
        invariant nft.table.Some? && p == p0.(fwds := i) && Built(nft.table.value, c, p)
      {
        var f := c.forwardings[i];
        assert Look(nft.table.value, ZoneChain(Forward, f.src)) == Content(c, p, ZoneChain(Forward, f.src));
        assert f.src in p.zones <==> f.src in Elems(p.zones);
        ForwardBuilt(nft.table.value, c, p);
        if f.src in c.zones { WithoutPolicyHalfDone(nft.table.value, c, p, f.src); }
        ok := ApplyForwarding(f, c.zones);
        if !ok { return; }
        p := p.(fwds := i + 1);
      }
      ok := true;
    }

    method ApplyMasquerades(c: Config, ghost p0: Progress) returns (ok: bool, ghost p: Progress)
      requires nft.table.Some? && Built(nft.table.value, c, p0) && p0.masq == [] && p0.policies == {}
      requires Lists(p0.zones, c.zones.Keys)
      modifies nft
      ensures nft.table.Some?
      ensures ok ==> p == p0.(masq := p.masq, natChain := p.natChain) && Built(nft.table.value, c, p)
      ensures ok ==> Lists(p.masq, set z | z in c.zones && c.zones[z].masquerade)
      ensures !ok ==> Stopped(nft.table.value, c.zones == map[])
      ensures nft.reliable ==> ok
    {
      p := p0;
      ListsNothing(p0.zones, c.zones);
      ghost var wanted := set z | z in c.zones && c.zones[z].masquerade;
      var todo := c.zones.Keys;
      while todo != {}
        invariant todo <= c.zones.Keys && p == p0.(masq := p.masq, natChain := p.natChain) && Lists(p.masq, wanted - todo)
        invariant nft.table.Some? && Built(nft.table.value, c, p)
        decreases todo
      {
        var z :| z in todo;
        if c.zones[z].masquerade {
          ghost var t := nft.table.value;
          WithoutPoliciesUnfinished(t, c, p);
          ok := ApplyMasquerade(c.zones[z]);
          if !ok {
            StaysStopped(t, nft.table.value, c.zones == map[]);
            return;
          }
          ghost var natChain := Postrouting in nft.table.value;
          assert Look(t, Postrouting) == Content(c, p, Postrouting);
          MasqueradeBuilt(t, c, p, z, natChain);
          ListsSnoc(p.masq, wanted - todo, z);
          assert wanted - (todo - {z}) == wanted - todo + {z};
          p := p.(masq := p.masq + [z], natChain := natChain);
        } else {
          assert wanted - (todo - {z}) == wanted - todo;
        }
        todo := todo - {z};
      }
      assert wanted - {} == wanted;
      ok := true;
    }

    method ApplyPortForwards(c: Config, ghost p0: Progress) returns (ok: bool, ghost p: Progress)
      requires nft.table.Some? && Built(nft.table.value, c, p0) && loggingConfig == c.logging
      requires p0.pfs == 0 && p0.policies == {} && Lists(p0.zones, c.zones.Keys)
      modifies nft
      ensures nft.table.Some?
      ensures ok ==> p == p0.(pfs := |c.portForwards|) && Built(nft.table.value, c, p)
      ensures !ok ==> Stopped(nft.table.value, c.zones == map[])
      ensures nft.reliable ==> ok
    {
      p := p0;
      ListsNothing(p0.zones, c.zones);
      for i := 0 to |c.portForwards|
        invariant nft.table.Some? && p == p0.(pfs := i) && Built(nft.table.value, c, p)
      {
        if c.portForwards[i].enabled {
          ok := ApplyEnabled(c, i, p);
          if !ok { return; }
        } else {
          PortForwardBuilt(nft.table.value, c, p);
        }
        p := p.(pfs := i + 1);
      }
      ok := true;
    }

    method ApplyEnabled(c: Config, i: nat, ghost p: Progress) returns (ok: bool)
      requires nft.table.Some? && Built(nft.table.value, c, p) && loggingConfig == c.logging
      requires p.pfs == i < |c.portForwards| && c.portForwards[i].enabled && p.policies == {}
      modifies nft
      ensures nft.table.Some?
      ensures ok ==> Built(nft.table.value, c, p.(pfs := i + 1))
      ensures !ok ==> Stopped(nft.table.value, p.zones == [])
      ensures nft.reliable ==> ok
    {
      ghost var t := nft.table.value;
      PortForwardBuilt(t, c, p);
      WithoutPoliciesUnfinished(t, c, p);
      ok := ApplyPortForward(c.portForwards[i]);
      if !ok { StaysStopped(t, nft.table.value, p.zones == []); }
    }

    method ApplyDefaultPolicies(c: Config, ghost p0: Progress) returns (ok: bool, ghost p: Progress)
      requires nft.table.Some? && Built(nft.table.value, c, p0) && loggingConfig == c.logging
      requires p0.policies == {} && Lists(p0.zones, c.zones.Keys)
      modifies nft
      ensures nft.table.Some?
      ensures ok ==> p == p0.(policies := c.zones.Keys) && Built(nft.table.value, c, p)
      ensures ok ==> forall z <- c.zones :: c.zones[z].input.Some? && c.zones[z].forward.Some?
      ensures !ok ==> c.zones != map[] && HasHalfDone(nft.table.value)
      ensures nft.reliable && (forall z <- c.zones :: c.zones[z].input.Some? && c.zones[z].forward.Some?) ==> ok
    {
      p := p0;
      var todo := c.zones.Keys;
      while todo != {}
        invariant todo <= c.zones.Keys && p == p0.(policies := c.zones.Keys - todo)
        invariant nft.table.Some? && Built(nft.table.value, c, p)
        decreases todo
      {
        var z :| z in todo;
        assert z in Elems(p.zones);
        ghost var t := nft.table.value;
        WithoutPolicyHalfDone(t, c, p, z);
        assert Look(t, ZoneChain(Forward, z)) == Content(c, p, ZoneChain(Forward, z));
        ok := ApplyZonePolicies(z, c.zones[z]);
        if !ok { return; }
        PoliciesBuilt(t, c, p, z);
        assert c.zones.Keys - (todo - {z}) == c.zones.Keys - todo + {z};
        p, todo := p.(policies := p.policies + {z}), todo - {z};
      }
      assert c.zones.Keys - {} == c.zones.Keys;
      ok := true;
    }

    // Rebuild unless the stored hash matches and the table exists.  On success the table is a
    // compilation of the configuration, provided hash and table agreed before; on failure it is
    // unfinished, if it exists at all.  A reliable nft refuses exactly the configurations that cannot
    // be compiled.
    method ApplyConfig(c: Config) returns (ok: bool)
      modifies this, nft
      ensures loggingConfig == c.logging
      ensures old(storedHash == Some(c) && nft.table.Some?) ==> ok && storedHash == old(storedHash) && nft.table == old(nft.table)
      ensures !old(Unchanged(c)) && ok ==>
                && Compilable(c) && nft.table.Some? && IsCompilation(nft.table.value, c)
                && storedHash in {Some(c), old(storedHash)} && (diskReliable ==> storedHash == Some(c))
      ensures !ok ==> storedHash == old(storedHash) && (nft.table.Some? ==> Unfinished(nft.table.value))
      ensures !old(Unchanged(c)) && nft.reliable ==> (ok <==> Compilable(c)) && nft.table.Some?
      ensures old(storedHash != Some(c) || nft.table.None?) && nft.reliable ==>
                (ok <==> (forall z <- c.zones :: c.zones[z].input.Some? && c.zones[z].forward.Some?) &&
                         forall r <- c.rules :: r.src in c.zones && r.target.Some?)
      ensures nft.reliable && !ok ==>
                if c.zones == map[] then nft.table.value == GLOBAL_RULE_TABLE else HasHalfDone(nft.table.value)
      ensures ok && old(Consistent()) ==> nft.table.Some? && IsCompilation(nft.table.value, c)
      ensures old(Consistent()) && diskReliable && old(HashHasZones()) ==> (Consistent() <==> ok || nft.table == None)
    {
      loggingConfig := c.logging;
      if storedHash == Some(c) {
        var standing := nft.TableExists();
        if standing { return true; }
      }
      Flush();
      ok := Rebuild(c);
      if ok {
        var _ := SaveConfigHash(c);
      } else if nft.table.Some? && storedHash.Some? {
        UnfinishedIsNoCompilation(nft.table.value, storedHash.value);
      }
    }

    method Rebuild(c: Config) returns (ok: bool)
      requires nft.table == None && loggingConfig == c.logging
      modifies nft
      ensures ok ==> Compilable(c) && nft.table.Some? && IsCompilation(nft.table.value, c)
      ensures !ok && nft.table.Some? ==> Unfinished(nft.table.value)
      ensures nft.reliable ==> (ok <==> Compilable(c)) && nft.table.Some?
      ensures nft.reliable && !ok ==>
                if c.zones == map[] then nft.table.value == GLOBAL_RULE_TABLE else HasHalfDone(nft.table.value)
    {
      ok := nft.AddTable();
      if !ok { return; }
      ok := AddGlobalRules();
      if !ok { return; }
      BuiltStart(c);
      ghost var p;
      ok, p := CreateAllZones(c);
      if !ok { return; }
      ok, p := ApplyRules(c, p);
      if !ok { return; }
      ok, p := ApplyForwardings(c, p);
      if !ok { return; }
      ok, p := ApplyMasquerades(c, p);
      if !ok { return; }
      ok, p := ApplyPortForwards(c, p);
      if !ok { return; }
      ok, p := ApplyDefaultPolicies(c, p);
      if !ok { return; }
      assert p == Complete(c, p.zones, p.masq, p.natChain) && Orders(c, p.zones, p.masq);
    }

    // Rolling the plugin back: flush, then apply what was applied last, if anything.  A failure is
    // logged and leaves whatever the build has come to.
    method RollBack(previous: Option<Config>) returns (restored: bool)
      modifies this, nft
      ensures restored ==> previous.Some? && nft.table.Some? && IsCompilation(nft.table.value, previous.value)
      ensures restored && diskReliable ==> storedHash == previous
      ensures !restored ==> storedHash == old(storedHash) && (nft.table.Some? ==> Unfinished(nft.table.value))
      ensures nft.reliable ==> (restored <==> previous.Some? && Compilable(previous.value))
      ensures nft.reliable ==> (nft.table.Some? <==> previous.Some?)
      ensures nft.reliable && !restored && previous.Some? ==>
                if previous.value.zones == map[] then nft.table.value == GLOBAL_RULE_TABLE else HasHalfDone(nft.table.value)
    {
      Flush();
      restored := false;
      if previous.Some? {
        restored := ApplyConfig(previous.value);
      }
    }

    // What the daemon does with a configuration: apply it, and roll back when it is refused.  Hash and
    // table agree afterwards if and only if one of the two was built, or there is no table at all.
    method ApplyOrRollBack(c: Config, previous: Option<Config>) returns (ok: bool, restored: bool)
      requires Consistent()
      modifies this, nft
      ensures ok ==> nft.table.Some? && IsCompilation(nft.table.value, c)
      ensures nft.reliable ==> (ok <==> old(Unchanged(c)) || Compilable(c))
      ensures !ok && nft.reliable ==> (restored <==> previous.Some? && Compilable(previous.value)) && (nft.table.Some? <==> previous.Some?)
      ensures !ok && restored ==> previous.Some? && nft.table.Some? && IsCompilation(nft.table.value, previous.value)
      ensures diskReliable && old(HashHasZones()) ==> (Consistent() <==> ok || restored || nft.table == None)
      ensures diskReliable && nft.reliable ==>
                (Consistent() <==> old(Unchanged(c)) || Compilable(c) || previous == None || Compilable(previous.value)
                                   || old(storedHash) == None
                                   || (previous.value.zones == map[] && GlobalRuleOnly(old(storedHash).value)))
      ensures diskReliable && old(HashHasZones()) && !Consistent() ==>
                storedHash == old(storedHash) && Unchanged(storedHash.value) && !IsCompilation(nft.table.value, storedHash.value)
    {
      restored := false;
      ok := ApplyConfig(c);
      if !ok {
        restored := RollBack(previous);
        if !restored && nft.table.Some? && storedHash.Some? {
          UnfinishedIsNoCompilation(nft.table.value, storedHash.value);
          GlobalRuleAloneCompiles(storedHash.value);
        }
      }
    }

    // A stale hash is believed: whatever table the failed rollback left, the stored configuration is
    // reported as applied again over it, though the table is not its compilation.
    method ApplyAfterFailedRollBack(c: Config, previous: Option<Config>, again: Config)
      returns (ok: bool, restored: bool, okAgain: bool, ghost left: Option<Table>)
      requires Consistent() && diskReliable && storedHash == Some(again) && again.zones != map[]
      modifies this, nft
      ensures !ok && !restored && left.Some? ==> okAgain && nft.table == left && !IsCompilation(left.value, again)
      ensures nft.reliable && old(nft.table).Some? && c != again && !Compilable(c) && previous.Some? && !Compilable(previous.value) ==>
                !ok && !restored && left.Some?
    {
      ok, restored := ApplyOrRollBack(c, previous);
      left := nft.table;
      okAgain := ApplyConfig(again);
    }

    // With a flush after every failure the hash can be trusted, whatever is applied and however often.
    method ApplyAll(cs: seq<Config>)
      requires Consistent() && diskReliable
      modifies this, nft
      ensures Consistent()
    {
      for i := 0 to |cs|
        invariant Consistent()
      {
        var ok := ApplyConfig(cs[i]);
        if !ok { Flush(); }
      }
    }
  }
}
